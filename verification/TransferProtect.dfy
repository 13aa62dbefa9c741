/** Which requests are executed at all: what starting one needs of the card and the controller, and that a
    write-protected card is never written. */
module TransferProtect {
  import opened TransferModel
  import opened TransferRuns
  import opened TransferSafety
  import opened Words

  // ----- one start -----

  predicate IsWrite(ccb: Ccb) {
    ccb.kind.ReadWrite? && ccb.kind.dir == Out
  }

  /** Outside identification a read or write is executed exactly when the card is ready and it is no write to
      a protected card; otherwise it fails at once, and nothing else changes. */
  lemma ExecutedExactly(h: Host, s: Ext, ccb: Ccb, luck: Luck)
    requires s.nexus == Some(ccb) && ccb.kind.ReadWrite? && s.phase != Ident
    ensures var r := IoCmds(h, s, ccb, luck);
      && (r.past.executions == s.past.executions + 1 <==>
            s.card.ready && !(ccb.kind.dir == Out && s.card.writeProtected))
      && (!s.card.ready || (ccb.kind.dir == Out && s.card.writeProtected) ==> r == s.(status := Failed))
  {
    hide PioInitiate, DmaInitiate, Length, Unstopped;
    var k := ccb.kind;
    var s1 := s.(offset := 0, dir := k.dir, blkno := k.lba, history := Fresh.(setup := luck.setup),
                 past := Before(h, s));
    InitiateLeaves(h, s1, k.phys, Length(k.layout), k.layout, luck);
  }

  lemma InitiateLeaves(h: Host, s: Ext, phys: bool, len: nat, layout: Layout, luck: Luck)
    ensures PioInitiate(h, s, phys, len, luck).past == s.past && DmaInitiate(h, s, layout, luck).past == s.past
    ensures PioInitiate(h, s, phys, len, luck).card == s.card && DmaInitiate(h, s, layout, luck).card == s.card
    ensures PioInitiate(h, s, phys, len, luck).dir == s.dir && DmaInitiate(h, s, layout, luck).dir == s.dir
  {
    hide BlocksOn, Total;
  }

  /** What else the controller must give for an execution to begin: the partition, a port for the request, and
      a command for some of its bytes, for all of them without DMA. */
  predicate Begins(h: Host, kind: Kind, luck: Luck)
    requires kind.ReadWrite?
  {
    && luck.partition && luck.sent && Length(kind.layout) > 0
    && if h.pio then h.pioPort && !kind.phys && luck.setup == Length(kind.layout)
       else h.dmaPort && luck.setup > 0 && (kind.layout.Scatter? ==> h.sgPort && luck.ready)
  }

  /** An execution begins its data phase exactly under that condition; a flat DMA request of no bytes completes
      at once; any other fails. It moves in the request's direction. */
  lemma BeginsExactly(h: Host, s: Ext, ccb: Ccb, luck: Luck)
    requires s.nexus == Some(ccb) && ccb.kind.ReadWrite? && s.status == InProgress && s.phase == Idle
    ensures var k := ccb.kind; var r := Execute(h, s, k.dir, k.lba, k.layout, k.phys, luck);
      && r.dir == k.dir && r.card == s.card && r.check == (s.check && r.status != Completed)
      && (r.status == InProgress <==> Begins(h, k, luck))
      && (r.status == InProgress ==> r.phase == Data)
      && (r.status == Completed <==> luck.partition && !h.pio && h.dmaPort && k.layout == Flat(0))
  {
    hide BlocksOn, Total, Unstopped, SendRw;
    if luck.sent {
      SendRwKeeps(h, true);
    } else {
      SendRwKeeps(h, false);
    }
  }

  lemma SendRwKeeps(h: Host, sent: bool)
    ensures forall s: Ext, n :: var r := SendRw(h, s, n, sent);
      r == s.(stop := r.stop, history := r.history)
  {
  }

  /** Other commands are answered with their own result, device controls even during identification. */
  lemma OthersAnswered(h: Host, s: Ext, ccb: Ccb)
    ensures ccb.kind.Control? ==>
      Start(h, s, ccb).status == (if ccb.kind.ok then Completed else Failed)
    ensures ccb.kind.Plain? ==>
      Start(h, s, ccb).status == if s.phase == Ident then InProgress else if ccb.kind.ok then Completed else Failed
    ensures !ccb.kind.ReadWrite? ==> Start(h, s, ccb).history == Fresh && Start(h, s, ccb).card == s.card
  {
  }

  // ----- a card that comes and goes -----

  /** A card that is found missing is no longer ready, and both changes are told once; one that is found again
      has yet to be identified. */
  lemma MediaExactly(s: Ext, present: bool)
    ensures var r := MediaCheck(s, present);
      && r.card.inserted == present
      && (r.card.ready <==> s.card.ready && !(s.card.inserted && !present))
      && r.card.writeProtected == s.card.writeProtected && r.card.resetting == s.card.resetting
      && r.pulses.insertions == s.pulses.insertions + (if present && !s.card.inserted then 1 else 0)
      && r.pulses.removals == s.pulses.removals + (if s.card.inserted && !present then 1 else 0)
      && r.pulses.resets == s.pulses.resets
  {
  }

  /** The timer pulse answers the active request, as failed, exactly when the card is gone. */
  lemma TimerExactly(h: Host, s: Ext, present: bool)
    requires s.nexus.Some?
    ensures var r := TimerPulse(h, s, present); var gone := if h.cardIntr then !s.card.inserted else !present;
      && (r.nexus == None <==> gone)
      && (gone ==> |r.posted| == |s.posted| + 1 && r.posted[|s.posted|].ccb == s.nexus.value
                   && r.posted[|s.posted|].status == Failed && r.phase == Idle)
      && (!gone ==> r.posted == s.posted && r.status == s.status && r.phase == s.phase)
  {
  }

  /** What the control thread does with a pulse that waits: an insertion and a reset of a card that is in make
      the driver identify the card, if that can be started; a reset that cannot is asked for again; a removal
      ends whatever was under way with the card. Requests are left alone. */
  lemma ControlExactly(h: Host, s: Ext, ok: bool)
    ensures var r := Step(h, s, Insertion(ok));
      if s.pulses.insertions == 0 then r == s
      else
        && r.card.inserted && r.card.ready == s.card.ready && r.phase == (if ok then Ident else s.phase)
        && r.pulses == Pulses(s.pulses.insertions - 1, s.pulses.removals, s.pulses.resets)
    ensures var r := Step(h, s, Removal);
      if s.pulses.removals == 0 then r == s
      else
        && !r.card.inserted && !r.card.ready && r.phase == Idle
        && r.pulses == Pulses(s.pulses.insertions, s.pulses.removals - 1, s.pulses.resets)
    ensures var r := Step(h, s, Reset(ok)); var started := s.card.inserted && ok;
      if s.pulses.resets == 0 then r == s
      else
        && (r.card.resetting <==> s.card.resetting || s.card.inserted) && r.card.ready == s.card.ready
        && r.phase == (if started then Ident else s.phase)
        && r.pulses.resets == s.pulses.resets - (if s.card.inserted && !ok then 0 else 1)
        && r.card.inserted == s.card.inserted
    ensures forall e :: e in {Insertion(ok), Removal, Reset(ok)} ==>
      var r := Step(h, s, e);
      && SameQueues(s, r) && r.status == s.status && r.history == s.history && r.past == s.past
      && r.card.writeProtected == s.card.writeProtected
  {
  }

  /** Identification fails: an active request is answered as failed; a reset is asked for again, and the driver
      stays with it; otherwise the driver is idle, and looks whether the card has gone. */
  lemma FailedIdentification(h: Host, s: Ext, i: Intr)
    requires s.phase == Ident && !i.card && i.ident == Fails
    requires s.nexus.Some? ==> s.status == InProgress
    ensures var r := ProcessInterrupt(h, s, i);
      && r.nexus == None
      && |r.posted| == |s.posted| + (if s.nexus.Some? then 1 else 0)
      && (s.nexus.Some? ==> r.posted[|s.posted|].ccb == s.nexus.value && r.posted[|s.posted|].status == Failed)
      && r.phase == (if s.card.resetting && s.nexus == None then Ident else Idle)
      && r.pulses.resets == s.pulses.resets + (if s.card.resetting then 1 else 0)
      && r.card.resetting == s.card.resetting
      && (r.card.inserted <==> s.card.inserted && (s.card.resetting || i.present))
      && (r.card.ready <==> s.card.ready && (s.card.resetting || i.present || !s.card.inserted))
  {
  }

  /** Identification finishes: the card is ready, protected as found, and no longer being reset. */
  lemma FinishedIdentification(h: Host, s: Ext, i: Intr)
    requires s.phase == Ident && !i.card && i.ident.Finishes?
    ensures var r := ProcessInterrupt(h, s, i);
      && r.card.ready && !r.card.resetting && r.card.writeProtected == i.ident.locked
      && r.card.inserted == s.card.inserted && r.phase != Ident && r.pulses == s.pulses
  {
    hide IoCmds;
    if s.nexus.Some? {
      IoCmdsLeaves(h, Identified(s, i.ident.locked), s.nexus.value, i.luck);
    }
  }

  lemma IoCmdsLeaves(h: Host, s: Ext, ccb: Ccb, luck: Luck)
    requires s.phase == Idle
    ensures var r := IoCmds(h, s, ccb, luck); r.phase != Ident && r.card == s.card && r.pulses == s.pulses
  {
    hide PioInitiate, DmaInitiate, Length, Before;
    if ccb.kind.ReadWrite? {
      var k := ccb.kind;
      var s1 := s.(offset := 0, dir := k.dir, blkno := k.lba, history := Fresh.(setup := luck.setup),
                   past := Before(h, s));
      InitiateLeaves(h, s1, k.phys, Length(k.layout), k.layout, luck);
      InitiatePhases(h, s1, k.phys, Length(k.layout), k.layout, luck);
    }
  }

  lemma InitiatePhases(h: Host, s: Ext, phys: bool, len: nat, layout: Layout, luck: Luck)
    requires s.phase == Idle
    ensures PioInitiate(h, s, phys, len, luck).phase != Ident && DmaInitiate(h, s, layout, luck).phase != Ident
    ensures PioInitiate(h, s, phys, len, luck).pulses == s.pulses && DmaInitiate(h, s, layout, luck).pulses == s.pulses
  {
    hide BlocksOn, Total;
  }

  // ----- a protected card -----

  predicate Untouched(past: Past, history: History) {
    history.chunks == [] && past.unstopped == 0
  }

  predicate AllSpared(posted: seq<Posted>) {
    forall p :: p in posted && IsWrite(p.ccb) ==> Untouched(p.past, p.history) && p.status != Completed
  }

  /** A ready card is protected, and no write has sent a command. */
  predicate Spared(s: Ext) {
    && (s.card.ready ==> s.card.writeProtected)
    && (s.nexus.Some? && IsWrite(s.nexus.value) ==> Untouched(s.past, s.history))
    && AllSpared(s.posted)
  }

  /** Identification never finds the card unprotected. */
  predicate FindsLocked(e: Event) {
    e.Interrupted? && e.i.ident.Finishes? ==> e.i.ident.locked
  }

  lemma IoCmdsSpares(h: Host, s: Ext, ccb: Ccb, luck: Luck)
    requires s.nexus == Some(ccb) && Spared(s) && s.status == InProgress
    ensures var r := IoCmds(h, s, ccb, luck); Spared(r) && (IsWrite(ccb) ==> r.status != Completed)
  {
    hide PioInitiate, DmaInitiate, Length, Before, AllSpared;
    if ccb.kind.ReadWrite? {
      var k := ccb.kind;
      var s1 := s.(offset := 0, dir := k.dir, blkno := k.lba, history := Fresh.(setup := luck.setup),
                   past := Before(h, s));
      InitiateLeaves(h, s1, k.phys, Length(k.layout), k.layout, luck);
    }
  }

  lemma PostSpares(s: Ext)
    requires Spared(s) && (s.nexus.Some? && IsWrite(s.nexus.value) ==> s.status != Completed)
    ensures Spared(Post(s))
  {
  }

  lemma {:induction false} StartSpares(h: Host, s: Ext)
    requires Spared(s)
    ensures Spared(StartCcb(h, s))
    decreases |s.queue|
  {
    hide IoCmds, AllSpared;
    if s.nexus == None && s.queue != [] {
      var ccb := s.queue[0];
      var s0 := s.(queue := s.queue[1..], nexus := Some(ccb), status := InProgress, check := ccb.check,
                   history := Fresh, past := Unstarted);
      IoCmdsSpares(h, s0, ccb, ccb.luck);
      var s1 := Start(h, s.(queue := s.queue[1..]), ccb);
      if s1.status != InProgress {
        PostSpares(s1);
        StartSpares(h, Post(s1));
      }
    }
  }

  /** The data phase is not a write's. */
  lemma DataIsRead(h: Host, s: Ext)
    requires Inv(h, s) && Spared(s) && s.phase == Data
    ensures s.nexus.Some? && !IsWrite(s.nexus.value)
  {
    hide AllComplete, AllSpared, Stopping, Moving;
  }

  predicate NoReadier(s: Ext, r: Ext) {
    r.card.ready ==> s.card.ready && r.card.writeProtected == s.card.writeProtected
  }

  lemma DataCard(h: Host, s: Ext, i: Intr)
    ensures NoReadier(s, DataIrq(h, s, i))
  {
    hide StopIrq, TransferIrq;
    StopCard(h, s, i);
    TransferCard(h, s, i);
  }

  lemma StopCard(h: Host, s: Ext, i: Intr)
    ensures NoReadier(s, StopIrq(h, s, i))
  {
    hide DmaIrq;
    DmaIrqCard(h, i);
  }

  lemma TransferCard(h: Host, s: Ext, i: Intr)
    ensures NoReadier(s, TransferIrq(h, s, i))
  {
    hide DmaIrq, PioRw;
    DmaIrqCard(h, i);
    PioRwCard(i);
  }

  lemma DmaIrqCard(h: Host, i: Intr)
    ensures forall s: Ext :: DmaIrq(h, s, i.stopSent, i.setup, i.sent).card == s.card
  {
    hide BlocksOn;
  }

  lemma PioRwCard(i: Intr)
    ensures forall s: Ext :: PioRw(s, i).card == s.card
  {
  }

  lemma DispatchSpares(h: Host, s: Ext, i: Intr)
    requires Inv(h, s) && Spared(s) && (i.ident.Finishes? ==> i.ident.locked)
    ensures var r := Dispatch(h, s, i);
      Spared(r) && (r.nexus.Some? && IsWrite(r.nexus.value) ==> r.status != Completed)
  {
    hide DataIrq, IoCmds, AllSpared, Complete, Transferring, Remembers, AllComplete;
    if !i.card && s.phase == Data {
      DataIsRead(h, s);
      DataCard(h, s, i);
    } else if !i.card && s.phase == Ident && i.ident.Finishes? && s.nexus.Some? {
      IoCmdsSpares(h, Identified(s, i.ident.locked), s.nexus.value, i.luck);
    }
  }

  lemma StepSpares(h: Host, s: Ext, e: Event)
    requires Inv(h, s) && Spared(s) && FindsLocked(e)
    ensures Spared(Step(h, s, e))
  {
    hide Dispatch, StartCcb, Inv, AllSpared;
    match e
    case Queued(ccbs) => StartSpares(h, s.(queue := s.queue + ccbs));
    case Interrupted(i) =>
      DispatchSpares(h, s, i);
      PostSpares(Dispatch(h, s, i));
      StartSpares(h, ProcessInterrupt(h, s, i));
    case Timed(present) =>
      PostSpares(Fail(if h.cardIntr then s else MediaCheck(s, present)));
      StartSpares(h, TimerPulse(h, s, present));
    case _ =>
  }

  /** Over every run that begins without a ready unprotected card, and in which identification finds none, no
      write sends a data command and none is posted as completed. */
  lemma {:induction false} ProtectedNeverWritten(h: Host, s: Ext, es: seq<Event>)
    requires Booted(s) && (s.card.ready ==> s.card.writeProtected)
    requires forall e :: e in es ==> Quiet(h, e) && FindsLocked(e)
    ensures var r := Run(h, s, es);
      && Spared(r) && Inv(h, r)
      && (r.nexus.Some? && r.nexus.value.kind.ReadWrite? && r.nexus.value.kind.dir == Out ==> r.history.chunks == [])
      && forall p :: p in r.posted && p.ccb.kind.ReadWrite? && p.ccb.kind.dir == Out ==>
           p.history.chunks == [] && p.past.unstopped == 0 && p.status != Completed
  {
    hide Step, Quiet, FindsLocked, Inv;
    CompletedMeansDone(h, s, es);
    if es != [] {
      var before := es[..|es| - 1];
      ProtectedNeverWritten(h, s, before);
      StepSpares(h, Run(h, s, before), es[|es| - 1]);
    }
  }
}
