/** The transfer engine as the driver runs it: the adapter's extension, whose fields its functions update
    in place. What has been sent, moved and posted is logged in ghost fields. Every method is proved to
    keep what the runs keep, and to have the effects the source promises on the fields. */
module TransferDriver {
  import PioLoop
  import opened TransferModel
  import opened TransferProtect
  import opened TransferRuns
  import opened TransferSafety
  import opened Words

  class Driver {
    const host: Host
    var nexus: Option<Ccb>
    var status: Status
    var check: bool
    var phase: Phase
    var stop: Stop
    var retries: nat
    var dir: Dir
    var offset: int
    var nbytes: nat
    var blkno: uint32
    var card: Card
    var pulses: Pulses
    var queue: seq<Ccb>
    ghost var history: History
    ghost var past: Past
    ghost var posted: seq<Posted>

    ghost function Contents(): Ext
      reads this
    {
      Ext(nexus, status, check, phase, stop, retries, dir, offset, nbytes, blkno, history, past, card, pulses,
          queue, posted)
    }

    /** What holds between two events. */
    ghost predicate Valid()
      reads this
    {
      Inv(host, Contents()) && Prompt(Contents())
    }

    constructor (host: Host)
      ensures this.host == host && Booted(Contents()) && Valid()
    {
      this.host := host;
      nexus, queue, phase, status := None, [], Idle, InProgress;
      check, stop, retries, dir, offset, nbytes, blkno := false, NoStop, 0, In, 0, 0, 0;
      card, pulses := Card(false, false, false, false), NoPulses;
      history, past, posted := Fresh, Unstarted, [];
    }

    method Error()
      modifies this`status
      ensures Contents() == Fail(old(Contents()))
    {
      if nexus.Some? {
        status := Failed;
      }
    }

    method SendRwCommand(n: nat, sent: bool) returns (taken: nat)
      modifies this`stop, this`history
      ensures Contents() == SendRw(host, old(Contents()), n, sent) && taken == if sent then n else 0
    {
      if n == host.blksize {
        stop := NoStop;
      } else if !host.autoStop {
        stop := Pending;
      } else {
        stop := Auto;
      }
      if !sent {
        return 0;
      }
      history := history.(chunks := history.chunks + [Chunk(blkno, if offset < 0 then 0 else offset, n)]);
      taken := n;
    }

    /** Sends the next piece of a flat transfer, or ends it. */
    method DmaReadWrite(setup: nat, sent: bool)
      modifies this
      ensures Contents() == DmaRw(host, old(Contents()), setup, sent)
    {
      if nbytes == offset {
        status, check := Completed, false;
        return;
      }
      var n := if offset <= nbytes then Min(setup, nbytes - offset) else 0;
      var taken := 0;
      if n > 0 {
        taken := SendRwCommand(n, sent);
      }
      if taken > 0 {
        offset, blkno := offset + taken, BlocksOn(blkno, taken, host.blksize);
      } else {
        Error();
      }
    }

    method InitiatePio(phys: bool, layout: Layout, luck: Luck)
      modifies this
      ensures Contents() == PioInitiate(host, old(Contents()), phys, Length(layout), luck)
    {
      hide SendRw;
      if phys {
        Error();
        return;
      }
      nbytes := Bytes(layout);
      var taken := 0;
      if luck.setup == nbytes {
        taken := SendRwCommand(nbytes, luck.sent);
      }
      if taken > 0 {
        phase, status := Data, InProgress;
        return;
      }
      Error();
    }

    method InitiateDma(layout: Layout, luck: Luck)
      modifies this
      ensures Contents() == DmaInitiate(host, old(Contents()), layout, luck)
    {
      hide SendRw, DmaRw;
      match layout {
        case Scatter(_) =>
          if host.sgPort {
            if !luck.ready {
              Error();
              return;
            }
            var total := Bytes(layout);
            var n := Min(luck.setup, total);
            if n > 0 {
              var taken := SendRwCommand(n, luck.sent);
              if taken == n {
                status, phase, nbytes, offset := InProgress, Data, n, n;
                return;
              }
            }
          }
          Error();
        case Flat(len) =>
          status, nbytes := InProgress, len;
          DmaReadWrite(luck.setup, luck.sent);
          if status == InProgress {
            phase := Data;
          }
      }
    }

    method StartOver(dir: Dir, lba: uint32, luck: Luck)
      modifies this`offset, this`dir, this`blkno, this`past, this`history
      ensures Contents() == old(Contents()).(offset := 0, dir := dir, blkno := lba,
        history := Fresh.(setup := luck.setup), past := Before(host, old(Contents())))
    {
      hide Before;
      past, history := Before(host, Contents()), Fresh.(setup := luck.setup);
      this.offset, this.dir, this.blkno := 0, dir, lba;
    }

    /** Executes a read or write from its beginning. */
    method ReadWriteCommand(dir: Dir, lba: uint32, layout: Layout, phys: bool, luck: Luck)
      modifies this
      ensures Contents() == Execute(host, old(Contents()), dir, lba, layout, phys, luck)
    {
      hide PioInitiate, DmaInitiate, Length, Before;
      StartOver(dir, lba, luck);
      if luck.partition {
        if host.pio && host.pioPort {
          InitiatePio(phys, layout, luck);
          return;
        }
        if !host.pio && host.dmaPort {
          InitiateDma(layout, luck);
          return;
        }
      }
      Error();
    }

    /** Interprets the active request, unless a card is being identified: afterwards it is answered, in its
        data phase, or still waiting, and remembers what earlier executions of it met. */
    method IoCommands(ccb: Ccb, luck: Luck)
      requires nexus == Some(ccb) && status == InProgress && phase != Data
      requires history.stops <= 7 && Remembers(host, Contents(), ccb)
      modifies this
      ensures Contents() == IoCmds(host, old(Contents()), ccb, luck)
      ensures Outcome(host, ccb, Contents())
      ensures old(phase) != Ident && ccb.kind.ReadWrite? ==>
        var fit := old(card).ready && !(ccb.kind.dir == Out && old(card).writeProtected);
        && (past.executions == old(past).executions + 1 <==> fit)
        && (!fit ==> status == Failed && history == old(history) && phase == old(phase))
    {
      hide Execute, Outcome, Remembers;
      IoCmdsOutcome(host, Contents(), ccb, luck);
      if phase != Ident && ccb.kind.ReadWrite? {
        ExecutedExactly(host, Contents(), ccb, luck);
      }
      if phase == Ident {
        return;
      }
      match ccb.kind {
        case ReadWrite(dir, lba, layout, phys) =>
          if card.ready && !(dir == Out && card.writeProtected) {
            ReadWriteCommand(dir, lba, layout, phys, luck);
          } else {
            Error();
          }
        case Plain(ok) => status := if ok then Completed else Failed;
        case Control(ok) => status := if ok then Completed else Failed;
      }
    }

    method PostActive()
      requires nexus.Some?
      modifies this`nexus, this`posted
      ensures Contents() == Post(old(Contents()))
    {
      posted := posted + [Posted(nexus.value, status, stop, offset, nbytes, history, past)];
      nexus := None;
    }

    /** Makes the first waiting request the active one. */
    method TakeNext() returns (ccb: Ccb)
      requires queue != []
      modifies this`queue, this`nexus, this`status, this`check, this`history, this`past
      ensures ccb == old(queue)[0]
      ensures Contents() == old(Contents()).(queue := old(queue)[1..], nexus := Some(ccb), status := InProgress,
        check := ccb.check, history := Fresh, past := Unstarted)
    {
      ccb := queue[0];
      queue, nexus, status, check := queue[1..], Some(ccb), InProgress, ccb.check;
      history, past := Fresh, Unstarted;
    }

    /** Begins the first waiting request. */
    method StartNext()
      requires nexus == None && phase != Data && queue != []
      modifies this
      ensures Contents() == Start(host, old(Contents()).(queue := old(queue)[1..]), old(queue)[0])
    {
      hide IoCmds, Remembers, Outcome;
      var ccb := TakeNext();
      NothingToRemember(host, Contents(), ccb);
      match ccb.kind {
        case Control(ok) => status := if ok then Completed else Failed;
        case _ => IoCommands(ccb, ccb.luck);
      }
    }

    /** Takes requests until one stays active or none is left. */
    method StartRequests()
      requires Inv(host, Contents())
      modifies this
      ensures Contents() == StartCcb(host, old(Contents()))
      ensures Valid() && Requests(Contents()) == old(Requests(Contents()))
    {
      hide Start, Inv, Requests, Prompt;
      StartKept(host, Contents());
      while true
        invariant Inv(host, Contents()) && StartCcb(host, Contents()) == StartCcb(host, old(Contents()))
        decreases |queue|
      {
        if nexus.Some? || queue == [] {
          return;
        }
        NextInv(host, Contents());
        NoOneActive(host, Contents());
        StartNext();
        if status != InProgress {
          PostActive();
        } else {
          return;
        }
      }
    }

    method CheckMedia(present: bool)
      modifies this`card, this`pulses
      ensures Contents() == MediaCheck(old(Contents()), present)
    {
      if present && !card.inserted {
        card, pulses := card.(inserted := true), pulses.(insertions := pulses.insertions + 1);
      } else if !present && card.inserted {
        card, pulses := card.(inserted := false, ready := false), pulses.(removals := pulses.removals + 1);
      }
    }

    method IssueStop(sent: bool)
      modifies this
      ensures Contents() == FirstStop(old(Contents()), sent)
    {
      history := history.(stops := 1);
      if !sent {
        Error();
        stop := NoStop;
        return;
      }
      stop := Issued;
    }

    method DmaInterrupt(stopSent: bool, setup: nat, sent: bool)
      modifies this
      ensures Contents() == DmaIrq(host, old(Contents()), stopSent, setup, sent)
    {
      hide DmaRw, FirstStop;
      if stop == Pending {
        IssueStop(stopSent);
        return;
      }
      DmaReadWrite(setup, sent);
    }

    method StopPio(dir: Dir, sent: bool)
      modifies this
      ensures Contents() == PioStop(old(Contents()), dir, sent)
      ensures history.ported == old(history.ported)
    {
      if this.dir == dir {
        if stop == Pending {
          IssueStop(sent);
        } else {
          status, check := Completed, false;
        }
      }
    }

    /** Runs the port over the request's buffer. What it moves is the buffer's first bytes; they are all of
        it exactly when the port refused none and no piece with bytes lies behind an empty one. */
    method MovePort(layout: Layout, port: nat -> nat) returns (refused: bool, calls: nat)
      requires nbytes == Length(layout) > 0
      modifies this`offset, this`history
      ensures offset == -1 && history.ported <= nbytes && history == old(history).(ported := history.ported)
      ensures history.ported == nbytes <==> !refused && PioLoop.Compact(Segments(layout))
      ensures refused ==> PioLoop.SomeZero(port, calls)
      ensures PioLoop.NoneEmpty(Segments(layout)) ==> (refused <==> PioLoop.SomeZero(port, calls))
    {
      SegmentsCover(layout);
      var transfer := new PioLoop.Transfer();
      refused, calls := transfer.MoveScatter(Segments(layout), port);
      offset := transfer.offset;
      history := history.(ported := |PioLoop.Bytes(transfer.moved)|);
    }

    /** The port's loop runs once, whatever interrupts follow. */
    method PioReadWrite(i: Intr, port: nat -> nat) returns (refused: bool, calls: nat)
      requires nexus.Some? && nexus.value.kind.ReadWrite? && nbytes == Length(nexus.value.kind.layout) > 0
      modifies this
      ensures Contents() == PioRw(old(Contents()), i.(ported := history.ported))
      ensures old(offset) != -1 ==>
        && (history.ported == old(nbytes) <==> !refused && PioLoop.Compact(Segments(old(nexus).value.kind.layout)))
        && (refused ==> PioLoop.SomeZero(port, calls))
    {
      hide PioStop, Length, Segments;
      refused, calls := false, 0;
      if offset == -1 {
        StopPio(Out, i.stopSent);
        return;
      }
      refused, calls := MovePort(nexus.value.kind.layout, port);
      StopPio(In, i.stopSent);
    }

    /** An error while a stop command is awaited. */
    method RetryStop(present: bool, sent: bool)
      requires nexus.Some?
      modifies this
      ensures Contents() == StopError(old(Contents()), present, sent)
    {
      CheckMedia(present);
      if !card.inserted {
        Error();
        retries, stop := 0, NoStop;
        return;
      }
      var tired := retries > 5;
      retries := retries + 1;
      history := if tired then history else history.(stops := history.stops + 1);
      if tired || !sent {
        GiveUpStop();
      }
    }

    /** The card is to be reset and identified anew. */
    method GiveUpStop()
      modifies this`phase, this`status, this`stop, this`pulses
      ensures Contents() == GiveUp(old(Contents()))
    {
      phase := Ident;
      Error();
      stop, pulses := NoStop, WantReset(pulses);
    }

    method FinishStop(stopSent: bool, setup: nat, sent: bool)
      modifies this
      ensures Contents() == StopDone(host, old(Contents()), stopSent, setup, sent)
    {
      hide DmaIrq;
      retries, stop := 0, NoStop;
      if check {
        Error();
      } else {
        history := history.(stopped := history.stopped + 1);
        if host.pio {
          status, check := Completed, false;
        } else {
          DmaInterrupt(stopSent, setup, sent);
        }
      }
    }

    method StopInterrupt(i: Intr)
      requires nexus.Some? && InData(host, Contents(), nexus.value) && stop == Issued
      modifies this
      ensures Contents() == StopIrq(host, old(Contents()), i.(ported := history.ported))
    {
      hide StopError, StopDone, InData;
      PortLength(host, Contents(), nexus.value);
      if i.error {
        RetryStop(i.present, i.stopSent);
      } else if i.command {
        FinishStop(i.stopSent, i.setup, i.sent);
      }
    }

    /** A data error: the request is marked, and a stop command issued. */
    method StopTransfer(present: bool, sent: bool)
      modifies this
      ensures Contents() == DataError(old(Contents()), present, sent)
    {
      CheckMedia(present);
      history := history.(faulted := true);
      if !card.inserted {
        Error();
        stop := NoStop;
        return;
      }
      IssueStop(sent);
      if sent {
        check := true;
      }
    }

    method EndData(i: Intr, port: nat -> nat) returns (calls: nat)
      requires nexus.Some? && nexus.value.kind.ReadWrite?
      requires host.pio ==> nbytes == Length(nexus.value.kind.layout) > 0
      modifies this
      ensures Contents() == DataDone(host, old(Contents()), i.(ported := history.ported))
    {
      hide DmaIrq, PioRw, Length;
      calls := 0;
      if host.pio {
        var _, n := PioReadWrite(i, port);
        calls := n;
      } else if i.dmaDone {
        DmaInterrupt(i.stopSent, i.setup, i.sent);
      } else {
        Error();
      }
    }

    method TransferInterrupt(i: Intr, port: nat -> nat) returns (calls: nat)
      requires nexus.Some? && InData(host, Contents(), nexus.value) && stop != Issued && (host.pio || !i.buffer)
      modifies this
      ensures Contents() == TransferIrq(host, old(Contents()), i.(ported := history.ported))
    {
      hide DataDone, PioRw, DataError, InData, Length;
      calls := 0;
      PortLength(host, Contents(), nexus.value);
      retries := 0;
      if i.error {
        StopTransfer(i.present, i.stopSent);
      } else if i.data {
        calls := EndData(i, port);
      } else if i.buffer {
        var _, n := PioReadWrite(i, port);
        calls := n;
      }
    }

    /** An interrupt of the data phase, while a stop command is awaited or not. */
    method DataInterrupt(i: Intr, port: nat -> nat) returns (calls: nat)
      requires nexus.Some? && InData(host, Contents(), nexus.value) && (host.pio || !i.buffer)
      modifies this
      ensures var s, r, j := old(Contents()), Contents(), i.(ported := history.ported);
        && r == DataIrq(host, s, j) && Outcome(host, s.nexus.value, r)
        && (r.status == Completed <==> Completes(host, s, j))
        && if s.stop == Issued then StopEffects(host, s, j, r) else TransferEffects(host, s, j, r)
    {
      hide InData, StopIrq, TransferIrq, Outcome, StopEffects, TransferEffects, Completes;
      ghost var s := Contents();
      if stop == Issued {
        calls := 0;
        StopInterrupt(i);
      } else {
        calls := TransferInterrupt(i, port);
      }
      DataEffects(host, s, s.nexus.value, i.(ported := history.ported));
    }

    method FinishIdent(luck: Luck, locked: bool)
      requires phase == Ident && Inv(host, Contents())
      modifies this
      ensures Contents() == IdentDone(host, old(Contents()), luck, locked)
    {
      hide IoCmds, Outcome, Remembers, Inv;
      ReadyAgain(locked);
      if nexus.Some? {
        StillRemembers(host, old(Contents()), Contents());
        IoCommands(nexus.value, luck);
      }
    }

    method FailIdent(present: bool)
      modifies this
      ensures Contents() == IdentFailed(old(Contents()), present)
    {
      hide MediaCheck;
      Error();
      if card.resetting {
        pulses := WantReset(pulses);
        return;
      }
      phase := Idle;
      if !present {
        CheckMedia(false);
      }
    }

    /** An interrupt of the identification, as the calls of `IdentDriver` answer it. */
    method IdentInterrupt(ident: Identification, present: bool, luck: Luck)
      requires phase == Ident && Inv(host, Contents())
      modifies this
      ensures Contents() == IdentIrq(host, old(Contents()), ident, present, luck)
    {
      hide IdentDone, IdentFailed, Inv;
      match ident {
        case Continues =>
        case Finishes(locked) => FinishIdent(luck, locked);
        case Fails => FailIdent(present);
      }
    }

    method ReadyAgain(locked: bool)
      modifies this`phase, this`card
      ensures Contents() == Identified(old(Contents()), locked)
    {
      phase, card := Idle, card.(resetting := false, ready := true, writeProtected := locked);
    }

    method CheckLast(statusRead: bool, cardReady: bool)
      modifies this`status
      ensures Contents() == LastChecks(host, old(Contents()), statusRead, cardReady)
    {
      if nexus.Some? && status != InProgress {
        var single := host.checkStatus && status == Completed && dir == In && nbytes == host.blksize;
        if (single && !statusRead) || !cardReady {
          Error();
        }
      }
    }

    method FinishActive()
      modifies this`nexus, this`posted, this`phase
      ensures Contents() == Finish(old(Contents()))
    {
      if nexus.Some? && status != InProgress {
        PostActive();
        phase := Idle;
      }
    }

    method HandleData(i: Intr, port: nat -> nat) returns (calls: nat)
      requires Inv(host, Contents()) && phase == Data && (host.pio || !i.buffer)
      modifies this
      ensures var s := old(Contents());
        Contents() == LastChecks(host, DataIrq(host, s, i.(ported := history.ported)), i.statusRead, i.cardReady)
    {
      hide DataIrq, LastChecks, InData, Outcome, Inv, StopEffects, TransferEffects, Completes;
      ActiveInData(host, Contents());
      calls := DataInterrupt(i, port);
      CheckLast(i.statusRead, i.cardReady);
    }

    method HandleInterrupt(i: Intr, port: nat -> nat) returns (calls: nat)
      requires Inv(host, Contents()) && (host.pio || !i.buffer)
      modifies this
      ensures Contents() == Dispatch(host, old(Contents()), i.(ported := history.ported))
    {
      hide IdentIrq, DataIrq, LastChecks, MediaCheck, Inv;
      calls := 0;
      if i.card {
        CheckMedia(i.present);
        Error();
      } else {
        match phase {
          case Ident => IdentInterrupt(i.ident, i.present, i.luck);
          case Data => calls := HandleData(i, port);
          case Idle =>
        }
      }
    }

    /** Handles an interrupt. A request in its data phase is posted as completed exactly when the interrupt
        completes it and the card has no last objection. */
    method Interrupt(i: Intr, port: nat -> nat) returns (calls: nat)
      requires Valid() && (host.pio || !i.buffer)
      modifies this
      ensures Contents() == ProcessInterrupt(host, old(Contents()), i.(ported := history.ported))
      ensures Inv(host, Contents()) && Requests(Contents()) == old(Requests(Contents()))
      ensures var s := old(Contents());
        s.phase == Data && !i.card ==>
          (PostsCompleted(s, Contents()) <==>
             Completes(host, s, i.(ported := history.ported)) && Agreed(host, s, i.(ported := history.ported)))
    {
      hide Dispatch, Finish, Inv, Requests, PostsCompleted, Completes, Agreed;
      ghost var s := Contents();
      calls := HandleInterrupt(i, port);
      FinishActive();
      Handled(host, s, i.(ported := history.ported));
    }

    /** The timer gives up on a card that is gone. */
    method Timer(present: bool)
      modifies this
      ensures Contents() == TimerPulse(host, old(Contents()), present)
    {
      hide Finish;
      if !host.cardIntr {
        CheckMedia(present);
      }
      if nexus.Some? && !card.inserted {
        Error();
        FinishActive();
      }
    }

    method TakeInsertion(ok: bool)
      modifies this`card, this`phase, this`pulses
      ensures Contents() == Step(host, old(Contents()), Insertion(ok))
    {
      if pulses.insertions > 0 {
        pulses := pulses.(insertions := pulses.insertions - 1);
        card := card.(inserted := true);
        phase := if ok then Ident else phase;
      }
    }

    method TakeRemoval()
      modifies this`card, this`phase, this`pulses
      ensures Contents() == Step(host, old(Contents()), Removal)
    {
      if pulses.removals > 0 {
        pulses := pulses.(removals := pulses.removals - 1);
        card, phase := card.(inserted := false, ready := false), Idle;
      }
    }

    method TakeReset(ok: bool)
      modifies this`card, this`phase, this`pulses
      ensures Contents() == Step(host, old(Contents()), Reset(ok))
    {
      if pulses.resets > 0 {
        pulses := pulses.(resets := pulses.resets - 1);
        if !card.inserted {
          return;
        }
        card := card.(resetting := true);
        if ok {
          phase := Ident;
        } else {
          pulses := WantReset(pulses);
        }
      }
    }

    /** One round of the driver thread's loop, or one action of the control thread. From a valid state to a
        valid one: no request is left active with an outcome, none waits while none is active, all are
        answered once and in order, and every completion posted is complete. */
    method Handle(e: Event, port: nat -> nat) returns (ghost moved: nat)
      requires Valid() && Quiet(host, e)
      modifies this
      ensures Contents() == Step(host, old(Contents()), Taking(e, moved))
      ensures Valid() && Requests(Contents()) == old(Requests(Contents())) + if e.Queued? then e.ccbs else []
    {
      hide StartCcb, ProcessInterrupt, TimerPulse, Inv, Requests, Prompt, PostsCompleted, Completes, Agreed;
      ghost var s := Contents();
      moved := 0;
      match e {
        case Queued(ccbs) =>
          QueueInv(host, Contents(), ccbs);
          queue := queue + ccbs;
          StartRequests();
        case Interrupted(i) =>
          var _ := Interrupt(i, port);
          moved := history.ported;
          StartRequests();
        case Timed(present) =>
          TimerInv(host, Contents(), present);
          Timer(present);
          StartRequests();
        case Insertion(ok) => TakeInsertion(ok);
        case Removal => TakeRemoval();
        case Reset(ok) => TakeReset(ok);
      }
      Stepped(host, s, Taking(e, moved));
    }
  }

  lemma PortLength(h: Host, s: Ext, ccb: Ccb)
    requires InData(h, s, ccb)
    ensures s.nexus == Some(ccb) && ccb.kind.ReadWrite? && (h.pio ==> s.nbytes == Length(ccb.kind.layout) > 0)
  {
    hide Length;
  }

  lemma DataEffects(h: Host, s: Ext, ccb: Ccb, i: Intr)
    requires InData(h, s, ccb) && (h.pio || !i.buffer)
    ensures var r := DataIrq(h, s, i);
      && Outcome(h, ccb, r) && (r.status == Completed <==> Completes(h, s, i))
      && if s.stop == Issued then StopEffects(h, s, i, r) else TransferEffects(h, s, i, r)
  {
    hide StopIrq, TransferIrq, Outcome, StopEffects, TransferEffects, InData, Completes;
    CompletesExactly(h, s, ccb, i);
    if s.stop == Issued {
      StopIrqOutcome(h, s, ccb, i);
    } else {
      TransferIrqOutcome(h, s, ccb, i);
    }
  }

  lemma StillRemembers(h: Host, s: Ext, r: Ext)
    requires Inv(h, s) && s.nexus.Some? && r == s.(phase := r.phase, card := r.card)
    ensures r.status == InProgress && r.history.stops <= 7 && Remembers(h, r, s.nexus.value)
  {
    hide Transferring, AllComplete;
  }

  lemma ActiveInData(h: Host, s: Ext)
    requires Inv(h, s) && s.phase == Data
    ensures s.nexus.Some? && InData(h, s, s.nexus.value)
  {
    hide AllComplete, Stopping, Moving;
  }

  lemma Handled(h: Host, s: Ext, i: Intr)
    requires Inv(h, s) && (h.pio || !i.buffer)
    ensures var r := ProcessInterrupt(h, s, i);
      && Inv(h, r) && Requests(r) == Requests(s)
      && (s.phase == Data && !i.card ==> (PostsCompleted(s, r) <==> Completes(h, s, i) && Agreed(h, s, i)))
  {
    hide ProcessInterrupt, Completes, Agreed, InData, PostsCompleted, Requests;
    InterruptInv(h, s, i);
    InterruptKeeps(h, s, i);
    if s.phase == Data && !i.card {
      ActiveInData(h, s);
      PostsCompletedExactly(h, s, s.nexus.value, i);
    }
  }

  /** The event, with what the port moved in it. */
  function Taking(e: Event, moved: nat): Event {
    if e.Interrupted? then Interrupted(e.i.(ported := moved)) else e
  }

  lemma QueueInv(h: Host, s: Ext, ccbs: seq<Ccb>)
    requires Inv(h, s)
    ensures Inv(h, s.(queue := s.queue + ccbs))
  {
    hide AllComplete;
  }

  lemma Stepped(h: Host, s: Ext, e: Event)
    requires Inv(h, s) && Prompt(s) && Quiet(h, e)
    ensures var r := Step(h, s, e);
      Inv(h, r) && Prompt(r) && Requests(r) == Requests(s) + if e.Queued? then e.ccbs else []
  {
    hide Step, Requests, Prompt, Transferring, AllComplete;
    StepInv(h, s, e);
    StepKeeps(h, s, e);
  }

  lemma NothingToRemember(h: Host, s: Ext, ccb: Ccb)
    requires s.check == ccb.check && s.history == Fresh && s.past == Unstarted
    ensures Remembers(h, s, ccb)
  {
  }

  lemma NoOneActive(h: Host, s: Ext)
    requires Inv(h, s) && s.nexus == None
    ensures s.phase != Data
  {
  }

  lemma StartKept(h: Host, s: Ext)
    requires Inv(h, s)
    ensures var r := StartCcb(h, s); Inv(h, r) && Prompt(r) && Requests(r) == Requests(s)
  {
    StartInv(h, s);
    StartKeeps(h, s);
  }

  lemma {:induction false} PiecesCover(sizes: seq<nat>)
    ensures PioLoop.Bytes(Pieces(sizes)) == PioLoop.Span(0, Total(sizes)) && |Pieces(sizes)| == |sizes|
  {
    if sizes != [] {
      var before, last := sizes[..|sizes| - 1], sizes[|sizes| - 1];
      PiecesCover(before);
      PioLoop.BytesAppend(Pieces(before), PioLoop.Segment(Total(before), last));
      PioLoop.SpanAppend(0, Total(before), last);
    }
  }

  lemma SegmentsCover(layout: Layout)
    ensures PioLoop.Bytes(Segments(layout)) == PioLoop.Span(0, Length(layout))
    ensures Length(layout) > 0 ==> Segments(layout) != []
  {
    match layout
    case Flat(len) =>
      PioLoop.BytesAppend([], PioLoop.Segment(0, len));
    case Scatter(sizes) => PiecesCover(sizes);
  }

  /** A request's bytes. */
  method Bytes(layout: Layout) returns (n: nat)
    ensures n == Length(layout)
  {
    match layout {
      case Flat(len) => n := len;
      case Scatter(sizes) =>
        n := 0;
        var sgi := 0;
        while sgi < |sizes|
          invariant sgi <= |sizes| && n == Total(sizes[..sgi])
        {
          n := n + sizes[sgi];
          sgi := sgi + 1;
          assert sizes[..sgi][..sgi - 1] == sizes[..sgi - 1];
        }
        assert sizes[..sgi] == sizes;
    }
  }
}
