/** Requests that are started over: identification runs again while one is active, and executes it from
    its beginning. What such a request can still complete as, and when none is. */
module TransferFaults {
  import opened Powers
  import opened TransferModel
  import opened TransferRuns
  import opened TransferSafety
  import opened Words

  // ----- who starts a request over -----

  lemma {:induction false} StartOnlyPosts(h: Host, s: Ext)
    ensures s.nexus.Some? ==> StartCcb(h, s) == s
    ensures |StartCcb(h, s).posted| >= |s.posted|
    decreases |s.queue|
  {
    hide Start;
    if s.nexus == None && s.queue != [] {
      var s1 := Start(h, s.(queue := s.queue[1..]), s.queue[0]);
      if s1.status != InProgress {
        StartOnlyPosts(h, Post(s1));
      }
    }
  }

  /** No interrupt of the data phase touches a request's past. */
  lemma DataKeepsPast(h: Host, s: Ext, i: Intr)
    ensures DataIrq(h, s, i).past == s.past && LastChecks(h, s, i.statusRead, i.cardReady).past == s.past
  {
    hide BlocksOn;
  }

  lemma InitiateKeepsPast(h: Host, s: Ext, phys: bool, len: nat, layout: Layout, luck: Luck)
    ensures PioInitiate(h, s, phys, len, luck).past == s.past && DmaInitiate(h, s, layout, luck).past == s.past
  {
    hide BlocksOn, Total;
  }

  lemma IdentPast(h: Host, s: Ext, i: Intr)
    ensures var r := IdentIrq(h, s, i.ident, i.present, i.luck);
      r.past != s.past ==> i.ident.Finishes? && r.past == Before(h, s)
  {
    hide PioInitiate, DmaInitiate, Length, Unstopped;
    if s.nexus.Some? && s.nexus.value.kind.ReadWrite? && i.ident.Finishes? {
      var k := s.nexus.value.kind;
      var s1 := Identified(s, i.ident.locked).(offset := 0, dir := k.dir, blkno := k.lba,
                   history := Fresh.(setup := i.luck.setup), past := Before(h, s));
      InitiateKeepsPast(h, s1, k.phys, Length(k.layout), k.layout, i.luck);
    }
  }

  /** An active request that is not answered is started over only by an interrupt that finishes
      identification; its past is then what the executions so far leave. */
  lemma OnlyIdentificationRestarts(h: Host, s: Ext, e: Event)
    requires s.nexus.Some?
    ensures var r := Step(h, s, e);
      r.posted == s.posted && r.past != s.past ==>
        && e.Interrupted? && !e.i.card && s.phase == Ident && e.i.ident.Finishes?
        && r.past == Before(h, s) && r.nexus == s.nexus
  {
    hide DataIrq, LastChecks, IdentIrq, StartCcb, Before;
    match e
    case Queued(ccbs) => StartOnlyPosts(h, s.(queue := s.queue + ccbs));
    case Interrupted(i) =>
      IdentPast(h, s, i);
      DataKeepsPast(h, s, i);
      DataKeepsPast(h, DataIrq(h, s, i), i);
      StartOnlyPosts(h, ProcessInterrupt(h, s, i));
    case Timed(present) => StartOnlyPosts(h, TimerPulse(h, s, present));
    case _ =>
  }

  // ----- when none is -----

  /** The event makes the driver give up on a stop command. */
  predicate GivesUp(s: Ext, e: Event) {
    && e.Interrupted? && !e.i.card && s.phase == Data && s.stop == Issued
    && e.i.error && e.i.present && (s.retries > 5 || !e.i.stopSent)
  }

  predicate NoResets(s: Ext) {
    s.pulses.resets == 0 && !s.card.resetting
  }

  /** The pulses a reset comes from, and its flag. */
  predicate SameResets(s: Ext, r: Ext) {
    r.pulses.resets == s.pulses.resets && r.card.resetting == s.card.resetting
  }

  lemma InitiateSame(h: Host, s: Ext, phys: bool, len: nat, layout: Layout, luck: Luck)
    ensures SameResets(s, PioInitiate(h, s, phys, len, luck)) && SameResets(s, DmaInitiate(h, s, layout, luck))
  {
    hide BlocksOn, Total;
  }

  lemma IoCmdsSame(h: Host, s: Ext, ccb: Ccb, luck: Luck)
    ensures SameResets(s, IoCmds(h, s, ccb, luck))
  {
    hide PioInitiate, DmaInitiate, Length, Before;
    if ccb.kind.ReadWrite? {
      var k := ccb.kind;
      var s1 := s.(offset := 0, dir := k.dir, blkno := k.lba, history := Fresh.(setup := luck.setup),
                   past := Before(h, s));
      InitiateSame(h, s1, k.phys, Length(k.layout), k.layout, luck);
    }
  }

  lemma {:induction false} StartSame(h: Host, s: Ext)
    ensures SameResets(s, StartCcb(h, s))
    decreases |s.queue|
  {
    hide IoCmds;
    if s.nexus == None && s.queue != [] {
      var ccb := s.queue[0];
      var s0 := s.(queue := s.queue[1..], nexus := Some(ccb), status := InProgress, check := ccb.check,
                   history := Fresh, past := Unstarted);
      IoCmdsSame(h, s0, ccb, ccb.luck);
      var s1 := Start(h, s.(queue := s.queue[1..]), ccb);
      if s1.status != InProgress {
        StartSame(h, Post(s1));
      }
    }
  }

  lemma DataSame(h: Host, s: Ext, i: Intr)
    requires s.stop == Issued && i.error && i.present ==> s.retries <= 5 && i.stopSent
    ensures SameResets(s, DataIrq(h, s, i))
  {
    hide DmaIrq, PioRw;
    DmaIrqSame(h, i);
    PioRwSame(i);
  }

  lemma PioRwSame(i: Intr)
    ensures forall s: Ext :: SameResets(s, PioRw(s, i))
  {
  }

  lemma DmaIrqSame(h: Host, i: Intr)
    ensures forall s: Ext :: SameResets(s, DmaIrq(h, s, i.stopSent, i.setup, i.sent))
  {
    hide BlocksOn;
  }

  lemma IdentNoResets(h: Host, s: Ext, i: Intr)
    requires NoResets(s)
    ensures NoResets(IdentIrq(h, s, i.ident, i.present, i.luck))
  {
    hide IoCmds;
    if s.nexus.Some? && i.ident.Finishes? {
      IoCmdsSame(h, Identified(s, i.ident.locked), s.nexus.value, i.luck);
    }
  }

  lemma InterruptNoResets(h: Host, s: Ext, i: Intr)
    requires NoResets(s) && !GivesUp(s, Interrupted(i))
    ensures NoResets(ProcessInterrupt(h, s, i))
  {
    hide DataIrq, IdentIrq;
    if !i.card && s.phase == Data {
      DataSame(h, s, i);
    } else if !i.card && s.phase == Ident {
      IdentNoResets(h, s, i);
    }
  }

  /** A reset is wanted only when the driver has given up on a stop command: only then, or when a reset's own
      identification fails, is its pulse sent. */
  lemma StepNoResets(h: Host, s: Ext, e: Event)
    requires NoResets(s) && !GivesUp(s, e)
    ensures NoResets(Step(h, s, e))
  {
    hide ProcessInterrupt, StartCcb;
    match e
    case Queued(ccbs) => StartSame(h, s.(queue := s.queue + ccbs));
    case Interrupted(i) =>
      InterruptNoResets(h, s, i);
      StartSame(h, ProcessInterrupt(h, s, i));
    case Timed(present) => StartSame(h, TimerPulse(h, s, present));
    case _ =>
  }

  /** The driver gives up on no stop command, and insertions are taken only while no request is active. */
  predicate Undisturbed(h: Host, s: Ext, es: seq<Event>) {
    es == [] ||
    (var before, e := es[..|es| - 1], es[|es| - 1];
     && Undisturbed(h, s, before) && !GivesUp(Run(h, s, before), e)
     && (e.Insertion? && Run(h, s, before).pulses.insertions > 0 ==> Run(h, s, before).nexus == None))
  }

  predicate First(past: Past) {
    past.executions <= 1 && !past.faulted && past.unstopped == 0
  }

  predicate AllFirst(posted: seq<Posted>) {
    forall p :: p in posted ==> First(p.past)
  }

  /** A request that waits for identification has not begun. */
  predicate FirstOnly(s: Ext) {
    && AllFirst(s.posted)
    && (s.nexus.Some? ==> First(s.past))
    && (s.nexus.Some? && s.phase == Ident ==> s.past == Unstarted && s.history == Fresh)
  }

  lemma PostFirst(s: Ext)
    requires AllFirst(s.posted) && (s.nexus.Some? ==> First(s.past))
    ensures AllFirst(Post(s).posted)
  {
  }

  lemma FirstExecution(h: Host, s: Ext)
    requires s.past == Unstarted && s.history == Fresh
    ensures First(Before(h, s))
  {
  }

  lemma InitiatePhase(h: Host, s: Ext, phys: bool, len: nat, layout: Layout, luck: Luck)
    requires s.phase != Ident
    ensures PioInitiate(h, s, phys, len, luck).phase != Ident && DmaInitiate(h, s, layout, luck).phase != Ident
  {
    hide BlocksOn, Total;
  }

  lemma IoCmdsFirst(h: Host, s: Ext, ccb: Ccb, luck: Luck)
    requires s.nexus == Some(ccb) && s.past == Unstarted && s.history == Fresh && AllFirst(s.posted)
    ensures FirstOnly(IoCmds(h, s, ccb, luck))
  {
    hide PioInitiate, DmaInitiate, Length, Unstopped, Before, AllFirst;
    FirstExecution(h, s);
    if ccb.kind.ReadWrite? && s.phase != Ident {
      var k := ccb.kind;
      var s1 := s.(offset := 0, dir := k.dir, blkno := k.lba, history := Fresh.(setup := luck.setup),
                   past := Before(h, s));
      InitiateKeepsPast(h, s1, k.phys, Length(k.layout), k.layout, luck);
      InitiatePhase(h, s1, k.phys, Length(k.layout), k.layout, luck);
    }
  }

  lemma {:induction false} StartFirst(h: Host, s: Ext)
    requires FirstOnly(s)
    ensures FirstOnly(StartCcb(h, s))
    decreases |s.queue|
  {
    hide IoCmds, AllFirst;
    if s.nexus == None && s.queue != [] {
      var ccb := s.queue[0];
      var s0 := s.(queue := s.queue[1..], nexus := Some(ccb), status := InProgress, check := ccb.check,
                   history := Fresh, past := Unstarted);
      IoCmdsFirst(h, s0, ccb, ccb.luck);
      var s1 := Start(h, s.(queue := s.queue[1..]), ccb);
      if s1.status != InProgress {
        PostFirst(s1);
        StartFirst(h, Post(s1));
      }
    }
  }

  lemma IdentFirst(h: Host, s: Ext, i: Intr)
    requires FirstOnly(s) && s.phase == Ident
    ensures var r := IdentIrq(h, s, i.ident, i.present, i.luck); AllFirst(r.posted) && (r.nexus.Some? ==> First(r.past))
    ensures FirstOnly(Finish(IdentIrq(h, s, i.ident, i.present, i.luck)))
  {
    hide IoCmds, AllFirst;
    if s.nexus.Some? && i.ident.Finishes? {
      IoCmdsFirst(h, Identified(s, i.ident.locked), s.nexus.value, i.luck);
    }
    PostFirst(IdentIrq(h, s, i.ident, i.present, i.luck));
  }

  lemma DataFirst(h: Host, s: Ext, i: Intr)
    requires FirstOnly(s) && s.phase == Data
    ensures FirstOnly(Finish(LastChecks(h, DataIrq(h, s, i), i.statusRead, i.cardReady)))
  {
    hide AllFirst, DataIrq, LastChecks;
    var r := LastChecks(h, DataIrq(h, s, i), i.statusRead, i.cardReady);
    DataKeepsPast(h, s, i);
    DataKeepsPast(h, DataIrq(h, s, i), i);
    DataLeaves(h, s, i);
    PostFirst(r);
  }

  /** Giving up on a stop asks for identification, and answers the request. */
  lemma DataLeaves(h: Host, s: Ext, i: Intr)
    requires s.phase == Data
    ensures var r := LastChecks(h, DataIrq(h, s, i), i.statusRead, i.cardReady);
      r.phase == Ident && r.nexus.Some? ==> r.status != InProgress
  {
    hide BlocksOn;
  }

  lemma StepFirst(h: Host, s: Ext, e: Event)
    requires FirstOnly(s) && Waiting(s) && NoResets(s)
    requires e.Insertion? && s.pulses.insertions > 0 ==> s.nexus == None
    ensures FirstOnly(Step(h, s, e))
  {
    hide AllFirst, DataIrq, LastChecks, IdentIrq, StartCcb;
    match e
    case Queued(ccbs) => StartFirst(h, s.(queue := s.queue + ccbs));
    case Interrupted(i) =>
      PostFirst(Fail(MediaCheck(s, i.present)));
      PostFirst(s);
      if !i.card && s.phase == Ident {
        IdentFirst(h, s, i);
      } else if !i.card && s.phase == Data {
        DataFirst(h, s, i);
      }
      StartFirst(h, ProcessInterrupt(h, s, i));
    case Timed(present) =>
      PostFirst(Fail(if h.cardIntr then s else MediaCheck(s, present)));
      StartFirst(h, TimerPulse(h, s, present));
    case _ =>
  }

  /** In a run where the driver gives up on no stop command and insertions are taken only while no request
      is active, no reset is ever wanted and every request is executed at most once, so no completed
      transfer ever saw a data error or was left unstopped. */
  lemma {:induction false} UndisturbedNeverFaulted(h: Host, s: Ext, es: seq<Event>)
    requires Booted(s) && Undisturbed(h, s, es) && forall e :: e in es ==> Quiet(h, e)
    ensures FirstOnly(Run(h, s, es)) && NoResets(Run(h, s, es)) && Inv(h, Run(h, s, es))
    ensures forall p :: p in Run(h, s, es).posted && p.status == Completed && p.ccb.kind.ReadWrite? ==>
      !EverFaulted(p.past, p.history) && p.past.unstopped == 0 && Unstopped(h, p.history) == 0
  {
    hide Step, Quiet, Transferring, Remembers, Tiled, OffsetOf, Multis;
    CompletedMeansDone(h, s, es);
    if es != [] {
      var before := es[..|es| - 1];
      UndisturbedNeverFaulted(h, s, before);
      StepFirst(h, Run(h, s, before), es[|es| - 1]);
      StepNoResets(h, Run(h, s, before), es[|es| - 1]);
    }
  }

  // ----- which requests can complete after a data error -----

  /** The request can be moved by commands that need no stop from the driver. */
  predicate Stopless(h: Host, kind: Kind) {
    && Able(h, kind)
    && (h.autoStop ||
        if h.pio then Length(kind.layout) == h.blksize
        else if kind.layout.Flat? then Length(kind.layout) % h.blksize == 0
        else Length(kind.layout) >= h.blksize)
  }

  lemma {:induction false} AllSingle(h: Host, chunks: seq<Chunk>)
    requires Multis(h, chunks) == 0 && !h.autoStop
    ensures OffsetOf(chunks) == |chunks| * h.blksize
  {
    if chunks != [] {
      AllSingle(h, chunks[..|chunks| - 1]);
      assert |chunks| * h.blksize == (|chunks| - 1) * h.blksize + h.blksize;
    }
  }

  lemma Multiple(k: nat, d: Positive)
    ensures k * d % d == 0 && (k > 0 ==> k * d >= d) && (k == 1 ==> k * d == d)
  {
    DivUnique(k * d, d, k, 0);
    if k > 0 {
      MulAtLeast(k, d);
    }
  }

  lemma FaultedIsStopless(h: Host, p: Posted)
    requires Complete(h, p) && p.status == Completed && p.ccb.kind.ReadWrite?
    requires p.past.faulted || (p.ccb.check && Able(h, p.ccb.kind))
    ensures Stopless(h, p.ccb.kind)
  {
    hide Total, Tiled, OffsetOf, Multis, Length;
    if !h.autoStop {
      AllSingle(h, p.history.chunks);
      Multiple(|p.history.chunks|, h.blksize);
    }
  }

  // ----- runs that complete such requests -----

  /** An adapter as it starts, with nothing known of its card. */
  const BOOT := Ext(None, InProgress, false, Idle, NoStop, 0, In, 0, 0, 0, Fresh, Unstarted,
                    Card(false, false, false, false), NoPulses, [], [])

  const NO_LUCK := Luck(false, false, 0, false)

  /** The controller's answers in these runs: one block at a time when the driver would owe a stop for more. */
  function Goes(h: Host, kind: Kind): Luck
    requires kind.ReadWrite?
  {
    Luck(true, true, if h.pio || h.autoStop then Length(kind.layout) else h.blksize, true)
  }

  /** The whole request by one command. */
  function Whole(kind: Kind): Luck
    requires kind.ReadWrite?
  {
    Luck(true, true, Length(kind.layout), true)
  }

  /** A command that needs a stop. */
  function Owing(h: Host, kind: Kind): Luck
    requires kind.ReadWrite?
  {
    Luck(true, true, if h.pio then Length(kind.layout) else if h.blksize != 1 then 1 else 2, true)
  }

  function Detected(present: bool): Event {
    Interrupted(Intr(true, false, false, false, false, Continues, present, true, true, 0, true, true, true, NO_LUCK, 0))
  }

  function Finishing(luck: Luck): Event {
    Interrupted(Intr(false, true, false, false, false, Finishes(false), true, true, true, 0, true, true, true, luck, 0))
  }

  /** A completed command ends whatever was awaited: identification, or a stop. */
  function Stopped(luck: Luck): Event {
    Finishing(luck)
  }

  function Faulting(luck: Luck): Event {
    Interrupted(Intr(false, false, false, true, false, Continues, true, true, true, 0, true, true, true, luck, 0))
  }

  /** A second error, and the controller refuses another stop command. */
  function StopRefused(): Event {
    Interrupted(Intr(false, false, false, true, false, Continues, true, false, true, 0, true, true, true, NO_LUCK, 0))
  }

  function Done(luck: Luck): Event {
    Interrupted(Intr(false, false, true, false, false, Continues, true, true, true, luck.setup, true, true, true,
                     luck, 0))
  }

  predicate AllQuiet(h: Host, es: seq<Event>) {
    forall e :: e in es ==> Quiet(h, e)
  }

  /** A run of one more event. */
  lemma Extend(h: Host, s: Ext, es: seq<Event>, e: Event) returns (more: seq<Event>)
    requires AllQuiet(h, es) && Quiet(h, e)
    ensures more == es + [e] && AllQuiet(h, more) && Run(h, s, more) == Step(h, Run(h, s, es), e)
  {
    hide Step, Quiet;
    more := es + [e];
    assert more[..|es|] == es;
  }

  lemma RunNone(h: Host, s: Ext)
    ensures Run(h, s, []) == s
  {
  }

  // ----- a request started over -----

  /** The request is active and waits for identification. */
  predicate Awaits(s: Ext, ccb: Ccb) {
    && s.nexus == Some(ccb) && s.queue == [] && s.posted == [] && s.status == InProgress && s.phase == Ident
    && s.card.inserted && !s.card.writeProtected
  }

  /** The card that was taken out and put in again has yet to be told to the control thread. */
  predicate Flapped(s: Ext) {
    s.pulses.removals > 0 && s.pulses.insertions > 0
  }

  /** A card comes, goes and comes again while the first request waits for its identification. */
  lemma WaitsForIdent(h: Host, ccb: Ccb) returns (es: seq<Event>)
    requires ccb.kind.ReadWrite?
    ensures AllQuiet(h, es)
    ensures var s := Run(h, BOOT, es);
      Awaits(s, ccb) && Flapped(s) && s.check == ccb.check && s.history == Fresh && s.past == Unstarted
  {
    hide Run;
    RunNone(h, BOOT);
    es := Extend(h, BOOT, [], Detected(true));
    es := Extend(h, BOOT, es, Detected(false));
    es := Extend(h, BOOT, es, Detected(true));
    es := Extend(h, BOOT, es, Insertion(true));
    CardFlaps(h);
    assert ([] + [ccb])[1..] == [];
    es := Extend(h, BOOT, es, Queued([ccb]));
  }

  lemma CardFlaps(h: Host)
    ensures var s := Step(h, Step(h, Step(h, BOOT, Detected(true)), Detected(false)), Detected(true));
      Step(h, s, Insertion(true)) ==
        BOOT.(phase := Ident, card := Card(false, false, true, false), pulses := Pulses(1, 1, 0))
  {
  }

  /** The control thread hears of the card: an active request waits for identification again. */
  lemma Interrupts(h: Host, es: seq<Event>, ccb: Ccb) returns (more: seq<Event>)
    requires AllQuiet(h, es)
    requires var s := Run(h, BOOT, es);
      && Flapped(s) && s.nexus == Some(ccb) && s.queue == [] && s.posted == [] && s.status == InProgress
      && !s.card.writeProtected
    ensures AllQuiet(h, more)
    ensures var s, r := Run(h, BOOT, es), Run(h, BOOT, more);
      Awaits(r, ccb) && r.history == s.history && r.past == s.past && r.check == s.check
  {
    hide Run;
    more := Extend(h, BOOT, es, Removal);
    more := Extend(h, BOOT, more, Insertion(true));
  }

  /** An active request whose card is identified, about to be executed. */
  predicate Executable(s: Ext, ccb: Ccb) {
    && s.nexus == Some(ccb) && s.queue == [] && s.posted == [] && s.status == InProgress && s.phase == Idle
    && s.card.inserted && !s.card.writeProtected && ccb.kind.ReadWrite?
  }

  function Executed(h: Host, s: Ext, ccb: Ccb, luck: Luck): Ext
    requires ccb.kind.ReadWrite?
  {
    Execute(h, s, ccb.kind.dir, ccb.kind.lba, ccb.kind.layout, ccb.kind.phys, luck)
  }

  /** Identification finishes, and the request is executed. */
  lemma Executes(h: Host, s: Ext, ccb: Ccb, luck: Luck) returns (s0: Ext)
    requires ccb.kind.ReadWrite? && Awaits(s, ccb)
    ensures Executable(s0, ccb) && s0 == s.(phase := s0.phase, card := s0.card)
    ensures Executed(h, s0, ccb, luck).status == InProgress ==>
      Step(h, s, Finishing(luck)) == Executed(h, s0, ccb, luck)
  {
    hide Execute;
    s0 := Identified(s, false);
  }

  /** The request is in its data phase. */
  predicate Moves(s: Ext, ccb: Ccb) {
    && ccb.kind.ReadWrite? && s.nexus == Some(ccb) && s.queue == [] && s.posted == []
    && s.phase == Data && s.status == InProgress && s.dir == ccb.kind.dir
    && s.card.inserted && !s.card.writeProtected && !s.history.faulted
  }

  /** An execution began: it left what came before in the past. */
  predicate Began(h: Host, s0: Ext, s: Ext, ccb: Ccb) {
    Moves(s, ccb) && s.past == Before(h, s0) && s.check == s0.check && s.pulses == s0.pulses
  }

  // ----- without a stop -----

  /** An execution that has begun and needs no stop. */
  predicate Begun(h: Host, s: Ext, ccb: Ccb) {
    && Moves(s, ccb) && (s.stop == NoStop || s.stop == Auto)
    && if h.pio then s.offset == 0 || (s.offset == -1 && s.dir == Out)
       else 0 <= s.offset <= s.nbytes && (h.autoStop || (s.nbytes - s.offset) % h.blksize == 0)
            && (h.autoStop ==> s.offset == s.nbytes)
  }

  lemma OneBlockLess(n: nat, d: Positive)
    requires n > 0 && n % d == 0
    ensures n >= d && (n - d) % d == 0
  {
    assert n == n / d * d;
    DivUnique(n - d, d, n / d - 1, 0);
  }

  lemma ExecuteBegins(h: Host, s: Ext, ccb: Ccb)
    requires Executable(s, ccb) && Stopless(h, ccb.kind)
    ensures var r := Executed(h, s, ccb, Goes(h, ccb.kind)); Begun(h, r, ccb) && Began(h, s, r, ccb)
  {
    hide Total, BlocksOn, Before;
    var n := Length(ccb.kind.layout);
    if !h.pio && !h.autoStop && ccb.kind.layout.Flat? {
      OneBlockLess(n, h.blksize);
    }
  }

  lemma FaultMarks(h: Host, s: Ext, ccb: Ccb, luck: Luck)
    requires Begun(h, s, ccb)
    ensures var r := Step(h, s, Faulting(luck));
      && r.nexus == Some(ccb) && r.queue == [] && r.posted == [] && r.status == InProgress && r.history.faulted
      && !r.card.writeProtected && r.pulses == s.pulses
  {
    hide DmaRw;
  }

  /** The request is posted as completed, with this past. */
  ghost predicate Answers(s: Ext, ccb: Ccb, past: Past) {
    exists p :: p in s.posted && p.ccb == ccb && p.status == Completed && p.past == past
  }

  lemma LastAnswers(r: Ext, ccb: Ccb, past: Past)
    requires |r.posted| > 0
    requires var p := r.posted[|r.posted| - 1]; p.ccb == ccb && p.status == Completed && p.past == past
    ensures Answers(r, ccb, past)
  {
    assert r.posted[|r.posted| - 1] in r.posted;
  }

  /** One more data interrupt moves a block, ends the port transfer or completes the request. */
  lemma DataStep(h: Host, s: Ext, ccb: Ccb)
    requires Begun(h, s, ccb)
    ensures var r := Step(h, s, Done(Goes(h, ccb.kind)));
      if (if h.pio then s.offset == -1 || s.dir == In else s.offset == s.nbytes) then Answers(r, ccb, s.past)
      else
        && Begun(h, r, ccb) && r.past == s.past
        && if h.pio then r.offset == -1 else s.offset < r.offset <= r.nbytes == s.nbytes
  {
    if h.pio {
      PortStep(h, s, ccb);
    } else {
      ChunkStep(h, s, ccb);
    }
  }

  lemma PortStep(h: Host, s: Ext, ccb: Ccb)
    requires Begun(h, s, ccb) && h.pio
    ensures var r := Step(h, s, Done(Goes(h, ccb.kind)));
      if s.offset == -1 || s.dir == In then Answers(r, ccb, s.past)
      else Begun(h, r, ccb) && r.past == s.past && r.offset == -1
  {
    hide BlocksOn, Length, DmaRw;
    var r := Step(h, s, Done(Goes(h, ccb.kind)));
    if s.offset == -1 || s.dir == In {
      LastAnswers(r, ccb, s.past);
    }
  }

  lemma ChunkStep(h: Host, s: Ext, ccb: Ccb)
    requires Begun(h, s, ccb) && !h.pio
    ensures var r := Step(h, s, Done(Goes(h, ccb.kind)));
      if s.offset == s.nbytes then Answers(r, ccb, s.past)
      else Begun(h, r, ccb) && r.past == s.past && s.offset < r.offset <= r.nbytes == s.nbytes
  {
    hide BlocksOn, Length, PioRw;
    if s.offset < s.nbytes {
      OneBlockLess(s.nbytes - s.offset, h.blksize);
    } else {
      LastAnswers(Step(h, s, Done(Goes(h, ccb.kind))), ccb, s.past);
    }
  }

  lemma {:induction false} RunsToEnd(h: Host, es: seq<Event>, ccb: Ccb) returns (more: seq<Event>)
    requires AllQuiet(h, es) && Begun(h, Run(h, BOOT, es), ccb)
    ensures AllQuiet(h, more) && Answers(Run(h, BOOT, more), ccb, Run(h, BOOT, es).past)
    decreases var r := Run(h, BOOT, es); if h.pio then (if r.offset == -1 then 0 else 1) else r.nbytes - r.offset
  {
    hide Step, Answers, Goes;
    var r := Run(h, BOOT, es);
    DataStep(h, r, ccb);
    more := Extend(h, BOOT, es, Done(Goes(h, ccb.kind)));
    if !(if h.pio then r.offset == -1 || r.dir == In else r.offset == r.nbytes) {
      more := RunsToEnd(h, more, ccb);
    }
  }

  // ----- with a stop -----

  lemma OneOwed(h: Host, history: History, c: Chunk)
    requires history.chunks == [c] && history.stopped == 0 && StopFor(h, c.n) == Pending
    ensures Unstopped(h, history) == 1
  {
    var chunks := history.chunks;
    assert chunks[|chunks| - 1] == c && chunks[..|chunks| - 1] == [];
    assert Multis(h, []) == 0;
  }

  /** The first command of an execution that owes a stop. */
  lemma ExecuteOwes(h: Host, s: Ext, ccb: Ccb)
    requires Executable(s, ccb) && MayOwe(h, ccb.kind)
    ensures var r := Executed(h, s, ccb, Owing(h, ccb.kind));
      Began(h, s, r, ccb) && Unstopped(h, r.history) == 1
  {
    hide Total, BlocksOn, Before, Unstopped, Multis;
    var r := Executed(h, s, ccb, Owing(h, ccb.kind));
    var n := Min(Owing(h, ccb.kind).setup, Length(ccb.kind.layout));
    OneOwed(h, r.history, Chunk(ccb.kind.lba, 0, n));
  }

  /** All of the request is moved but for the port's part, by one command that owes a stop. */
  predicate Halting(h: Host, s: Ext, ccb: Ccb) {
    && Moves(s, ccb) && !s.check && s.stop == Pending
    && if h.pio then s.offset == 0 || (s.offset == -1 && s.dir == Out) else s.offset == s.nbytes
  }

  predicate Halted(h: Host, s: Ext, ccb: Ccb) {
    Moves(s, ccb) && !s.check && s.stop == Issued && (h.pio || s.offset == s.nbytes)
  }

  lemma ExecuteHalts(h: Host, s: Ext, ccb: Ccb)
    requires Executable(s, ccb) && MayOwe(h, ccb.kind) && !Stopless(h, ccb.kind) && !s.check
    ensures var r := Executed(h, s, ccb, Whole(ccb.kind)); Halting(h, r, ccb) && Began(h, s, r, ccb)
  {
    hide Total, BlocksOn, Before;
    Multiple(1, h.blksize);
  }

  lemma HaltStep(h: Host, s: Ext, ccb: Ccb)
    requires Halting(h, s, ccb)
    ensures var r := Step(h, s, Done(Whole(ccb.kind)));
      && r.past == s.past
      && if h.pio && s.dir == Out && s.offset == 0 then Halting(h, r, ccb) && r.offset == -1 else Halted(h, r, ccb)
  {
    hide BlocksOn, Length, DmaRw;
  }

  lemma HaltedStep(h: Host, s: Ext, ccb: Ccb)
    requires Halted(h, s, ccb)
    ensures Answers(Step(h, s, Stopped(Whole(ccb.kind))), ccb, s.past)
  {
    hide BlocksOn, Length;
    LastAnswers(Step(h, s, Stopped(Whole(ccb.kind))), ccb, s.past);
  }

  lemma HaltsToEnd(h: Host, es: seq<Event>, ccb: Ccb) returns (more: seq<Event>)
    requires AllQuiet(h, es) && Halting(h, Run(h, BOOT, es), ccb)
    ensures AllQuiet(h, more) && Answers(Run(h, BOOT, more), ccb, Run(h, BOOT, es).past)
  {
    hide Step, Answers, Whole, Run;
    var r := Run(h, BOOT, es);
    HaltStep(h, r, ccb);
    more := Extend(h, BOOT, es, Done(Whole(ccb.kind)));
    if h.pio && r.dir == Out && r.offset == 0 {
      HaltStep(h, Run(h, BOOT, more), ccb);
      more := Extend(h, BOOT, more, Done(Whole(ccb.kind)));
    }
    HaltedStep(h, Run(h, BOOT, more), ccb);
    more := Extend(h, BOOT, more, Stopped(Whole(ccb.kind)));
  }

  // ----- which requests can complete after a data error -----

  /** In some run the request completes although an earlier execution of it saw a data error. */
  ghost predicate CompletesFaulted(h: Host, ccb: Ccb) {
    exists s: Ext, es: seq<Event>, p: Posted ::
      && Booted(s) && (forall e :: e in es ==> Quiet(h, e))
      && p in Run(h, s, es).posted && p.ccb == ccb && p.status == Completed && p.past.faulted
  }

  /** A request is executed, faulted and started over. */
  lemma StartsOver(h: Host, ccb: Ccb) returns (es: seq<Event>)
    requires ccb.kind.ReadWrite? && Stopless(h, ccb.kind)
    ensures AllQuiet(h, es) && Begun(h, Run(h, BOOT, es), ccb) && Run(h, BOOT, es).past.faulted
  {
    hide Step, Run, Execute, Stopless, Goes, Unstopped;
    var luck := Goes(h, ccb.kind);
    es := WaitsForIdent(h, ccb);
    var s0 := Executes(h, Run(h, BOOT, es), ccb, luck);
    ExecuteBegins(h, s0, ccb);
    es := Extend(h, BOOT, es, Finishing(luck));
    FaultMarks(h, Run(h, BOOT, es), ccb, luck);
    es := Extend(h, BOOT, es, Faulting(luck));
    es := Interrupts(h, es, ccb);
    s0 := Executes(h, Run(h, BOOT, es), ccb, luck);
    ExecuteBegins(h, s0, ccb);
    es := Extend(h, BOOT, es, Finishing(luck));
  }

  /** A request can complete although an earlier execution of it saw a data error exactly when it can be
      moved by commands that need no stop from the driver: a single block, or single blocks one at a time,
      or with the host's own stop. */
  lemma CompletesFaultedExactly(h: Host, ccb: Ccb)
    requires ccb.kind.ReadWrite?
    ensures CompletesFaulted(h, ccb) <==> Stopless(h, ccb.kind)
  {
    hide Stopless, Begun, Run, Complete;
    if Stopless(h, ccb.kind) {
      var es := StartsOver(h, ccb);
      var more := RunsToEnd(h, es, ccb);
      assert Booted(BOOT) && Answers(Run(h, BOOT, more), ccb, Run(h, BOOT, es).past);
    }
    if CompletesFaulted(h, ccb) {
      var s: Ext, es: seq<Event>, p: Posted :|
        && Booted(s) && (forall e :: e in es ==> Quiet(h, e))
        && p in Run(h, s, es).posted && p.ccb == ccb && p.status == Completed && p.past.faulted;
      CompletedMeansDone(h, s, es);
      FaultedIsStopless(h, p);
    }
  }

  // ----- which requests can complete with a command never stopped -----

  /** In some run the request completes although a command of an earlier execution of it was owed a stop and
      never stopped. */
  ghost predicate CompletesUnstopped(h: Host, ccb: Ccb) {
    exists s: Ext, es: seq<Event>, p: Posted ::
      && Booted(s) && (forall e :: e in es ==> Quiet(h, e))
      && p in Run(h, s, es).posted && p.ccb == ccb && p.status == Completed && p.past.unstopped > 0
  }

  /** A request is executed by a command that owes a stop, and started over before the stop is issued. */
  lemma LeavesUnstopped(h: Host, ccb: Ccb) returns (es: seq<Event>)
    requires ccb.kind.ReadWrite? && MayOwe(h, ccb.kind)
    ensures AllQuiet(h, es)
    ensures var s := Run(h, BOOT, es); Awaits(s, ccb) && s.check == ccb.check && Before(h, s).unstopped > 0
  {
    hide Step, Run, Execute, MayOwe, Owing, Unstopped;
    var luck := Owing(h, ccb.kind);
    es := WaitsForIdent(h, ccb);
    var s0 := Executes(h, Run(h, BOOT, es), ccb, luck);
    ExecuteOwes(h, s0, ccb);
    es := Extend(h, BOOT, es, Finishing(luck));
    es := Interrupts(h, es, ccb);
  }

  lemma SameBefore(h: Host, s: Ext, r: Ext)
    requires s.past == r.past && s.history == r.history
    ensures Before(h, s) == Before(h, r)
  {
  }

  lemma RunsUnstopped(h: Host, ccb: Ccb) returns (es: seq<Event>, past: Past)
    requires ccb.kind.ReadWrite? && MayOwe(h, ccb.kind) && (ccb.check ==> Stopless(h, ccb.kind))
    ensures AllQuiet(h, es) && Answers(Run(h, BOOT, es), ccb, past) && past.unstopped > 0
  {
    hide Step, Run, Execute, MayOwe, Stopless, Goes, Whole, Answers, Before, Begun, Halting;
    es := LeavesUnstopped(h, ccb);
    var s := Run(h, BOOT, es);
    past := Before(h, s);
    if Stopless(h, ccb.kind) {
      var s0 := Executes(h, s, ccb, Goes(h, ccb.kind));
      ExecuteBegins(h, s0, ccb);
      SameBefore(h, s, s0);
      es := Extend(h, BOOT, es, Finishing(Goes(h, ccb.kind)));
      es := RunsToEnd(h, es, ccb);
    } else {
      var s0 := Executes(h, s, ccb, Whole(ccb.kind));
      ExecuteHalts(h, s0, ccb);
      SameBefore(h, s, s0);
      es := Extend(h, BOOT, es, Finishing(Whole(ccb.kind)));
      es := HaltsToEnd(h, es, ccb);
    }
  }

  /** A request can complete although a command of an earlier execution was never stopped exactly when the
      host leaves stopping to the driver, some command for the request would need a stop, and, if it came with
      a check status, it can also be moved without one. */
  lemma CompletesUnstoppedExactly(h: Host, ccb: Ccb)
    requires ccb.kind.ReadWrite?
    ensures CompletesUnstopped(h, ccb) <==> MayOwe(h, ccb.kind) && (ccb.check ==> Stopless(h, ccb.kind))
  {
    hide Stopless, Run, Complete, Answers;
    if MayOwe(h, ccb.kind) && (ccb.check ==> Stopless(h, ccb.kind)) {
      var es, past := RunsUnstopped(h, ccb);
      UnstoppedAnswer(h, es, ccb, past);
    }
    if CompletesUnstopped(h, ccb) {
      var s: Ext, es: seq<Event>, p: Posted :|
        && Booted(s) && (forall e :: e in es ==> Quiet(h, e))
        && p in Run(h, s, es).posted && p.ccb == ccb && p.status == Completed && p.past.unstopped > 0;
      CompletedMeansDone(h, s, es);
      UnstoppedMayOwe(h, p);
    }
  }

  lemma UnstoppedAnswer(h: Host, es: seq<Event>, ccb: Ccb, past: Past)
    requires AllQuiet(h, es) && Answers(Run(h, BOOT, es), ccb, past) && past.unstopped > 0
    ensures CompletesUnstopped(h, ccb)
  {
    hide Run, Quiet;
    assert Booted(BOOT);
  }

  lemma UnstoppedMayOwe(h: Host, p: Posted)
    requires Complete(h, p) && p.status == Completed && p.ccb.kind.ReadWrite? && p.past.unstopped > 0
    ensures MayOwe(h, p.ccb.kind) && (p.ccb.check ==> Stopless(h, p.ccb.kind))
  {
    hide Total, Tiled, OffsetOf, Multis, Length, Stopless;
    if p.ccb.check {
      FaultedIsStopless(h, p);
    }
  }

  // ----- two such runs, behind a request whose stop the driver gives up on -----

  /** A DMA host that leaves stopping to the driver, and an adapter with a ready card. */
  const DMA_HOST := Host(false, false, true, false, false, 512, true, false)
  const READY := BOOT.(card := Card(true, false, true, false))

  function Read(id: nat, len: nat): Ccb {
    Ccb(id, ReadWrite(In, 8, Flat(len), false), false, Luck(true, true, len, true))
  }

  /** A read with its one command taken. */
  predicate Reading(s: Ext, id: nat, len: nat, rest: seq<Ccb>) {
    && s.nexus == Some(Read(id, len)) && s.queue == rest && s.phase == Data && s.status == InProgress
    && s.stop == StopFor(DMA_HOST, len) && s.offset == s.nbytes == len
    && s.card == Card(true, false, true, s.card.resetting) && !s.card.resetting
    && s.history == Fresh.(chunks := [Chunk(8, 0, len)], setup := len)
  }

  lemma ReadingStatus(s: Ext, id: nat, len: nat, rest: seq<Ccb>)
    requires Reading(s, id, len, rest)
    ensures s.status == InProgress && s.nexus == Some(Read(id, len)) && s.queue == rest && s.phase == Data
    ensures !s.history.faulted && s.card == Card(true, false, true, false)
  {
  }

  lemma ExecuteReads(s: Ext, id: nat, len: nat, rest: seq<Ccb>)
    requires len > 0 && s.nexus == Some(Read(id, len)) && s.queue == rest && s.status == InProgress
    requires s.card == Card(true, false, true, false)
    ensures var r := Execute(DMA_HOST, s, In, 8, Flat(len), false, Read(id, len).luck);
      Reading(r, id, len, rest) && r.past == Before(DMA_HOST, s) && r.check == s.check && r.pulses == s.pulses
      && r.posted == s.posted
  {
    hide StopFor, BlocksOn, Before;
    assert [] + [Chunk(8, 0, len)] == [Chunk(8, 0, len)];
  }

  /** The first waiting read becomes active. */
  lemma ReadStarts(s: Ext, id: nat, len: nat, rest: seq<Ccb>)
    requires len > 0 && s.nexus == None && s.queue == [Read(id, len)] + rest && s.phase == Idle
    requires s.card == Card(true, false, true, false)
    ensures var r := StartCcb(DMA_HOST, s);
      && Reading(r, id, len, rest) && r.pulses == s.pulses && r.posted == s.posted
      && !r.check && !r.past.faulted && r.past.unstopped == 0
  {
    hide Execute, Reading, StopFor, Read;
    ReadIs(id, len);
    var c := Read(id, len);
    assert s.queue[1..] == rest;
    var s0 := s.(nexus := Some(c), queue := rest, status := InProgress, check := false, history := Fresh,
                   past := Unstarted);
    ExecuteReads(s0, id, len, rest);
    ReadingStatus(Execute(DMA_HOST, s0, In, 8, Flat(len), false, c.luck), id, len, rest);
  }

  lemma ReadIs(id: nat, len: nat)
    ensures Read(id, len).kind == ReadWrite(In, 8, Flat(len), false) && !Read(id, len).check
    ensures Read(id, len).luck == Luck(true, true, len, true)
  {
  }

  lemma ReadFaults(s: Ext, id: nat, len: nat, rest: seq<Ccb>, luck: Luck)
    requires Reading(s, id, len, rest)
    ensures var r := Step(DMA_HOST, s, Faulting(luck));
      && r.nexus == s.nexus && r.queue == rest && r.status == InProgress && r.phase == Data && r.stop == Issued
      && r.card == s.card && r.pulses == s.pulses && r.posted == s.posted && Before(DMA_HOST, r).faulted
  {
    hide Unstopped, DmaRw;
  }

  /** The driver gives up on the first read's stop: it is answered, a reset is wanted, and the second begins. */
  lemma NextReads(s: Ext, len: nat)
    requires len > 0 && s.nexus.Some? && s.queue == [Read(1, len)] && s.status == InProgress
    requires s.phase == Data && s.stop == Issued && s.card == Card(true, false, true, false) && s.pulses == NoPulses
    ensures var r := Step(DMA_HOST, s, StopRefused());
      && GivesUp(s, StopRefused())
      && Reading(r, 1, len, []) && r.pulses == Pulses(0, 0, 1) && |r.posted| == |s.posted| + 1
      && !r.check && !r.past.faulted && r.past.unstopped == 0
  {
    hide StartCcb, Reading, Read;
    var r := ProcessInterrupt(DMA_HOST, s, StopRefused().i);
    ReadStarts(r, 1, len, []);
  }

  /** The reset asks for identification, and finishing it starts the active read over. */
  lemma ReadBeginsAgain(s: Ext, len: nat)
    requires len > 0 && s.nexus == Some(Read(1, len)) && s.queue == [] && s.status == InProgress
    requires s.card == Card(true, false, true, false) && s.pulses == Pulses(0, 0, 1)
    ensures var r := Step(DMA_HOST, Step(DMA_HOST, s, Reset(true)), Finishing(Read(1, len).luck));
      Reading(r, 1, len, []) && r.past == Before(DMA_HOST, s) && r.check == s.check && r.posted == s.posted
  {
    hide Execute, Reading, StopFor, Before;
    var s1 := Step(DMA_HOST, s, Reset(true));
    var s2 := Identified(s1, false);
    ExecuteReads(s2, 1, len, []);
    ReadingStatus(Execute(DMA_HOST, s2, In, 8, Flat(len), false, Read(1, len).luck), 1, len, []);
    SameBefore(DMA_HOST, s, s2);
  }

  lemma ReadCompletes(s: Ext, luck: Luck)
    requires Reading(s, 1, 512, [])
    ensures var r := Step(DMA_HOST, s, Done(luck));
      r.posted == s.posted + [Posted(Read(1, 512), Completed, NoStop, 512, 512, s.history, s.past)]
  {
  }

  lemma CardReady()
    ensures var s := Step(DMA_HOST, Step(DMA_HOST, BOOT, Detected(true)), Insertion(true));
      Step(DMA_HOST, s, Finishing(NO_LUCK)) == READY
  {
  }

  /** Two reads are queued; the first meets a data error, and the driver gives up on its stop. */
  lemma SecondReads(len: nat) returns (es: seq<Event>)
    requires len > 0
    ensures es == [Detected(true), Insertion(true), Finishing(NO_LUCK), Queued([Read(0, 512), Read(1, len)]),
                   Faulting(NO_LUCK), StopRefused()]
    ensures AllQuiet(DMA_HOST, es)
    ensures var r := Run(DMA_HOST, BOOT, es);
      && Reading(r, 1, len, []) && r.pulses == Pulses(0, 0, 1) && |r.posted| == 1
      && !r.check && !r.past.faulted && r.past.unstopped == 0
  {
    hide Run, Read, Reading, StartCcb;
    RunNone(DMA_HOST, BOOT);
    CardReady();
    es := Extend(DMA_HOST, BOOT, [], Detected(true));
    es := Extend(DMA_HOST, BOOT, es, Insertion(true));
    es := Extend(DMA_HOST, BOOT, es, Finishing(NO_LUCK));
    var both := [Read(0, 512), Read(1, len)];
    assert READY.queue + both == [Read(0, 512)] + [Read(1, len)];
    ReadStarts(READY.(queue := both), 0, 512, [Read(1, len)]);
    es := Extend(DMA_HOST, BOOT, es, Queued(both));
    ReadingStatus(Run(DMA_HOST, BOOT, es), 0, 512, [Read(1, len)]);
    ReadFaults(Run(DMA_HOST, BOOT, es), 0, 512, [Read(1, len)], NO_LUCK);
    es := Extend(DMA_HOST, BOOT, es, Faulting(NO_LUCK));
    NextReads(Run(DMA_HOST, BOOT, es), len);
    es := Extend(DMA_HOST, BOOT, es, StopRefused());
  }

  /** The reset wanted for the first read comes when the second, a single block, has met a data error of its
      own: the second is started over, and completed. */
  lemma FaultedThenCompleted() returns (es: seq<Event>)
    ensures var luck := Read(1, 512).luck;
      es == [Detected(true), Insertion(true), Finishing(NO_LUCK), Queued([Read(0, 512), Read(1, 512)]),
             Faulting(NO_LUCK), StopRefused(), Faulting(luck), Reset(true), Finishing(luck), Done(luck)]
    ensures Booted(BOOT) && AllQuiet(DMA_HOST, es)
    ensures var r := Run(DMA_HOST, BOOT, es);
      && |r.posted| == 2 && r.posted[1].ccb == Read(1, 512)
      && r.posted[1].status == Completed && r.posted[1].past.faulted && !r.posted[1].history.faulted
  {
    hide Run, Read, Step, Reading;
    var luck := Read(1, 512).luck;
    es := SecondReads(512);
    var s := Run(DMA_HOST, BOOT, es);
    ReadingStatus(s, 1, 512, []);
    ReadFaults(s, 1, 512, [], luck);
    es := Extend(DMA_HOST, BOOT, es, Faulting(luck));
    ReadBeginsAgain(Run(DMA_HOST, BOOT, es), 512);
    es := Extend(DMA_HOST, BOOT, es, Reset(true));
    es := Extend(DMA_HOST, BOOT, es, Finishing(luck));
    ReadCompletes(Run(DMA_HOST, BOOT, es), luck);
    ReadingStatus(Run(DMA_HOST, BOOT, es), 1, 512, []);
    es := Extend(DMA_HOST, BOOT, es, Done(luck));
  }

  /** The second read is of two blocks; the reset comes before its stop command is even issued: started over,
      it completes, and its first command is never stopped. */
  lemma UnstoppedThenCompleted() returns (es: seq<Event>)
    ensures var luck := Read(1, 1024).luck;
      es == [Detected(true), Insertion(true), Finishing(NO_LUCK), Queued([Read(0, 512), Read(1, 1024)]),
             Faulting(NO_LUCK), StopRefused(), Reset(true), Finishing(luck), Done(luck), Stopped(luck)]
    ensures Booted(BOOT) && AllQuiet(DMA_HOST, es)
    ensures var r := Run(DMA_HOST, BOOT, es);
      && |r.posted| == 2 && r.posted[1].ccb == Read(1, 1024)
      && r.posted[1].status == Completed && r.posted[1].past.unstopped == 1
  {
    hide Run, Read, Step, Reading;
    var luck := Read(1, 1024).luck;
    es := SecondReads(1024);
    var s := Run(DMA_HOST, BOOT, es);
    ReadingStatus(s, 1, 1024, []);
    OwesOne(s);
    ReadBeginsAgain(s, 1024);
    es := Extend(DMA_HOST, BOOT, es, Reset(true));
    es := Extend(DMA_HOST, BOOT, es, Finishing(luck));
    ReadStops(Run(DMA_HOST, BOOT, es), luck);
    es := Extend(DMA_HOST, BOOT, es, Done(luck));
    es := Extend(DMA_HOST, BOOT, es, Stopped(luck));
  }

  lemma OwesOne(s: Ext)
    requires Reading(s, 1, 1024, []) && s.past.unstopped == 0
    ensures Before(DMA_HOST, s).unstopped == 1
  {
    OneOwed(DMA_HOST, s.history, Chunk(8, 0, 1024));
  }

  lemma ReadStops(s: Ext, luck: Luck)
    requires Reading(s, 1, 1024, []) && !s.check
    ensures var r := Step(DMA_HOST, Step(DMA_HOST, s, Done(luck)), Stopped(luck));
      && |r.posted| == |s.posted| + 1 && r.posted[|s.posted|].ccb == Read(1, 1024)
      && r.posted[|s.posted|].status == Completed && r.posted[|s.posted|].past == s.past
  {
    var s1 := Step(DMA_HOST, s, Done(luck));
    assert s1.stop == Issued && s1.status == InProgress && s1.phase == Data;
    assert s1.nexus == s.nexus && s1.offset == s1.nbytes;
  }
}
