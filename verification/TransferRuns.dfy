/** Runs of the transfer engine: requests are answered once and in order, and what a completed
    transfer has done. */
module TransferRuns {
  import opened TransferModel
  import opened Words

  // ----- every request once, in order -----

  function Answered(posted: seq<Posted>): seq<Ccb> {
    if posted == [] then [] else Answered(posted[..|posted| - 1]) + [posted[|posted| - 1].ccb]
  }

  /** The requests posted, active and waiting. */
  function Requests(s: Ext): seq<Ccb> {
    Answered(s.posted) + (if s.nexus.Some? then [s.nexus.value] else []) + s.queue
  }

  /** Between events an active request is in progress, and data is transferred only for one. */
  predicate Waiting(s: Ext) {
    && (s.nexus.Some? ==> s.status == InProgress)
    && (s.phase == Data ==> s.nexus.Some?)
  }

  /** A request waits only behind an active one. */
  predicate Prompt(s: Ext) {
    s.nexus == None ==> s.queue == []
  }

  /** No request has come, and no reset is wanted. */
  predicate Booted(s: Ext) {
    && s.nexus == None && s.phase != Data && s.queue == [] && s.posted == [] && s.history.stops == 0
    && s.pulses.resets == 0 && !s.card.resetting
  }

  lemma PostKeeps(s: Ext)
    ensures Requests(Post(s)) == Requests(s)
  {
    if s.nexus.Some? {
      var p := Posted(s.nexus.value, s.status, s.stop, s.offset, s.nbytes, s.history, s.past);
      assert (s.posted + [p])[..|s.posted|] == s.posted;
    }
  }

  lemma {:induction false} StartKeeps(h: Host, s: Ext)
    requires Waiting(s)
    ensures var r := StartCcb(h, s);
      Requests(r) == Requests(s) && Waiting(r) && Prompt(r)
    decreases |s.queue|
  {
    hide Start, Answered;
    if s.nexus == None && s.queue != [] {
      var s1 := Start(h, s.(queue := s.queue[1..]), s.queue[0]);
      StartPhase(h, s.(queue := s.queue[1..]), s.queue[0]);
      assert Requests(s1) == Requests(s);
      if s1.status != InProgress {
        PostKeeps(s1);
        StartKeeps(h, Post(s1));
      }
    }
  }

  /** The data phase begins only with a request in progress. */
  lemma StartPhase(h: Host, s: Ext, ccb: Ccb)
    requires s.phase != Data
    ensures Start(h, s, ccb).phase == Data ==> Start(h, s, ccb).status == InProgress
  {
    hide SendRw;
    SendRwPhase();
  }

  lemma SendRwPhase()
    ensures forall h, s: Ext, n, sent :: var r := SendRw(h, s, n, sent); r.phase == s.phase && r.nexus == s.nexus
  {
  }

  lemma FinishKeeps(s: Ext)
    requires s.nexus == None ==> s.phase != Data
    ensures Requests(Finish(s)) == Requests(s) && Waiting(Finish(s))
  {
    PostKeeps(s);
  }

  lemma InterruptKeeps(h: Host, s: Ext, i: Intr)
    requires Waiting(s)
    ensures Requests(ProcessInterrupt(h, s, i)) == Requests(s) && Waiting(ProcessInterrupt(h, s, i))
  {
    hide DataIrq, IoCmds, Answered;
    FinishKeeps(Dispatch(h, s, i));
  }

  /** Every event keeps the requests in order, adding the queued ones behind. */
  lemma StepKeeps(h: Host, s: Ext, e: Event)
    requires Waiting(s) && Prompt(s)
    ensures Waiting(Step(h, s, e)) && Prompt(Step(h, s, e))
    ensures Requests(Step(h, s, e)) == Requests(s) + if e.Queued? then e.ccbs else []
  {
    hide ProcessInterrupt, StartCcb, Finish, Answered;
    match e
    case Queued(ccbs) =>
      StartKeeps(h, s.(queue := s.queue + ccbs));
      assert Requests(s.(queue := s.queue + ccbs)) == Requests(s) + ccbs;
    case Interrupted(i) =>
      InterruptKeeps(h, s, i);
      StartKeeps(h, ProcessInterrupt(h, s, i));
    case Timed(present) =>
      TimerKeeps(h, s, present);
      StartKeeps(h, TimerPulse(h, s, present));
    case _ =>
  }

  lemma TimerKeeps(h: Host, s: Ext, present: bool)
    requires Waiting(s)
    ensures Requests(TimerPulse(h, s, present)) == Requests(s) && Waiting(TimerPulse(h, s, present))
  {
    hide Finish;
    FinishKeeps(Fail(if h.cardIntr then s else MediaCheck(s, present)));
  }

  function Asked(es: seq<Event>): seq<Ccb> {
    if es == [] then []
    else Asked(es[..|es| - 1]) + if es[|es| - 1].Queued? then es[|es| - 1].ccbs else []
  }

  /** Over every run of pulses and control-thread actions, the requests posted, then the active one,
      then those waiting, are exactly the requests queued, each once and in order; no request is left
      active once it has an outcome, and none waits while none is active. */
  lemma {:induction false} PostedOnceInOrder(h: Host, s: Ext, es: seq<Event>)
    requires Booted(s)
    ensures Waiting(Run(h, s, es)) && Prompt(Run(h, s, es)) && Requests(Run(h, s, es)) == Asked(es)
  {
    hide Step;
    if es != [] {
      PostedOnceInOrder(h, s, es[..|es| - 1]);
      StepKeeps(h, Run(h, s, es[..|es| - 1]), es[|es| - 1]);
    }
  }
}
