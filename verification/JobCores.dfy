/** The cores that run the jobs: a core's interrupt completes the job it was last started on, so a job is
    completed exactly as long as its core is not started on another. */
module JobCores {
  import opened Words
  import opened JobModel
  import opened JobLists
  import opened JobRuns

  /** The job's core runs, and was last started on the job. */
  predicate Tracked(w: World, j: Job) {
    Reg(w.regs, j.core) == Core(j.id, true)
  }

  ghost predicate AllTracked(w: World) {
    forall i :: 0 <= i < |w.jobs.queued| && w.jobs.queued[i].status == Running ==> Tracked(w, w.jobs.queued[i])
  }

  predicate Busy(w: World, core: int) {
    exists i :: 0 <= i < |w.jobs.queued| && w.jobs.queued[i].status == Running && w.jobs.queued[i].core == core
  }

  /** Then a core has at most one running job. */
  lemma OneRunning(w: World, i: nat, j: nat)
    requires Inv(w) && AllTracked(w) && i < |w.jobs.queued| && j < |w.jobs.queued|
    requires w.jobs.queued[i].status == w.jobs.queued[j].status == Running
    requires w.jobs.queued[i].core == w.jobs.queued[j].core
    ensures i == j
  {
    assert Tracked(w, w.jobs.queued[i]) && Tracked(w, w.jobs.queued[j]);
  }

  // ----- one event -----

  /** The event starts a core that has a running job. */
  predicate StartsBusy(w: World, e: Event) {
    e.StartCore? && FirstEnqueued(w.jobs.queued, e.core).Some? && Busy(w, e.core)
  }

  lemma StartTracksExactly(w: World, core: uint8)
    requires Inv(w) && AllTracked(w) && FirstEnqueued(w.jobs.queued, core).Some?
    ensures AllTracked(Started(w, core)) <==> !Busy(w, core)
  {
    hide FirstEnqueued, FirstInFirstOut, Quotas;
    var k := FirstWaits(w.jobs.queued, core);
    var w' := Started(w, core);
    forall i | 0 <= i < |w.jobs.queued| && i != k && w.jobs.queued[i].status == Running
      ensures Tracked(w', w'.jobs.queued[i]) <==> w.jobs.queued[i].core != core
    {
      assert Tracked(w, w.jobs.queued[i]);
    }
    if Busy(w, core) {
      var i :| 0 <= i < |w.jobs.queued| && w.jobs.queued[i].status == Running && w.jobs.queued[i].core == core;
      assert !Tracked(w', w'.jobs.queued[i]);
    }
  }

  lemma RemovalTracks(w: World, k: nat)
    requires Inv(w) && AllTracked(w) && k < |w.jobs.queued|
    ensures AllTracked(RemoveJob(Repaired, w, k))
  {
    hide Inv;
    var w' := RemoveJob(Repaired, w, k);
    forall i | 0 <= i < |w'.jobs.queued| && w'.jobs.queued[i].status == Running
      ensures Tracked(w', w'.jobs.queued[i])
    {
      var n := if i < k then i else i + 1;
      assert w'.jobs.queued[i] == w.jobs.queued[n] && Tracked(w, w.jobs.queued[n]);
      if w.jobs.queued[k].status == Running && w.jobs.queued[k].core == w.jobs.queued[n].core {
        OneRunning(w, k, n);
      }
    }
  }

  lemma PermittedRemoval(policy: Policy, w: World, e: Event)
    requires Inv(w) && Permitted(policy, w, e) && Removal(w, e).Some?
    ensures Step(policy, w, e) == RemoveJob(Repaired, w, Removal(w, e).value)
  {
    hide Inv;
    RemovalStep(policy, w, e);
  }

  /** While every running job is tracked, a permitted event loses that exactly when it starts a core that has
      a running job: the test for that in the start looks at the waiting job. */
  lemma StepTracksExactly(policy: Policy, w: World, e: Event)
    requires Inv(w) && AllTracked(w) && Permitted(policy, w, e)
    ensures AllTracked(Step(policy, w, e)) <==> !StartsBusy(w, e)
  {
    hide Inv, Started, FirstEnqueued;
    if Removal(w, e).Some? {
      PermittedRemoval(policy, w, e);
      RemovalTracks(w, Removal(w, e).value);
    } else if e.StartCore? && FirstEnqueued(w.jobs.queued, e.core).Some? {
      StartTracksExactly(w, e.core);
    } else if e.Submit? {
      SubmitTracks(policy, w, e.id);
    }
  }

  lemma SubmitTracks(policy: Policy, w: World, id: uint32)
    requires AllTracked(w)
    ensures AllTracked(Step(policy, w, Submit(id)))
  {
    var w' := Step(policy, w, Submit(id));
    assert forall i :: 0 <= i < |w.jobs.queued| ==> w'.jobs.queued[i] == w.jobs.queued[i];
    assert w'.regs == w.regs;
  }

  // ----- runs -----

  predicate Polite(policy: Policy, w: World, es: seq<Event>)
    decreases |es|
  {
    es == [] || (!StartsBusy(w, es[0]) && Polite(policy, Step(policy, w, es[0]), es[1..]))
  }

  /** Over every run that starts no core with a running job, a core has at most one, which its interrupt
      completes. */
  lemma {:induction false} PoliteTracks(policy: Policy, w: World, es: seq<Event>)
    requires Inv(w) && AllTracked(w) && PermittedRun(policy, w, es) && Polite(policy, w, es)
    ensures Inv(Run(policy, w, es)) && AllTracked(Run(policy, w, es))
    decreases |es|
  {
    hide Inv, AllTracked, Step, Permitted;
    if es != [] {
      StepKeeps(policy, w, es[0]);
      StepTracksExactly(policy, w, es[0]);
      PoliteTracks(policy, Step(policy, w, es[0]), es[1..]);
    }
  }

  /** No interrupt will complete the job: its core was started on another or reset, or is not one whose
      interrupts the driver looks at. */
  predicate Stuck(w: World, j: Job) {
    !Tracked(w, j) || j.core >= w.jobs.cores
  }

  ghost predicate RunsStuck(w: World, j: Job) {
    j in w.jobs.queued && j.status == Running && Stuck(w, j)
  }

  lemma StepStuck(policy: Policy, w: World, e: Event, j: Job)
    requires Inv(w) && Permitted(policy, w, e) && RunsStuck(w, j) && e != Cancel(j.id)
    ensures RunsStuck(Step(policy, w, e), j)
  {
    hide Inv, FirstEnqueued;
    var i :| 0 <= i < |w.jobs.queued| && w.jobs.queued[i] == j;
    if Removal(w, e).Some? {
      PermittedRemoval(policy, w, e);
      OtherRemoved(w, e, j, i);
      var k := Removal(w, e).value;
      assert RemoveJob(Repaired, w, k).jobs.queued[if i < k then i else i - 1] == j;
    } else if e.StartCore? && FirstEnqueued(w.jobs.queued, e.core).Some? {
      var k := FirstWaits(w.jobs.queued, e.core);
      OtherStarted(w, e.core, i, k);
      assert Started(w, e.core).jobs.queued[i] == j;
    } else if e.Submit? {
      assert Step(policy, w, e).jobs.queued[i] == j;
    }
  }

  /** The started job waited, so it is another. */
  lemma OtherStarted(w: World, core: uint8, i: nat, k: nat)
    requires Inv(w) && i < |w.jobs.queued| && k < |w.jobs.queued|
    requires w.jobs.queued[i].status == Running && Waiting(w.jobs.queued[k], core)
    ensures i != k && w.jobs.queued[i].id != w.jobs.queued[k].id
  {
  }

  /** A removed job is another, if it is not the one that was cancelled. */
  lemma OtherRemoved(w: World, e: Event, j: Job, i: nat)
    requires Inv(w) && RunsStuck(w, j) && i < |w.jobs.queued| && w.jobs.queued[i] == j
    requires e != Cancel(j.id) && Removal(w, e).Some?
    ensures Removal(w, e).value != i
  {
    if e.Stop? {
      StopCompletesStarted(Repaired, w, e.core);
    }
  }

  /** Once a core is started on another job, the one it ran stays running over every permitted run, unless it
      is cancelled: it is never completed, and its waiting client never answered. */
  lemma {:induction false} StuckStays(policy: Policy, w: World, es: seq<Event>, j: Job)
    requires Inv(w) && PermittedRun(policy, w, es) && RunsStuck(w, j) && Cancel(j.id) !in es
    ensures Inv(Run(policy, w, es)) && RunsStuck(Run(policy, w, es), j)
    decreases |es|
  {
    hide Inv, RunsStuck, Step, Permitted;
    if es != [] {
      StepKeeps(policy, w, es[0]);
      StepStuck(policy, w, es[0], j);
      StuckStays(policy, Step(policy, w, es[0]), es[1..], j);
    }
  }

  /** Without being cancelled the job gets back into storage. */
  ghost predicate CanComplete(policy: Policy, w: World, j: Job) {
    exists es: seq<Event> ::
      PermittedRun(policy, w, es) && Cancel(j.id) !in es && j.id in Ids(Run(policy, w, es).jobs.stored)
  }

  /** A running job, at the queue's head or with removals repaired, can complete exactly when its core runs,
      was last started on it, and is one of the block. */
  lemma CompletesExactly(policy: Policy, w: World, k: nat)
    requires Inv(w) && k < |w.jobs.queued| && w.jobs.queued[k].status == Running && (k == 0 || policy == Repaired)
    ensures CanComplete(policy, w, w.jobs.queued[k]) <==> !Stuck(w, w.jobs.queued[k])
  {
    hide Inv;
    var j := w.jobs.queued[k];
    if !Stuck(w, j) {
      StopStores(policy, w, k);
      var es := [Stop(j.core)];
      OneEvent(policy, w, Stop(j.core));
      assert Cancel(j.id) !in es;
    }
    if CanComplete(policy, w, j) {
      var es: seq<Event> :|
        PermittedRun(policy, w, es) && Cancel(j.id) !in es && j.id in Ids(Run(policy, w, es).jobs.stored);
      if Stuck(w, j) {
        StuckStays(policy, w, es, j);
        QueuedNotStored(Run(policy, w, es), j);
      }
    }
  }

  lemma OneEvent(policy: Policy, w: World, e: Event)
    requires Permitted(policy, w, e)
    ensures PermittedRun(policy, w, [e]) && Run(policy, w, [e]) == Step(policy, w, e)
  {
    assert [e][1..] == [];
  }

  lemma QueuedNotStored(w: World, j: Job)
    requires Inv(w) && j in w.jobs.queued
    ensures j.id !in Ids(w.jobs.stored)
  {
    assert j.id in Ids(w.jobs.queued);
  }

  lemma StopStores(policy: Policy, w: World, k: nat)
    requires Inv(w) && k < |w.jobs.queued| && w.jobs.queued[k].status == Running && (k == 0 || policy == Repaired)
    requires !Stuck(w, w.jobs.queued[k])
    ensures var j := w.jobs.queued[k];
      Permitted(policy, w, Stop(j.core)) && j.id in Ids(Step(policy, w, Stop(j.core)).jobs.stored)
  {
    var j := w.jobs.queued[k];
    StopCompletesStarted(policy, w, j.core);
    FoundAt(w.jobs.queued, k);
    var stored := Step(policy, w, Stop(j.core)).jobs.stored;
    assert stored[|w.jobs.stored|].id == j.id;
  }

  // ----- such a run -----

  /** A second job is created, enqueued and started while the first runs: the first is stuck. */
  lemma OverwrittenJob() returns (es: seq<Event>)
    ensures PermittedRun(AsCoded, START, es)
    ensures var w := Run(AsCoded, START, es);
      && Inv(w) && w.jobs.queued == [Job(0, Running, Success, 0), Job(1, Running, Success, 0)]
      && RunsStuck(w, w.jobs.queued[0]) && !CanComplete(AsCoded, w, w.jobs.queued[0])
  {
    hide Run, PermittedRun, Inv;
    es := RunningAlone();
    es := QueueOne(es, Running);
    SecondStarts(Run(AsCoded, START, es));
    Extend(AsCoded, START, es, StartCore(0));
    es := es + [StartCore(0)];
    InitialInv(1, Zeros(0x100));
    RunKeeps(AsCoded, START, es);
    CompletesExactly(AsCoded, Run(AsCoded, START, es), 0);
  }

  lemma SecondStarts(w: World)
    requires Queueing(w, Running) && w.allocs == 2
    ensures Permitted(AsCoded, w, StartCore(0))
    ensures var w' := Step(AsCoded, w, StartCore(0));
      && w'.jobs.queued == [Job(0, Running, Success, 0), Job(1, Running, Success, 0)]
      && Reg(w'.regs, 0) == Core(1, true)
  {
    assert FirstEnqueued(w.jobs.queued, 0) == Some(1);
  }
}
