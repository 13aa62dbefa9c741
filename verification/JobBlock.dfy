/** The one block of maxima and counters: what the manager does for core numbers that the block does not
    have, and when the handle can be freed while a job is left. */
module JobBlock {
  import opened Words
  import opened JobModel
  import opened JobLists
  import opened JobRuns

  predicate CoresOk(js: seq<Job>, cores: nat) {
    forall i :: 0 <= i < |js| ==> js[i].core < cores
  }

  /** Every job is for a core of the block, so some counter counts it. */
  predicate Placed(w: World) {
    CoresOk(w.jobs.stored, w.jobs.cores) && CoresOk(w.jobs.queued, w.jobs.cores)
  }

  /** No event but an allocation for a core number past the block loses that. */
  lemma PlacedExactly(policy: Policy, w: World, e: Event)
    requires Placed(w)
    ensures Placed(Step(policy, w, e)) <==> (Allocates(w, e) ==> e.request.core < w.jobs.cores)
    ensures Step(policy, w, e).jobs.cores == w.jobs.cores
  {
    if Removal(w, e).Some? {
      RemovalPlaced(policy, w, Removal(w, e).value);
    } else if Allocates(w, e) {
      AllocatedPlaced(w, e.request);
    }
  }

  lemma AllocatedPlaced(w: World, request: Job)
    requires Placed(w) && Vacant(w.jobs, request.core)
    ensures Placed(Allocated(w, request)) <==> request.core < w.jobs.cores
  {
    var stored := Allocated(w, request).jobs.stored;
    assert stored[|w.jobs.stored|].core == request.core;
    assert forall i :: 0 <= i < |w.jobs.stored| ==> stored[i] == w.jobs.stored[i];
  }

  lemma RemovalPlaced(policy: Policy, w: World, k: nat)
    requires Placed(w) && k < |w.jobs.queued|
    ensures Placed(RemoveJob(policy, w, k)) && RemoveJob(policy, w, k).jobs.cores == w.jobs.cores
  {
  }

  /** The counters are all zero exactly when no job of a core of the block is live. */
  lemma FreedExactly(w: World)
    requires Inv(w)
    ensures Freed(w.jobs) <==> forall j :: j in w.jobs.stored + w.jobs.queued ==> j.core >= w.jobs.cores
  {
    hide CoreCount;
    var all := w.jobs.stored + w.jobs.queued;
    forall c | 0 <= c < w.jobs.cores ensures CoreCount(all, c) == Cnt(w.jobs, c) {
      CoreCountConcat(w.jobs.stored, w.jobs.queued, c);
    }
    if Freed(w.jobs) {
      forall j | j in all ensures j.core >= w.jobs.cores {
        CountedPositive(all, j);
      }
    }
    if forall j :: j in all ==> j.core >= w.jobs.cores {
      forall c | 0 <= c < w.jobs.cores ensures Cnt(w.jobs, c) == 0 {
        NoneOfCore(all, c);
      }
    }
  }

  lemma {:induction false} CountedPositive(js: seq<Job>, j: Job)
    requires j in js
    ensures CoreCount(js, j.core) > 0
  {
    if js[|js| - 1] != j {
      CountedPositive(js[..|js| - 1], j);
    }
  }

  lemma {:induction false} NoneOfCore(js: seq<Job>, core: int)
    requires forall j :: j in js ==> j.core != core
    ensures CoreCount(js, core) == 0
  {
    if js != [] {
      NoneOfCore(js[..|js| - 1], core);
    }
  }

  /** So, when every job is for a core of the block, the handle is freed exactly when both lists are empty. */
  lemma FreedOnlyWhenEmpty(w: World)
    requires Inv(w) && Placed(w)
    ensures Freed(w.jobs) <==> w.jobs.stored == [] && w.jobs.queued == []
  {
    hide Inv, Freed;
    FreedExactly(w);
    if w.jobs.stored != [] {
      assert w.jobs.stored[0] in w.jobs.stored + w.jobs.queued;
    }
    if w.jobs.queued != [] {
      assert w.jobs.queued[0] in w.jobs.stored + w.jobs.queued;
    }
  }

  // ----- what a request for a core number past the block does -----

  /** The jobs of the first `n` cores. */
  ghost function Counted(js: seq<Job>, n: nat): nat {
    if n == 0 then 0 else Counted(js, n - 1) + CoreCount(js, n - 1)
  }

  /** The sum of the first `n` counters. */
  ghost function Counters(s: Jobs, n: nat): nat
    requires n <= s.cores
  {
    if n == 0 then 0 else Counters(s, n - 1) + Cnt(s, n - 1)
  }

  lemma {:induction false} CountedAppend(js: seq<Job>, j: Job, n: nat)
    ensures Counted(js + [j], n) == Counted(js, n) + if j.core < n then 1 else 0
  {
    if n > 0 {
      CountedAppend(js, j, n - 1);
      CoreCountAppend(js, j, n - 1);
    }
  }

  lemma {:induction false} CountedNone(n: nat)
    ensures Counted([], n) == 0
  {
    if n > 0 {
      CountedNone(n - 1);
    }
  }

  /** Counting by core misses exactly the jobs of other cores. */
  lemma {:induction false} CountedExactly(js: seq<Job>, n: nat)
    ensures Counted(js, n) <= |js| && (Counted(js, n) == |js| <==> CoresOk(js, n))
  {
    if js == [] {
      CountedNone(n);
    } else {
      var before, last := js[..|js| - 1], js[|js| - 1];
      CountedExactly(before, n);
      CountedAppend(before, last, n);
      assert before + [last] == js;
    }
  }

  lemma {:induction false} CountersCount(w: World, n: nat)
    requires Quotas(w) && n <= w.jobs.cores
    ensures Counters(w.jobs, n) == Counted(w.jobs.stored + w.jobs.queued, n)
  {
    if n > 0 {
      CountersCount(w, n - 1);
      CoreCountConcat(w.jobs.stored, w.jobs.queued, n - 1);
      assert Cnt(w.jobs, n - 1) <= Max(w.jobs, n - 1);
    }
  }

  /** An allocation that takes effect leaves the counters adding up to the live jobs exactly when the block has
      the core. */
  lemma AllocationCountedExactly(w: World, request: Job)
    requires Inv(w) && Placed(w) && Vacant(w.jobs, request.core)
    ensures var s := Allocated(w, request).jobs;
      Counters(s, s.cores) == |s.stored| + |s.queued| <==> request.core < s.cores
  {
    hide Quotas, Counted, Counters, InOrder, Statuses, LiveJobs, CoresRun;
    var w' := Allocated(w, request);
    AllocateQuotas(w, request);
    AllocatedPlaced(w, request);
    CountersCount(w', w'.jobs.cores);
    CountedExactly(w'.jobs.stored + w'.jobs.queued, w'.jobs.cores);
    assert w'.jobs.stored + w'.jobs.queued == w'.jobs.stored + w.jobs.queued;
    CoresOkConcat(w'.jobs.stored, w'.jobs.queued, w'.jobs.cores);
  }

  lemma CoresOkConcat(a: seq<Job>, b: seq<Job>, cores: nat)
    ensures CoresOk(a + b, cores) <==> CoresOk(a, cores) && CoresOk(b, cores)
  {
    assert forall i :: 0 <= i < |a| ==> (a + b)[i] == a[i];
    assert forall i :: 0 <= i < |b| ==> (a + b)[|a| + i] == b[i];
  }

  predicate InRange(es: seq<Event>, cores: nat) {
    forall e :: e in es && e.Allocate? ==> e.request.core < cores
  }

  /** However it goes on, with requests for cores of the block, the handle is not freed while a job is left. */
  ghost predicate StaysSafe(w: World) {
    forall es: seq<Event> :: PermittedRun(AsCoded, w, es) && InRange(es, w.jobs.cores) ==>
      var w' := Run(AsCoded, w, es); Freed(w'.jobs) ==> w'.jobs.stored == [] && w'.jobs.queued == []
  }

  lemma {:induction false} RunPlaced(w: World, es: seq<Event>)
    requires Inv(w) && Placed(w) && PermittedRun(AsCoded, w, es) && (InRange(es, w.jobs.cores) || w.jobs.cores == 0)
    ensures Inv(Run(AsCoded, w, es)) && Placed(Run(AsCoded, w, es))
    decreases |es|
  {
    hide Inv, Step, Permitted, Placed;
    if es != [] {
      StepKeeps(AsCoded, w, es[0]);
      PlacedExactly(AsCoded, w, es[0]);
      RunPlaced(Step(AsCoded, w, es[0]), es[1..]);
    }
  }

  ghost predicate Stray(w: World, k: nat) {
    k < |w.jobs.stored| && w.jobs.stored[k].core >= w.jobs.cores
  }

  /** The clients cancel and release every other job. */
  lemma {:induction false} ReleaseOthers(w: World, k: nat) returns (es: seq<Event>)
    requires Inv(w) && Stray(w, k)
    ensures PermittedRun(AsCoded, w, es) && InRange(es, w.jobs.cores)
    ensures var w' := Run(AsCoded, w, es);
      Inv(w') && w'.jobs.cores == w.jobs.cores && |w'.jobs.stored| == 1 && w'.jobs.queued == [] && Stray(w', 0)
    decreases 2 * |w.jobs.queued| + |w.jobs.stored|
  {
    hide Inv, Run, PermittedRun;
    if w.jobs.queued != [] {
      var e := CancelHead(w);
      var w1 := Step(AsCoded, w, e);
      es := ReleaseOthers(w1, k);
      es := RunFirst(w, e, es);
    } else if |w.jobs.stored| > 1 {
      var other := if k == 0 then 1 else 0;
      var e := ReleaseOne(w, other);
      var w1 := Step(AsCoded, w, e);
      es := ReleaseOthers(w1, if k == 0 then 0 else k - 1);
      es := RunFirst(w, e, es);
    } else {
      es := [];
      NoEvents(w);
    }
  }

  lemma RunFirst(w: World, e: Event, rest: seq<Event>) returns (es: seq<Event>)
    requires Permitted(AsCoded, w, e) && !e.Allocate? && PermittedRun(AsCoded, Step(AsCoded, w, e), rest)
    requires InRange(rest, w.jobs.cores)
    ensures PermittedRun(AsCoded, w, es) && Run(AsCoded, w, es) == Run(AsCoded, Step(AsCoded, w, e), rest)
    ensures InRange(es, w.jobs.cores)
  {
    hide Step, Permitted;
    es := [e] + rest;
    assert es[1..] == rest;
  }

  lemma CancelHead(w: World) returns (e: Event)
    requires Inv(w) && w.jobs.queued != []
    ensures !e.Allocate? && Permitted(AsCoded, w, e)
    ensures var w' := Step(AsCoded, w, e);
      && Inv(w') && w'.jobs.queued == w.jobs.queued[1..] && |w'.jobs.stored| == |w.jobs.stored| + 1
      && w.jobs.stored <= w'.jobs.stored && w'.jobs.cores == w.jobs.cores
  {
    hide LiveJobs, Quotas, FirstInFirstOut, CoresRun;
    e := Cancel(w.jobs.queued[0].id);
    assert Find(w.jobs.queued, w.jobs.queued[0].id) == Some(0);
    StepKeeps(AsCoded, w, e);
  }

  lemma ReleaseOne(w: World, k: nat) returns (e: Event)
    requires Inv(w) && w.jobs.queued == [] && k < |w.jobs.stored|
    ensures !e.Allocate? && Permitted(AsCoded, w, e)
    ensures var w' := Step(AsCoded, w, e);
      Inv(w') && w'.jobs.queued == [] && w'.jobs.stored == Without(w.jobs.stored, k) && w'.jobs.cores == w.jobs.cores
  {
    hide Quotas, FirstInFirstOut, CoresRun;
    e := Free(w.jobs.stored[k].id);
    FoundAt(w.jobs.stored, k);
    StepKeeps(AsCoded, w, e);
  }

  /** An allocation that takes effect keeps the handle from being freed with a job left, whatever follows,
      exactly when the block has the core. */
  lemma AllocationSafeExactly(w: World, request: Job)
    requires Inv(w) && Placed(w) && Vacant(w.jobs, request.core) && Permitted(AsCoded, w, Allocate(request, true))
    ensures StaysSafe(Allocated(w, request)) <==> request.core < w.jobs.cores
  {
    hide Inv, Run, PermittedRun, Freed, Placed;
    var w' := Allocated(w, request);
    AllocateKeeps(w, request);
    AllocatedPlaced(w, request);
    if request.core < w.jobs.cores {
      forall es: seq<Event> | PermittedRun(AsCoded, w', es) && InRange(es, w'.jobs.cores)
        ensures var r := Run(AsCoded, w', es); Freed(r.jobs) ==> r.jobs.stored == [] && r.jobs.queued == []
      {
        RunPlaced(w', es);
        FreedOnlyWhenEmpty(Run(AsCoded, w', es));
      }
    } else {
      assert Stray(w', |w.jobs.stored|);
      var es := ReleaseOthers(w', |w.jobs.stored|);
      FreedExactly(Run(AsCoded, w', es));
    }
  }

  // ----- the request's own guard -----

  /** The create requests let through by a test that refuses core numbers above `guard`. */
  predicate Guarded(es: seq<Event>, guard: uint8) {
    forall e :: e in es && e.Allocate? ==> e.request.core <= guard
  }

  /** Whatever is in memory, no permitted run with that guard frees the handle while a job is left. */
  ghost predicate FreesOnlyEmpty(cores: nat, guard: uint8) {
    forall past: seq<uint32>, es: seq<Event> ::
      Past(past) && PermittedRun(AsCoded, Initial(cores, past), es) && Guarded(es, guard) ==>
        var w := Run(AsCoded, Initial(cores, past), es);
        Freed(w.jobs) ==> w.jobs.stored == [] && w.jobs.queued == []
  }

  /** One job of core 0 and one for the first core number past the block, whose maximum is core 0's counter
      and whose counter lies behind the block: when the first is released, no counter is left. */
  lemma FreedWithJob(cores: nat) returns (es: seq<Event>)
    requires 0 < cores < 0x100
    ensures es == [SetCoreMax(0, 1), Allocate(Job(0, Idle, Success, 0), true),
                   Allocate(Job(0, Idle, Success, cores), true), Free(0)]
    ensures PermittedRun(AsCoded, Initial(cores, Zeros(0x100)), es)
    ensures var w := Run(AsCoded, Initial(cores, Zeros(0x100)), es);
      Freed(w.jobs) && w.jobs.stored == [Job(1, Idle, Success, cores)]
  {
    hide Run, PermittedRun, Freed;
    var w0 := Initial(cores, Zeros(0x100));
    var own, stray := Job(0, Idle, Success, 0), Job(0, Idle, Success, cores);
    NoEvents(w0);
    es := [] + [SetCoreMax(0, 1)];
    Extend(AsCoded, w0, [], SetCoreMax(0, 1));
    var w1 := Step(AsCoded, w0, SetCoreMax(0, 1));
    OwnJob(w1, own);
    Extend(AsCoded, w0, es, Allocate(own, true));
    es := es + [Allocate(own, true)];
    var w2 := Step(AsCoded, w1, Allocate(own, true));
    StrayJob(w2, own, stray);
    Extend(AsCoded, w0, es, Allocate(stray, true));
    es := es + [Allocate(stray, true)];
    var w3 := Step(AsCoded, w2, Allocate(stray, true));
    LastCounted(w3, own, stray.(id := 1));
    Extend(AsCoded, w0, es, Free(0));
    es := es + [Free(0)];
  }

  /** All words are zero but core 0's maximum, and these two. */
  predicate Only(s: Jobs, cnt0: uint32, past: uint32) {
    && s.cores > 0 && s.cores < 0x100
    && forall i :: 0 <= i < |s.words| ==>
         s.words[i] == if i == 0 then 1 else if i == s.cores then cnt0 else if i == 2 * s.cores then past else 0
  }

  lemma OwnJob(w: World, own: Job)
    requires Only(w.jobs, 0, 0) && own == Job(0, Idle, Success, 0)
    requires w.jobs.stored == [] && w.jobs.queued == [] && w.jobs.nextId == w.allocs == 0
    ensures Permitted(AsCoded, w, Allocate(own, true))
    ensures var w' := Step(AsCoded, w, Allocate(own, true));
      && Only(w'.jobs, 1, 0) && w'.jobs.cores == w.jobs.cores && w'.jobs.stored == [own] && w'.jobs.queued == []
      && w'.jobs.nextId == w'.allocs == 1
  {
  }

  lemma StrayJob(w: World, own: Job, stray: Job)
    requires Only(w.jobs, 1, 0) && w.jobs.stored == [own] && w.jobs.queued == [] && w.jobs.nextId == w.allocs == 1
    requires stray == Job(0, Idle, Success, w.jobs.cores)
    ensures Permitted(AsCoded, w, Allocate(stray, true))
    ensures var w' := Step(AsCoded, w, Allocate(stray, true));
      && Only(w'.jobs, 1, 1) && w'.jobs.cores == w.jobs.cores && w'.jobs.queued == []
      && w'.jobs.stored == [own, stray.(id := 1)]
  {
  }

  lemma LastCounted(w: World, own: Job, stray: Job)
    requires Only(w.jobs, 1, 1) && w.jobs.stored == [own, stray] && w.jobs.queued == []
    requires own == Job(0, Idle, Success, 0)
    ensures Permitted(AsCoded, w, Free(0))
    ensures var w' := Step(AsCoded, w, Free(0)); Freed(w'.jobs) && w'.jobs.stored == [stray]
  {
    var w' := Step(AsCoded, w, Free(0));
    forall c | 0 <= c < w'.jobs.cores ensures Cnt(w'.jobs, c) == 0 {
    }
  }

  /** A guard on the core number keeps the handle from being freed with a job left exactly when the block has
      every core it lets through; or has none, and so takes no job. */
  lemma GuardSufficesExactly(cores: nat, guard: uint8)
    ensures FreesOnlyEmpty(cores, guard) <==> cores == 0 || guard < cores
  {
    hide Run, PermittedRun, Inv, Freed;
    if cores == 0 || guard < cores {
      forall past: seq<uint32>, es: seq<Event>
        | Past(past) && PermittedRun(AsCoded, Initial(cores, past), es) && Guarded(es, guard)
        ensures var w := Run(AsCoded, Initial(cores, past), es);
          Freed(w.jobs) ==> w.jobs.stored == [] && w.jobs.queued == []
      {
        InitialInv(cores, past);
        RunPlaced(Initial(cores, past), es);
        FreedOnlyWhenEmpty(Run(AsCoded, Initial(cores, past), es));
      }
    } else {
      var es := FreedWithJob(cores);
      assert Past(Zeros(0x100)) && Guarded(es, guard);
    }
  }
}
