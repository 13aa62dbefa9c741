/** Runs of the job manager: any interleaving of the request thread's operations with the interrupt
    thread's completions, each one critical section. */
module JobRuns {
  import opened Words
  import opened JobModel
  import opened JobLists

  datatype Ticket = Ticket(id: uint32, core: uint8)

  /** A core as the driver sees it: the job it was last started on, and whether it runs. */
  datatype Core = Core(jobId: uint32, running: bool)

  type Regs = map<int, Core>

  /** The manager and the cores with the history of their run. */
  datatype World = World(
    jobs: Jobs, regs: Regs, allocs: nat, released: set<uint32>,
    enqueued: seq<Ticket>, started: seq<Ticket>, cancelled: seq<Ticket>)

  /** `Stop` is the interrupt of a core that has stopped; `Elsewhere` is somebody else's write past the
      manager's block. */
  datatype Event =
    | Allocate(request: Job, memory: bool)
    | Submit(id: uint32)
    | StartCore(core: uint8)
    | Stop(core: uint8)
    | Cancel(id: uint32)
    | Free(id: uint32)
    | SetCoreMax(core: uint8, val: uint32)
    | Elsewhere(at: nat, val: uint32)

  predicate Past(past: seq<uint32>) {
    |past| >= 0x100
  }

  /** `past` is what memory holds behind the block. */
  function Initial(cores: nat, past: seq<uint32>): World
    requires Past(past)
  {
    World(Jobs([], [], cores, Zeros(2 * cores) + past, 0), map[], 0, {}, [], [], [])
  }

  function Reg(regs: Regs, core: int): Core {
    if core in regs then regs[core] else Core(0, false)
  }

  /** A core that is reset keeps its job's id. */
  function Silence(regs: Regs, core: int): Regs {
    regs[core := Core(Reg(regs, core).jobId, false)]
  }

  /** The queued job an event removes, if it removes one. Interrupts come from existing cores that run. */
  function Removal(w: World, e: Event): Option<nat> {
    match e
    case Stop(core) =>
      var k := Find(w.jobs.queued, Reg(w.regs, core).jobId);
      if core < w.jobs.cores && Reg(w.regs, core).running && k.Some? && w.jobs.queued[k.value].status != Idle then k
      else None
    case Cancel(id) =>
      var k := Find(w.jobs.queued, id);
      if k.Some? && w.jobs.queued[k.value].status != Idle then k else None
    case _ => None
  }

  /** A running job's core is reset. */
  function RemoveJob(policy: Policy, w: World, k: nat): World
    requires k < |w.jobs.queued|
  {
    var job := w.jobs.queued[k];
    w.(jobs := Remove(policy, w.jobs, k),
       regs := if job.status == Running then Silence(w.regs, job.core) else w.regs,
       cancelled := if job.status == Enqueued then w.cancelled + [Ticket(job.id, job.core)] else w.cancelled)
  }

  /** A request for any core number is looked up in the tables. */
  predicate Allocates(w: World, e: Event) {
    e.Allocate? && Vacant(w.jobs, e.request.core) && e.memory
  }

  function Step(policy: Policy, w: World, e: Event): World {
    if Removal(w, e).Some? then
      var w1 := RemoveJob(policy, w, Removal(w, e).value);
      if e.Stop? then w1.(regs := Silence(w1.regs, e.core)) else w1
    else
    match e
    case Allocate(request, memory) => if Allocates(w, e) then Allocated(w, request) else w
    case Submit(id) =>
      var k := Find(w.jobs.stored, id);
      if k.Some? && w.jobs.stored[k.value].status == Idle then Submitted(w, k.value) else w
    case StartCore(core) => if FirstEnqueued(w.jobs.queued, core).Some? then Started(w, core) else w
    case Free(id) =>
      var k := Find(w.jobs.stored, id);
      if Find(w.jobs.queued, id).None? && k.Some? && w.jobs.stored[k.value].status == Idle
      then w.(jobs := Release(w.jobs, k.value), released := w.released + {id}) else w
    case SetCoreMax(core, val) => w.(jobs := SetMax(w.jobs, core, val))
    case Elsewhere(at, val) =>
      if 2 * w.jobs.cores <= at < |w.jobs.words| then w.(jobs := Written(w.jobs, at, val)) else w
    case _ => w
  }

  function Written(s: Jobs, at: nat, val: uint32): Jobs
    requires at < |s.words|
  {
    s.(words := s.words[at := val])
  }

  function Allocated(w: World, request: Job): World
    requires Vacant(w.jobs, request.core)
  {
    w.(jobs := Create(w.jobs, request), allocs := w.allocs + 1)
  }

  function Submitted(w: World, k: nat): World
    requires k < |w.jobs.stored|
  {
    w.(jobs := Enqueue(w.jobs, k), enqueued := w.enqueued + [Ticket(w.jobs.stored[k].id, w.jobs.stored[k].core)])
  }

  function Started(w: World, core: uint8): World
    requires FirstEnqueued(w.jobs.queued, core).Some?
  {
    var k := FirstEnqueued(w.jobs.queued, core).value;
    var id := w.jobs.queued[k].id;
    w.(jobs := Start(w.jobs, k), regs := w.regs[core as int := Core(id, true)],
       started := w.started + [Ticket(id, core)])
  }

  function Run(policy: Policy, w: World, es: seq<Event>): World
    decreases |es|
  {
    if es == [] then w else Run(policy, Step(policy, w, es[0]), es[1..])
  }

  ghost function OfCore(log: seq<Ticket>, core: int): seq<uint32> {
    if log == [] then []
    else OfCore(log[..|log| - 1], core) + if log[|log| - 1].core == core then [log[|log| - 1].id] else []
  }

  ghost predicate Live(w: World, id: uint32) {
    id < w.allocs && id !in w.released
  }

  ghost predicate Disjoint(a: set<uint32>, b: set<uint32>) {
    forall id :: id in a ==> id !in b
  }

  /** Storage and queue share no job, and together hold exactly the jobs created and not released. */
  ghost predicate LiveJobs(w: World) {
    && w.allocs <= LIMIT32 && w.jobs.nextId == w.allocs % LIMIT32
    && UniqueIds(w.jobs.stored) && UniqueIds(w.jobs.queued)
    && Disjoint(Ids(w.jobs.stored), Ids(w.jobs.queued))
    && (forall id :: id in w.released ==> id < w.allocs)
    && forall id :: Live(w, id) <==> id in Ids(w.jobs.stored) || id in Ids(w.jobs.queued)
  }

  ghost predicate Statuses(w: World) {
    && (forall i :: 0 <= i < |w.jobs.stored| ==> w.jobs.stored[i].status == Idle)
    && (forall i :: 0 <= i < |w.jobs.queued| ==> w.jobs.queued[i].status != Idle)
  }

  /** Each core's counter is the number of its live jobs, within the core's maximum. */
  ghost predicate Quotas(w: World) {
    forall c :: 0 <= c < w.jobs.cores ==>
      Cnt(w.jobs, c) == CoreCount(w.jobs.stored, c) + CoreCount(w.jobs.queued, c) && Cnt(w.jobs, c) <= Max(w.jobs, c)
  }

  ghost predicate RunsHere(queued: seq<Job>, core: int, id: uint32) {
    exists i :: 0 <= i < |queued| && queued[i].id == id && queued[i].status == Running && queued[i].core == core
  }

  /** A core that runs, runs the job it was last started on. */
  ghost predicate CoresRun(w: World) {
    forall core :: Reg(w.regs, core).running ==> RunsHere(w.jobs.queued, core, Reg(w.regs, core).jobId)
  }

  /** A core's jobs in the order it starts them: the started ones, then the waiting ones. */
  ghost function Line(w: World, core: int): seq<uint32> {
    OfCore(w.started, core) + Pending(w.jobs.queued, core)
  }

  /** A core's line is its enqueued jobs in order of enqueueing, less exactly the cancelled ones. */
  ghost predicate Ordered(line: seq<uint32>, cancelled: seq<uint32>, enqueued: seq<uint32>) {
    Subsequence(line, enqueued) && multiset(line) + multiset(cancelled) == multiset(enqueued)
  }

  ghost predicate InOrder(w: World, core: int) {
    Ordered(Line(w, core), OfCore(w.cancelled, core), OfCore(w.enqueued, core))
  }

  ghost predicate FirstInFirstOut(w: World) {
    forall core :: InOrder(w, core)
  }

  ghost predicate Inv(w: World) {
    LiveJobs(w) && Statuses(w) && Quotas(w) && FirstInFirstOut(w) && CoresRun(w)
  }

  /** What a caller can check before an event, and what the code needs of it. */
  predicate Permitted(policy: Policy, w: World, e: Event) {
    match e
    case Allocate(request, _) => w.allocs < LIMIT32 && (w.jobs.stored != [] || request.status == Idle)
    case SetCoreMax(core, val) =>
      if core < w.jobs.cores then Cnt(w.jobs, core) <= val
      else core < 2 * w.jobs.cores ==> val == Max(w.jobs, core)
    case _ => Removal(w, e).Some? ==> policy == Repaired || Removal(w, e).value == 0
  }

  predicate PermittedRun(policy: Policy, w: World, es: seq<Event>)
    decreases |es|
  {
    es == [] || (Permitted(policy, w, es[0]) && PermittedRun(policy, Step(policy, w, es[0]), es[1..]))
  }

  lemma OfCoreAppend(log: seq<Ticket>, t: Ticket, core: int)
    ensures OfCore(log + [t], core) == OfCore(log, core) + if t.core == core then [t.id] else []
  {
    assert (log + [t])[..|log|] == log;
  }

  lemma OrderedAppend(line: seq<uint32>, cancelled: seq<uint32>, enqueued: seq<uint32>, one: seq<uint32>)
    requires Ordered(line, cancelled, enqueued) && |one| <= 1
    ensures Ordered(line + one, cancelled, enqueued + one)
  {
    if one == [] {
      assert line + one == line && enqueued + one == enqueued;
    } else {
      assert one == [one[0]];
      SubsequenceAppend(line, enqueued, one[0]);
    }
  }

  lemma OrderedDrop(ahead: seq<uint32>, one: seq<uint32>, behind: seq<uint32>, cancelled: seq<uint32>,
                    enqueued: seq<uint32>)
    requires Ordered(ahead + one + behind, cancelled, enqueued) && |one| <= 1
    ensures Ordered(ahead + behind, cancelled + one, enqueued)
  {
    if one == [] {
      assert ahead + one + behind == ahead + behind && cancelled + one == cancelled;
    } else {
      assert one == [one[0]];
      SubsequenceDrop(ahead, one[0], behind, enqueued);
    }
  }

  lemma SameOrder(w: World, w': World)
    requires FirstInFirstOut(w) && w'.jobs.queued == w.jobs.queued
    requires w'.started == w.started && w'.cancelled == w.cancelled && w'.enqueued == w.enqueued
    ensures FirstInFirstOut(w')
  {
    forall core ensures InOrder(w', core) {
      assert InOrder(w, core);
    }
  }

  lemma InitialInv(cores: nat, past: seq<uint32>)
    requires Past(past)
    ensures Inv(Initial(cores, past))
  {
  }

  lemma SameCores(w: World, w': World)
    requires CoresRun(w) && w'.regs == w.regs
    requires forall core, id :: RunsHere(w.jobs.queued, core, id) ==> RunsHere(w'.jobs.queued, core, id)
    ensures CoresRun(w')
  {
  }

  // ----- one event -----

  lemma AllocateKeeps(w: World, request: Job)
    requires Inv(w) && Vacant(w.jobs, request.core) && w.allocs < LIMIT32
    ensures Inv(Allocated(w, request)) <==> w.jobs.stored != [] || request.status == Idle
  {
    hide LiveJobs, Quotas, InOrder;
    AllocateLive(w, request);
    AllocateQuotas(w, request);
    AllocateStatuses(w, request);
    SameOrder(w, Allocated(w, request));
    SameCores(w, Allocated(w, request));
  }

  lemma AllocateLive(w: World, request: Job)
    requires LiveJobs(w) && Vacant(w.jobs, request.core) && w.allocs < LIMIT32
    ensures LiveJobs(Allocated(w, request))
  {
    var job := Allocated(w, request).jobs.stored[|w.jobs.stored|];
    assert Allocated(w, request).jobs.stored == w.jobs.stored + [job] && job.id == w.allocs;
    IdsAppend(w.jobs.stored, job);
  }

  lemma AllocateQuotas(w: World, request: Job)
    requires Quotas(w) && Vacant(w.jobs, request.core)
    ensures Quotas(Allocated(w, request))
  {
    hide CoreCount;
    var jobs' := Allocated(w, request).jobs;
    var job := jobs'.stored[|w.jobs.stored|];
    assert jobs'.stored == w.jobs.stored + [job];
    forall c | 0 <= c < w.jobs.cores
      ensures Cnt(jobs', c) == CoreCount(jobs'.stored, c) + CoreCount(jobs'.queued, c) && Cnt(jobs', c) <= Max(jobs', c)
    {
      CoreCountAppend(w.jobs.stored, job, c);
      assert Cnt(w.jobs, c) <= Max(w.jobs, c);
    }
  }

  /** The first job of an empty storage keeps the status it was created with. */
  lemma AllocateStatuses(w: World, request: Job)
    requires Statuses(w) && Vacant(w.jobs, request.core)
    ensures Statuses(Allocated(w, request)) <==> w.jobs.stored != [] || request.status == Idle
  {
    assert w.jobs.stored == [] ==> Allocated(w, request).jobs.stored[0].status == request.status;
  }

  lemma SubmitKeeps(w: World, k: nat)
    requires Inv(w) && k < |w.jobs.stored|
    ensures Inv(Submitted(w, k))
  {
    hide LiveJobs, Quotas, FirstInFirstOut, CoresRun;
    SubmitLive(w, k);
    SubmitQuotas(w, k);
    SubmitOrder(w, k);
    SubmitCores(w, k);
  }

  lemma SubmitCores(w: World, k: nat)
    requires CoresRun(w) && k < |w.jobs.stored|
    ensures CoresRun(Submitted(w, k))
  {
    var w' := Submitted(w, k);
    forall core, id | RunsHere(w.jobs.queued, core, id) ensures RunsHere(w'.jobs.queued, core, id) {
      var i :| 0 <= i < |w.jobs.queued| && w.jobs.queued[i].id == id && w.jobs.queued[i].status == Running
               && w.jobs.queued[i].core == core;
      assert w'.jobs.queued[i] == w.jobs.queued[i];
    }
    SameCores(w, w');
  }

  lemma SubmitLive(w: World, k: nat)
    requires LiveJobs(w) && k < |w.jobs.stored|
    ensures LiveJobs(Submitted(w, k))
  {
    var job := w.jobs.stored[k].(status := Enqueued);
    assert job.id in Ids(w.jobs.stored);
    IdsWithout(w.jobs.stored, k);
    IdsAppend(w.jobs.queued, job);
  }

  lemma SubmitQuotas(w: World, k: nat)
    requires Quotas(w) && k < |w.jobs.stored|
    ensures Quotas(Submitted(w, k))
  {
    var job := w.jobs.stored[k].(status := Enqueued);
    var jobs' := Enqueue(w.jobs, k);
    assert [job][..0] == [];
    forall c | 0 <= c < w.jobs.cores
      ensures CoreCount(jobs'.stored, c) + CoreCount(jobs'.queued, c)
           == CoreCount(w.jobs.stored, c) + CoreCount(w.jobs.queued, c)
    {
      CoreCountSplit(w.jobs.stored, k, c);
      CoreCountConcat(w.jobs.queued, [job], c);
    }
    SameQuotas(w, Submitted(w, k));
  }

  lemma SameQuotas(w: World, w': World)
    requires Quotas(w) && w'.jobs.cores == w.jobs.cores && w'.jobs.words == w.jobs.words
    requires forall c :: 0 <= c < w.jobs.cores ==>
      CoreCount(w'.jobs.stored, c) + CoreCount(w'.jobs.queued, c)
        == CoreCount(w.jobs.stored, c) + CoreCount(w.jobs.queued, c)
    ensures Quotas(w')
  {
    hide CoreCount;
    forall c | 0 <= c < w'.jobs.cores
      ensures Cnt(w'.jobs, c) == CoreCount(w'.jobs.stored, c) + CoreCount(w'.jobs.queued, c)
      ensures Cnt(w'.jobs, c) <= Max(w'.jobs, c)
    {
      assert Cnt(w'.jobs, c) == Cnt(w.jobs, c);
    }
  }

  lemma SubmitOrder(w: World, k: nat)
    requires FirstInFirstOut(w) && k < |w.jobs.stored|
    ensures FirstInFirstOut(Submitted(w, k))
  {
    hide Submitted, InOrder;
    forall core ensures InOrder(Submitted(w, k), core) {
      SubmitInOrder(w, k, core);
    }
  }

  lemma SubmitInOrder(w: World, k: nat, core: int)
    requires InOrder(w, core) && k < |w.jobs.stored|
    ensures InOrder(Submitted(w, k), core)
  {
    SubmitLine(w, k, core);
    OrderedAppend(Line(w, core), OfCore(w.cancelled, core), OfCore(w.enqueued, core),
                  PendingOne(w.jobs.stored[k].(status := Enqueued), core));
  }

  lemma SubmitLine(w: World, k: nat, core: int)
    requires k < |w.jobs.stored|
    ensures var job := w.jobs.stored[k].(status := Enqueued);
      && Line(Submitted(w, k), core) == Line(w, core) + PendingOne(job, core)
      && OfCore(Submitted(w, k).enqueued, core) == OfCore(w.enqueued, core) + PendingOne(job, core)
  {
    PendingAppend(w.jobs.queued, w.jobs.stored[k].(status := Enqueued), core);
    OfCoreAppend(w.enqueued, Ticket(w.jobs.stored[k].id, w.jobs.stored[k].core), core);
  }

  lemma StartSameLine(w: World, core: uint8, other: int)
    requires FirstEnqueued(w.jobs.queued, core).Some?
    ensures Line(Started(w, core), other) == Line(w, other)
  {
    var id := w.jobs.queued[FirstEnqueued(w.jobs.queued, core).value].id;
    var w' := Started(w, core);
    StartTakesOldest(w.jobs.queued, core, other);
    OfCoreAppend(w.started, Ticket(id, core), other);
    if other == core {
      assert OfCore(w'.started, core) == OfCore(w.started, core) + [id];
      assert OfCore(w.started, core) + ([id] + Pending(w'.jobs.queued, core)) == Line(w', core);
    }
  }

  lemma StartKeeps(w: World, core: uint8)
    requires Inv(w) && FirstEnqueued(w.jobs.queued, core).Some?
    ensures Inv(Started(w, core))
  {
    hide CoreCount, FirstEnqueued, CoresRun, InOrder;
    var k := FirstWaits(w.jobs.queued, core);
    var running := w.jobs.queued[k].(status := Running);
    var w' := Started(w, core);
    IdsUpdate(w.jobs.queued, k, running);
    forall c | 0 <= c < w.jobs.cores ensures CoreCount(w'.jobs.queued, c) == CoreCount(w.jobs.queued, c) {
      CoreCountUpdate(w.jobs.queued, k, running, c);
    }
    SameQuotas(w, w');
    forall other ensures InOrder(w', other) {
      StartInOrder(w, core, other);
    }
    StartCores(w, core);
  }

  lemma FirstWaits(queued: seq<Job>, core: uint8) returns (k: nat)
    requires FirstEnqueued(queued, core).Some?
    ensures k == FirstEnqueued(queued, core).value < |queued| && Waiting(queued[k], core)
  {
    k := FirstEnqueued(queued, core).value;
  }

  lemma StartInOrder(w: World, core: uint8, other: int)
    requires FirstInFirstOut(w) && FirstEnqueued(w.jobs.queued, core).Some?
    ensures InOrder(Started(w, core), other)
  {
    StartSameLine(w, core, other);
    assert InOrder(w, other);
  }

  lemma StartCores(w: World, core: uint8)
    requires CoresRun(w) && FirstEnqueued(w.jobs.queued, core).Some?
    ensures CoresRun(Started(w, core))
  {
    hide FirstEnqueued;
    var k := FirstWaits(w.jobs.queued, core);
    var w' := Started(w, core);
    forall c | Reg(w'.regs, c).running ensures RunsHere(w'.jobs.queued, c, Reg(w'.regs, c).jobId) {
      if c == core {
        assert w'.jobs.queued[k].status == Running;
      } else {
        assert RunsHere(w.jobs.queued, c, Reg(w.regs, c).jobId);
        var i :| 0 <= i < |w.jobs.queued| && w.jobs.queued[i].id == Reg(w.regs, c).jobId
                 && w.jobs.queued[i].status == Running && w.jobs.queued[i].core == c;
        assert w'.jobs.queued[i] == w.jobs.queued[i];
      }
    }
  }

  function Freeing(w: World, k: nat): World
    requires k < |w.jobs.stored|
  {
    w.(jobs := Release(w.jobs, k), released := w.released + {w.jobs.stored[k].id})
  }

  lemma FreeKeeps(w: World, k: nat)
    requires Inv(w) && k < |w.jobs.stored|
    ensures Inv(Freeing(w, k))
  {
    hide Quotas, CoresRun, FirstInFirstOut;
    var job := w.jobs.stored[k];
    var w' := Freeing(w, k);
    assert job.id in Ids(w.jobs.stored);
    IdsWithout(w.jobs.stored, k);
    FreeQuotas(w, k);
    SameOrder(w, w');
    SameCores(w, w');
  }

  lemma FreeQuotas(w: World, k: nat)
    requires Quotas(w) && k < |w.jobs.stored|
    ensures Quotas(Freeing(w, k))
  {
    hide CoreCount;
    var jobs' := Freeing(w, k).jobs;
    forall c | 0 <= c < w.jobs.cores
      ensures Cnt(jobs', c) == CoreCount(jobs'.stored, c) + CoreCount(jobs'.queued, c) && Cnt(jobs', c) <= Max(jobs', c)
    {
      CoreCountSplit(w.jobs.stored, k, c);
      assert Cnt(w.jobs, c) <= Max(w.jobs, c);
    }
  }

  /** Taking a job off the queue keeps the order and the conservation of every core's jobs. */
  lemma RemovalKeepsOrder(w: World, k: nat)
    requires Inv(w) && k < |w.jobs.queued|
    ensures FirstInFirstOut(RemoveJob(Repaired, w, k))
  {
    forall core ensures InOrder(RemoveJob(Repaired, w, k), core) {
      RemovalInOrder(w, k, core);
    }
  }

  lemma RemovalInOrder(w: World, k: nat, core: int)
    requires InOrder(w, core) && k < |w.jobs.queued| && w.jobs.queued[k].status != Idle
    ensures InOrder(RemoveJob(Repaired, w, k), core)
  {
    var ahead, behind := RemovalLine(w, k, core);
    RemovalCancels(w, k, core);
    OrderedDrop(ahead, PendingOne(w.jobs.queued[k], core), behind, OfCore(w.cancelled, core), OfCore(w.enqueued, core));
  }

  lemma RemovalLine(w: World, k: nat, core: int) returns (ahead: seq<uint32>, behind: seq<uint32>)
    requires k < |w.jobs.queued|
    ensures Line(w, core) == ahead + PendingOne(w.jobs.queued[k], core) + behind
    ensures Line(RemoveJob(Repaired, w, k), core) == ahead + behind
  {
    PendingSplit(w.jobs.queued, k, core);
    var front := Pending(w.jobs.queued[..k], core);
    ahead, behind := OfCore(w.started, core) + front, Pending(w.jobs.queued[k + 1..], core);
    Reassociate(OfCore(w.started, core), front, PendingOne(w.jobs.queued[k], core), behind);
  }

  lemma RemovalCancels(w: World, k: nat, core: int)
    requires k < |w.jobs.queued|
    ensures OfCore(RemoveJob(Repaired, w, k).cancelled, core)
         == OfCore(w.cancelled, core) + PendingOne(w.jobs.queued[k], core)
  {
    OfCoreAppend(w.cancelled, Ticket(w.jobs.queued[k].id, w.jobs.queued[k].core), core);
  }

  lemma Reassociate<T>(a: seq<T>, b: seq<T>, c: seq<T>, d: seq<T>)
    ensures a + (b + c + d) == a + b + c + d && a + (b + d) == a + b + d
  {
  }

  lemma RemovalKeepsLists(w: World, k: nat)
    requires Inv(w) && k < |w.jobs.queued|
    ensures var w' := RemoveJob(Repaired, w, k); LiveJobs(w') && Statuses(w') && Quotas(w') && CoresRun(w')
  {
    var job := w.jobs.queued[k].(status := Idle);
    var w' := RemoveJob(Repaired, w, k);
    assert w'.jobs.stored == w.jobs.stored + [job];
    assert job.id in Ids(w.jobs.queued);
    IdsWithout(w.jobs.queued, k);
    IdsAppend(w.jobs.stored, job);
    assert [job][..0] == [];
    forall c | 0 <= c < w.jobs.cores
      ensures CoreCount(w'.jobs.stored, c) + CoreCount(w'.jobs.queued, c)
           == CoreCount(w.jobs.stored, c) + CoreCount(w.jobs.queued, c)
    {
      CoreCountSplit(w.jobs.queued, k, c);
      CoreCountConcat(w.jobs.stored, [job], c);
    }
    SameQuotas(w, w');
    RemovalCores(w, k);
  }

  lemma RemovalCores(w: World, k: nat)
    requires CoresRun(w) && k < |w.jobs.queued|
    ensures CoresRun(RemoveJob(Repaired, w, k))
  {
    var w' := RemoveJob(Repaired, w, k);
    forall core | Reg(w'.regs, core).running ensures RunsHere(w'.jobs.queued, core, Reg(w'.regs, core).jobId) {
      assert RunsHere(w.jobs.queued, core, Reg(w.regs, core).jobId);
      var i :| 0 <= i < |w.jobs.queued| && w.jobs.queued[i].id == Reg(w.regs, core).jobId
               && w.jobs.queued[i].status == Running && w.jobs.queued[i].core == core;
      assert i != k;
      assert w'.jobs.queued[if i < k then i else i - 1] == w.jobs.queued[i];
    }
  }

  /** Behind the head the code as written leaves the predecessor on both lists. */
  lemma RemovalBreaks(w: World, k: nat)
    requires 0 < k < |w.jobs.queued|
    ensures !LiveJobs(RemoveJob(AsCoded, w, k))
  {
    var w' := RemoveJob(AsCoded, w, k);
    var shared := w'.jobs.stored[|w.jobs.stored|];
    assert w'.jobs.queued[k - 1] == shared;
    assert shared.id in Ids(w'.jobs.stored) && shared.id in Ids(w'.jobs.queued);
  }

  /** Exactly when a removal keeps the manager well formed. */
  lemma RemovalExactly(policy: Policy, w: World, k: nat)
    requires Inv(w) && k < |w.jobs.queued|
    ensures Inv(RemoveJob(policy, w, k)) <==> k == 0 || policy == Repaired
  {
    if k == 0 || policy == Repaired {
      RemovalKeepsOrder(w, k);
      RemovalKeepsLists(w, k);
      assert RemoveJob(policy, w, k) == RemoveJob(Repaired, w, k);
    } else {
      RemovalBreaks(w, k);
    }
  }

  /** The interrupt of a core completes the job the core was last started on, which is running. */
  lemma StopCompletesStarted(policy: Policy, w: World, core: uint8)
    requires Inv(w) && core < w.jobs.cores && Reg(w.regs, core).running
    ensures var k := Removal(w, Stop(core)); var id := Reg(w.regs, core).jobId;
      && k.Some? && w.jobs.queued[k.value].id == id
      && w.jobs.queued[k.value].status == Running && w.jobs.queued[k.value].core == core
    ensures Step(policy, w, Stop(core)) == RemoveJob(policy, w, Removal(w, Stop(core)).value)
  {
    var id := Reg(w.regs, core).jobId;
    assert RunsHere(w.jobs.queued, core, id);
    var i :| 0 <= i < |w.jobs.queued| && w.jobs.queued[i].id == id && w.jobs.queued[i].status == Running
             && w.jobs.queued[i].core == core;
    FoundAt(w.jobs.queued, i);
  }

  lemma FoundAt(js: seq<Job>, i: nat)
    requires UniqueIds(js) && i < |js|
    ensures Find(js, js[i].id) == Some(i)
  {
  }

  /** A removing event removes one job and resets its core, if that runs it. */
  lemma RemovalStep(policy: Policy, w: World, e: Event)
    requires Inv(w) && Removal(w, e).Some?
    ensures Step(policy, w, e) == RemoveJob(policy, w, Removal(w, e).value)
  {
    hide Inv;
    if e.Stop? {
      StopCompletesStarted(policy, w, e.core);
    }
  }

  lemma WriteKeeps(w: World, at: nat, val: uint32)
    requires Inv(w) && at < |w.jobs.words|
    requires at < w.jobs.cores ==> Cnt(w.jobs, at) <= val
    ensures Inv(w.(jobs := Written(w.jobs, at, val))) <==>
      (w.jobs.cores <= at < 2 * w.jobs.cores ==> val == w.jobs.words[at])
  {
    hide CoreCount, InOrder;
    var w' := w.(jobs := Written(w.jobs, at, val));
    SameOrder(w, w');
    if w.jobs.cores <= at < 2 * w.jobs.cores {
      var c := at - w.jobs.cores;
      assert Cnt(w.jobs, c) == w.jobs.words[at] && Cnt(w'.jobs, c) == val;
      assert val == w.jobs.words[at] ==> w'.jobs.words == w.jobs.words && w' == w;
    } else {
      forall c | 0 <= c < w.jobs.cores
        ensures Cnt(w'.jobs, c) == CoreCount(w'.jobs.stored, c) + CoreCount(w'.jobs.queued, c)
        ensures Cnt(w'.jobs, c) <= Max(w'.jobs, c)
      {
        assert Cnt(w'.jobs, c) == Cnt(w.jobs, c);
      }
    }
  }

  /** An event that takes effect keeps the manager well formed exactly when it is permitted. */
  lemma UnpermittedBreaks(policy: Policy, w: World, e: Event)
    requires Inv(w) && Step(policy, w, e) != w
    ensures Inv(Step(policy, w, e)) <==> Permitted(policy, w, e)
  {
    hide Inv, Allocated, Submitted, Started, FirstEnqueued;
    if Removal(w, e).Some? {
      RemovalStep(policy, w, e);
      RemovalExactly(policy, w, Removal(w, e).value);
      return;
    }
    match e
    case Allocate(request, memory) => AllocateExactly(w, request);
    case Submit(id) => SubmitKeeps(w, Find(w.jobs.stored, id).value);
    case StartCore(core) => StartKeeps(w, core);
    case Free(id) => FreeKeeps(w, Find(w.jobs.stored, id).value);
    case SetCoreMax(core, val) => SetMaxExactly(w, core, val);
    case Elsewhere(at, val) => WriteKeeps(w, at, val);
    case Stop(_) =>
    case Cancel(_) =>
  }

  lemma AllocateExactly(w: World, request: Job)
    requires Inv(w) && Vacant(w.jobs, request.core)
    ensures Inv(Allocated(w, request)) <==> w.allocs < LIMIT32 && (w.jobs.stored != [] || request.status == Idle)
  {
    hide Quotas, InOrder, Statuses, CoresRun;
    if w.allocs < LIMIT32 {
      AllocateKeeps(w, request);
    }
  }

  lemma SetMaxExactly(w: World, core: uint8, val: uint32)
    requires Inv(w)
    ensures Inv(w.(jobs := SetMax(w.jobs, core, val))) <==> Permitted(AsCoded, w, SetCoreMax(core, val))
  {
    hide CoreCount, InOrder, LiveJobs, Statuses, CoresRun;
    var w' := w.(jobs := SetMax(w.jobs, core, val));
    assert w'.jobs == Written(w.jobs, core, val);
    if core < w.jobs.cores && val < Cnt(w.jobs, core) {
      assert Cnt(w'.jobs, core) > Max(w'.jobs, core);
    } else {
      WriteKeeps(w, core, val);
    }
  }

  lemma StepKeeps(policy: Policy, w: World, e: Event)
    requires Inv(w) && Permitted(policy, w, e)
    ensures Inv(Step(policy, w, e))
  {
    hide Inv, Permitted, Step;
    if Step(policy, w, e) != w {
      UnpermittedBreaks(policy, w, e);
    }
  }

  /** Every state of every permitted run is well formed. */
  lemma {:induction false} RunKeeps(policy: Policy, w: World, es: seq<Event>)
    requires Inv(w) && PermittedRun(policy, w, es)
    ensures Inv(Run(policy, w, es))
    decreases |es|
  {
    if es != [] {
      StepKeeps(policy, w, es[0]);
      RunKeeps(policy, Step(policy, w, es[0]), es[1..]);
    }
  }

  // ----- lookups by id while the interrupt thread runs -----

  predicate InterruptThread(es: seq<Event>) {
    forall i :: 0 <= i < |es| ==> es[i].StartCore? || es[i].Stop?
  }

  /** The interrupt thread never takes a job out of storage and never ends a job's life. */
  lemma {:induction false} InterruptsOnlyStore(policy: Policy, w: World, es: seq<Event>)
    requires Inv(w) && PermittedRun(policy, w, es) && InterruptThread(es)
    ensures var w' := Run(policy, w, es);
      && Ids(w.jobs.stored) <= Ids(w'.jobs.stored)
      && w'.released == w.released && w'.allocs == w.allocs
    decreases |es|
  {
    if es != [] {
      var w1 := Step(policy, w, es[0]);
      if Removal(w, es[0]).Some? {
        var k := Removal(w, es[0]).value;
        assert w1.jobs.stored == w.jobs.stored + [w.jobs.queued[k].(status := Idle)];
        IdsAppend(w.jobs.stored, w.jobs.queued[k].(status := Idle));
      }
      StepKeeps(policy, w, es[0]);
      InterruptsOnlyStore(policy, w1, es[1..]);
    }
  }

  /** The status, wait and release requests look in the queue first and, in a later critical section,
      in storage. Whatever the interrupt thread does in between, the job is found exactly when the id
      was created and is not released. */
  lemma QueueThenStorageFinds(policy: Policy, w: World, es: seq<Event>, id: uint32)
    requires Inv(w) && PermittedRun(policy, w, es) && InterruptThread(es)
    ensures Find(w.jobs.queued, id).Some? || Find(Run(policy, w, es).jobs.stored, id).Some?
      <==> Live(w, id)
  {
    var w' := Run(policy, w, es);
    InterruptsOnlyStore(policy, w, es);
    RunKeeps(policy, w, es);
    FindIsMembership(w.jobs.queued, id);
    FindIsMembership(w'.jobs.stored, id);
    assert Live(w, id) <==> Live(w', id);
  }

  /** A release request on a live job answers BUSY when the first lookup finds it queued and otherwise
      succeeds, whatever the interrupt thread does in between. */
  lemma ReleaseOnlyIdleStored(policy: Policy, w: World, es: seq<Event>, id: uint32)
    requires Inv(w) && PermittedRun(policy, w, es) && InterruptThread(es)
    requires Find(w.jobs.queued, id).None?
    ensures var w' := Run(policy, w, es); var k := Find(w'.jobs.stored, id);
      && (k.Some? <==> id in Ids(w.jobs.stored))
      && (k.Some? ==> w'.jobs.stored[k.value].status == Idle && Find(w'.jobs.queued, id).None?)
      && (k.Some? ==> Step(policy, w', Free(id)).released == w.released + {id})
      && (k.None? ==> Step(policy, w', Free(id)) == w')
  {
    var w' := Run(policy, w, es);
    QueueThenStorageFinds(policy, w, es, id);
    InterruptsOnlyStore(policy, w, es);
    RunKeeps(policy, w, es);
    FindIsMembership(w.jobs.queued, id);
    FindIsMembership(w'.jobs.stored, id);
    FindIsMembership(w'.jobs.queued, id);
    assert Live(w, id) <==> id in Ids(w.jobs.stored);
    if Find(w'.jobs.stored, id).Some? {
      assert id in Ids(w'.jobs.stored) && id !in Ids(w'.jobs.queued);
    }
  }

  /** From its creation until its release a job stays findable, over every permitted run. */
  lemma {:induction false} LiveUntilReleased(policy: Policy, w: World, es: seq<Event>, id: uint32)
    requires Inv(w) && PermittedRun(policy, w, es)
    requires Live(w, id) && Free(id) !in es
    ensures var w' := Run(policy, w, es);
      Find(w'.jobs.queued, id).Some? || Find(w'.jobs.stored, id).Some?
    decreases |es|
  {
    if es == [] {
      QueueThenStorageFinds(policy, w, [], id);
    } else {
      StepKeeps(policy, w, es[0]);
      LiveUntilReleased(policy, Step(policy, w, es[0]), es[1..], id);
    }
  }

  /** Jobs of one core start in the order they were enqueued, over every permitted run. */
  lemma StartsInOrder(policy: Policy, cores: nat, past: seq<uint32>, es: seq<Event>, core: int)
    requires Past(past) && PermittedRun(policy, Initial(cores, past), es)
    ensures var w := Run(policy, Initial(cores, past), es);
      InOrder(w, core)
  {
    InitialInv(cores, past);
    RunKeeps(policy, Initial(cores, past), es);
  }

  predicate SameJob(a: Job, b: Job) {
    a.id == b.id && a.rc == b.rc && a.core == b.core
  }

  ghost predicate Known(w: World, j: Job) {
    exists o :: o in w.jobs.stored + w.jobs.queued && SameJob(j, o)
  }

  ghost predicate AllKnown(w: World, js: seq<Job>) {
    forall i :: 0 <= i < |js| ==> Known(w, js[i])
  }

  lemma KnownAs(w: World, j: Job, o: Job)
    requires (o in w.jobs.stored || o in w.jobs.queued) && SameJob(j, o)
    ensures Known(w, j)
  {
    assert o in w.jobs.stored + w.jobs.queued;
  }

  lemma ListsKnown(w: World)
    ensures AllKnown(w, w.jobs.stored) && AllKnown(w, w.jobs.queued)
  {
    forall i | 0 <= i < |w.jobs.stored| ensures Known(w, w.jobs.stored[i]) {
      KnownAs(w, w.jobs.stored[i], w.jobs.stored[i]);
    }
    forall i | 0 <= i < |w.jobs.queued| ensures Known(w, w.jobs.queued[i]) {
      KnownAs(w, w.jobs.queued[i], w.jobs.queued[i]);
    }
  }

  lemma StoredKnown(w: World, j: Job, o: Job)
    requires AllKnown(w, w.jobs.stored) && (o in w.jobs.stored || o in w.jobs.queued) && SameJob(j, o)
    ensures AllKnown(w, Put(w.jobs.stored, j)) && AllKnown(w, w.jobs.stored + [j])
  {
    hide Known;
    KnownAs(w, j, o);
    KnownAs(w, j.(status := Idle), o);
  }

  lemma RemovalKnown(policy: Policy, w: World, k: nat)
    requires k < |w.jobs.queued|
    ensures var w' := RemoveJob(policy, w, k); AllKnown(w, w'.jobs.queued) && AllKnown(w, w'.jobs.stored)
  {
    hide Known;
    ListsKnown(w);
    if k == 0 || policy == Repaired {
      StoredKnown(w, w.jobs.queued[k].(status := Idle), w.jobs.queued[k]);
    } else {
      StoredKnown(w, w.jobs.queued[k - 1], w.jobs.queued[k - 1]);
      var stored := Put(w.jobs.stored, w.jobs.queued[k - 1]);
      assert Known(w, stored[|stored| - 1]);
    }
  }

  lemma SubmittedKnown(w: World, k: nat)
    requires k < |w.jobs.stored|
    ensures var w' := Submitted(w, k); AllKnown(w, w'.jobs.queued) && AllKnown(w, w'.jobs.stored)
  {
    hide Known;
    ListsKnown(w);
    KnownAs(w, w.jobs.stored[k].(status := Enqueued), w.jobs.stored[k]);
  }

  lemma StartedKnown(w: World, core: uint8)
    requires FirstEnqueued(w.jobs.queued, core).Some?
    ensures var w' := Started(w, core); AllKnown(w, w'.jobs.queued) && AllKnown(w, w'.jobs.stored)
  {
    hide Known, FirstEnqueued;
    ListsKnown(w);
    var k := FirstWaits(w.jobs.queued, core);
    KnownAs(w, w.jobs.queued[k].(status := Running), w.jobs.queued[k]);
  }

  lemma AllocatedKnown(w: World, request: Job)
    requires Vacant(w.jobs, request.core)
    ensures var w' := Allocated(w, request);
      && w'.jobs.queued == w.jobs.queued && w'.jobs.stored[..|w.jobs.stored|] == w.jobs.stored
      && |w'.jobs.stored| == |w.jobs.stored| + 1
      && SameJob(w'.jobs.stored[|w.jobs.stored|], Job(w.jobs.nextId, Idle, request.rc, request.core))
  {
  }

  /** No list operation changes a job's id, result or core; the only new job is a created one, which has the
      request's result and core and the generated id. */
  lemma JobsKeepFields(policy: Policy, w: World, e: Event)
    ensures var w' := Step(policy, w, e);
      && AllKnown(w, w'.jobs.queued)
      && if Allocates(w, e) then
           && AllKnown(w, w'.jobs.stored[..|w.jobs.stored|]) && |w'.jobs.stored| == |w.jobs.stored| + 1
           && SameJob(w'.jobs.stored[|w.jobs.stored|], Job(w.jobs.nextId, Idle, e.request.rc, e.request.core))
         else AllKnown(w, w'.jobs.stored)
  {
    hide Known, FirstEnqueued, Allocated, Submitted, Started, RemoveJob;
    ListsKnown(w);
    if Removal(w, e).Some? {
      RemovalKnown(policy, w, Removal(w, e).value);
    } else if Allocates(w, e) {
      AllocatedKnown(w, e.request);
    } else if e.Submit? && Find(w.jobs.stored, e.id).Some? {
      SubmittedKnown(w, Find(w.jobs.stored, e.id).value);
    } else if e.StartCore? && FirstEnqueued(w.jobs.queued, e.core).Some? {
      StartedKnown(w, e.core);
    }
  }

  /** Two queued jobs: cancelling the second, as coded, leaves the first on both lists and loses the
      second. */
  lemma CancelSecondBreaks(w: World)
    requires Inv(w) && |w.jobs.queued| == 2
    ensures var id := w.jobs.queued[1].id; var w' := Step(AsCoded, w, Cancel(id));
      && !Inv(w') && id !in Ids(w'.jobs.stored) + Ids(w'.jobs.queued)
      && w.jobs.queued[0].id in Ids(w'.jobs.stored) && w.jobs.queued[0].id in Ids(w'.jobs.queued)
  {
    var id := w.jobs.queued[1].id;
    assert Find(w.jobs.queued, id) == Some(1);
    RemovalExactly(AsCoded, w, 1);
    var w' := Step(AsCoded, w, Cancel(id));
    assert w'.jobs.queued[0].id == w.jobs.queued[0].id == w'.jobs.stored[|w.jobs.stored|].id;
    assert id in Ids(w.jobs.queued) && id !in Ids(w.jobs.stored);
    assert forall i :: 0 <= i < |w.jobs.stored| ==> w'.jobs.stored[i].id == w.jobs.stored[i].id;
  }

  /** A run of one more event. */
  lemma {:induction false} Extend(policy: Policy, w: World, es: seq<Event>, e: Event)
    requires PermittedRun(policy, w, es) && Permitted(policy, Run(policy, w, es), e)
    ensures PermittedRun(policy, w, es + [e]) && Run(policy, w, es + [e]) == Step(policy, Run(policy, w, es), e)
    decreases |es|
  {
    hide Step, Permitted;
    if es == [] {
      assert es + [e] == [e] && [e][1..] == [];
    } else {
      Extend(policy, Step(policy, w, es[0]), es[1..], e);
      assert (es + [e])[1..] == es[1..] + [e];
    }
  }

  lemma NoEvents(w: World)
    ensures PermittedRun(AsCoded, w, []) && Run(AsCoded, w, []) == w
  {
  }

  /** A manager of one core. */
  const START: World := Initial(1, Zeros(0x100))

  /** The core has room for two jobs, and `w.allocs` of them are in its queue. */
  predicate Queueing(w: World, first: Status) {
    && w.jobs.stored == [] && w.jobs.cores == 1 && Max(w.jobs, 0) == 2 && Cnt(w.jobs, 0) == w.allocs
    && w.jobs.nextId == w.allocs <= 2 && w.released == {} && |w.jobs.queued| == w.allocs
    && forall i :: 0 <= i < w.allocs ==> w.jobs.queued[i] == Job(i, if i == 0 then first else Enqueued, Success, 0)
  }

  /** A request's job is created and enqueued. */
  lemma QueueOne(es: seq<Event>, first: Status) returns (more: seq<Event>)
    requires PermittedRun(AsCoded, START, es)
    requires var w := Run(AsCoded, START, es);
      Queueing(w, first) && w.allocs < 2 && (w.allocs == 0 ==> first == Enqueued)
    ensures PermittedRun(AsCoded, START, more)
    ensures var w, w' := Run(AsCoded, START, es), Run(AsCoded, START, more);
      Queueing(w', first) && w'.allocs == w.allocs + 1 && w'.regs == w.regs
  {
    hide Run, PermittedRun;
    var w := Run(AsCoded, START, es);
    var create, submit := Allocate(Job(0, Idle, Success, 0), true), Submit(w.allocs);
    Extend(AsCoded, START, es, create);
    var w1 := Step(AsCoded, w, create);
    assert w1.jobs.stored == [Job(w.allocs, Idle, Success, 0)];
    Extend(AsCoded, START, es + [create], submit);
    assert Step(AsCoded, w1, submit).jobs.stored == [];
    more := es + [create] + [submit];
  }

  lemma OneQueued() returns (es: seq<Event>)
    ensures PermittedRun(AsCoded, START, es)
    ensures Queueing(Run(AsCoded, START, es), Enqueued) && Run(AsCoded, START, es).allocs == 1
  {
    hide Run, PermittedRun;
    NoEvents(START);
    Extend(AsCoded, START, [], SetCoreMax(0, 2));
    es := QueueOne([] + [SetCoreMax(0, 2)], Enqueued);
  }

  /** One job, created, enqueued and started. */
  lemma RunningAlone() returns (es: seq<Event>)
    ensures PermittedRun(AsCoded, START, es)
    ensures var w := Run(AsCoded, START, es);
      Inv(w) && Queueing(w, Running) && w.allocs == 1 && Reg(w.regs, 0) == Core(0, true)
  {
    hide Run, PermittedRun, Inv;
    es := OneQueued();
    Extend(AsCoded, START, es, StartCore(0));
    es := es + [StartCore(0)];
    InitialInv(1, Zeros(0x100));
    RunKeeps(AsCoded, START, es);
  }

  /** Looking in storage first would lose a live job: it is queued at the first lookup and stored at
      the second. */
  lemma StorageThenQueueMisses()
    ensures exists w: World, e: Event, id: uint32 ::
      && Inv(w) && Permitted(AsCoded, w, e) && InterruptThread([e]) && Live(w, id)
      && Find(w.jobs.stored, id).None? && Find(Step(AsCoded, w, e).jobs.queued, id).None?
  {
    hide Run, Inv;
    var es := RunningAlone();
    var w := Run(AsCoded, START, es);
    assert Step(AsCoded, w, Stop(0)).jobs.queued == [];
    assert Inv(w) && Permitted(AsCoded, w, Stop(0)) && InterruptThread([Stop(0)]) && Live(w, 0);
  }

  /** Such a state is reached by two requests, each created and enqueued; cancelling the second one then
      breaks the manager. */
  lemma TwoQueued() returns (es: seq<Event>)
    ensures PermittedRun(AsCoded, START, es)
    ensures var w := Run(AsCoded, START, es);
      && Inv(w) && |w.jobs.queued| == 2 && w.jobs.queued[1].id == 1
      && !Permitted(AsCoded, w, Cancel(1)) && !Inv(Step(AsCoded, w, Cancel(1)))
  {
    hide Inv, Run, PermittedRun;
    es := OneQueued();
    es := QueueOne(es, Enqueued);
    InitialInv(1, Zeros(0x100));
    RunKeeps(AsCoded, START, es);
    CancelSecondBreaks(Run(AsCoded, START, es));
  }
}
