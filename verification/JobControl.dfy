/** The device-control requests of the DSP driver, as clients of the job lists. */
module JobControl {
  import opened Words
  import opened JobModel
  import opened JobList

  const MAX_INPUTS := 4
  const MAX_OUTPUTS := 1

  datatype Reply = Ok | Invalid | NoMemory | Busy | NoReply | Callout(code: int)

  /** `prog` and `data` are the results of the hardware callouts that load the job. */
  method JobCreate(m: JobManager, request: Job, inum: uint32, onum: uint32, memory: bool, prog: int, data: int)
    returns (reply: Reply, job: Option<Job>)
    requires m.Valid()
    modifies m, m.stored, m.words
    ensures m.Valid()
    ensures reply == Invalid <==> inum > 4 || onum > 1 || request.core > 2
    ensures reply != Invalid && !(memory && Vacant(old(m.State()), request.core)) ==> reply == NoMemory
    ensures reply in {Invalid, NoMemory} ==> m.State() == old(m.State()) && job == None
    ensures reply !in {Invalid, NoMemory} ==>
      && Vacant(old(m.State()), request.core) && m.State() == Create(old(m.State()), request)
      && reply == (if prog != 0 then Callout(prog) else if data != 0 then Callout(data) else Ok)
      && job == if reply == Ok then Some(m.State().stored[|old(m.stored)|]) else None
    ensures reply !in {Invalid, NoMemory} ==>
      var s := old(m.State());
      && m.State().queued == s.queued && m.State().stored == s.stored + [NewJob(s, request)]
      && Cnt(m.State(), request.core) == Cnt(s, request.core) + 1
  {
    if inum > MAX_INPUTS || onum > MAX_OUTPUTS || request.core > 2 {
      return Invalid, None;
    }
    var node := m.AllocJob(request, memory);
    if node == null {
      return NoMemory, None;
    }
    if prog != 0 {
      return Callout(prog), None;
    }
    if data != 0 {
      return Callout(data), None;
    }
    return Ok, Some(node.pub);
  }

  /** A new job has the generated id, and the request's core and result. */
  function NewJob(s: Jobs, request: Job): Job {
    Job(s.nextId, if s.stored == [] then request.status else Idle, request.rc, request.core)
  }

  /** `start` is the core whose start callout is made. */
  method JobEnqueue(m: JobManager, id: uint32) returns (reply: Reply, start: Option<uint8>)
    requires m.Valid()
    modifies m, m.stored, m.queued
    ensures m.Valid()
    ensures var k := Find(old(m.State()).stored, id);
      if k.Some? && old(m.State()).stored[k.value].status == Idle then
        var s, job := old(m.State()), old(m.State()).stored[k.value];
        && reply == Ok && start == Some(job.core)
        && m.State() == Enqueue(s, k.value)
        && m.State().queued == s.queued + [Job(id, Enqueued, job.rc, job.core)]
        && m.State().stored == s.stored[..k.value] + s.stored[k.value + 1..]
      else
        reply == Invalid && start == None && m.State() == old(m.State())
  {
    var job, i := m.GetStoredById(id);
    if job == null {
      return Invalid, None;
    }
    ghost var was, before := m.State(), m.stored;
    assert was.stored[i.value].status == job.pub.status && was.stored[i.value].core == job.pub.core;
    start := Some(job.pub.core);
    var ok, k := m.Enqueue(job);
    SameIndexIf(ok, before, k, i.value);
    return if ok then Ok else Invalid, if ok then start else None;
  }

  /** The job a status, wait or results request is about: the queue first, then storage. */
  method Lookup(m: JobManager, id: uint32) returns (job: JobNode?)
    requires m.Valid()
    ensures var q := Find(m.State().queued, id); var s := Find(m.State().stored, id);
      job == if q.Some? then m.queued[q.value] else if s.Some? then m.stored[s.value] else null
  {
    ghost var k;
    job, k := m.GetEnqueuedById(id);
    if job == null {
      job, k := m.GetStoredById(id);
    }
  }

  method JobStatus(m: JobManager, id: uint32) returns (reply: Reply, status: Status)
    requires m.Valid()
    ensures reply in {Ok, Invalid}
    ensures reply == Invalid <==>
      (forall j :: j in m.State().queued ==> j.id != id) && (forall j :: j in m.State().stored ==> j.id != id)
    ensures reply == Ok ==> exists j :: j in m.State().queued + m.State().stored && j.id == id && j.status == status
  {
    var job := Lookup(m, id);
    if job == null {
      return Invalid, Idle;
    }
    assert job.pub in m.State().queued + m.State().stored;
    return Ok, job.pub.status;
  }

  /** A waiter on a running job is not answered; any other job answers with its result code. */
  method JobWait(m: JobManager, id: uint32) returns (reply: Reply, rc: Outcome)
    requires m.Valid()
    ensures reply in {Ok, Invalid, NoReply}
    ensures reply == Invalid <==>
      (forall j :: j in m.State().queued ==> j.id != id) && (forall j :: j in m.State().stored ==> j.id != id)
    ensures reply != Invalid ==> exists j ::
      && j in m.State().queued + m.State().stored && j.id == id
      && (reply == NoReply <==> j.status == Running) && (reply == Ok ==> rc == j.rc)
  {
    var job := Lookup(m, id);
    if job == null {
      return Invalid, Failed;
    }
    assert job.pub in m.State().queued + m.State().stored;
    if job.pub.status == Running {
      return NoReply, Failed;
    }
    return Ok, job.pub.rc;
  }

  ghost function MarkCancelled(s: Jobs): Jobs
    requires s.stored != []
  {
    var last := |s.stored| - 1;
    s.(stored := s.stored[last := s.stored[last].(rc := Cancelled)])
  }

  method CancelQueued(m: JobManager, id: uint32) returns (reply: Reply, reset: Option<uint8>, start: Option<uint8>)
    requires m.Valid()
    requires forall n :: n in m.queued ==> n.pub.status != Idle
    modifies m, m.stored, m.queued
    ensures start == None
    ensures var k := Find(old(m.State()).queued, id);
      if k.None? then
        reply == Invalid && reset == None && m.State() == old(m.State()) && m.Valid()
      else
        var job := old(m.State()).queued[k.value];
        && reply == Ok && reset == (if job.status == Running then Some(job.core) else None)
        && (m.Valid() <==> k.value == 0)
        && (m.State() == if k.value == 0 then MarkCancelled(Remove(AsCoded, old(m.State()), 0))
                         else Remove(AsCoded, old(m.State()), k.value))
  {
    reset, start := None, None;
    var job, i := m.GetEnqueuedById(id);
    if job == null {
      return Invalid, None, None;
    }
    ghost var before := m.queued;
    var core := job.pub.core;
    if job.pub.status == Running {
      reset := Some(core);
    }
    var ok, k := m.RemoveFromQueue(job);
    SameIndex(before, k, i.value);
    if job.pub.status == Running {
      start := Some(core);
    }
    MarkJob(m, job, k > 0);
    reply := Ok;
  }

  lemma CancelledHead(s: Jobs)
    requires s.queued != []
    ensures var r := MarkCancelled(Remove(AsCoded, s, 0)); var job := s.queued[0];
      r.queued == s.queued[1..] && r.stored == s.stored + [Job(job.id, Idle, Cancelled, job.core)]
  {
  }

  /** Cancelling a running job resets its core, but the core is never restarted: the test for it reads
      the status after the removal has made it idle. */
  method JobCancel(m: JobManager, id: uint32) returns (reply: Reply, reset: Option<uint8>, start: Option<uint8>)
    requires m.Valid()
    requires forall n :: n in m.queued ==> n.pub.status != Idle
    modifies m, m.stored, m.queued
    ensures start == None
    ensures var k := Find(old(m.State()).queued, id);
      if k.None? then
        reply == Invalid && reset == None && m.State() == old(m.State()) && m.Valid()
      else
        var job := old(m.State()).queued[k.value];
        && reply == Ok && reset == (if job.status == Running then Some(job.core) else None)
        && (m.Valid() <==> k.value == 0)
        && (m.State() == if k.value == 0 then MarkCancelled(Remove(AsCoded, old(m.State()), 0))
                         else Remove(AsCoded, old(m.State()), k.value))
        && (k.value == 0 ==>
              && m.State().queued == old(m.State()).queued[1..]
              && m.State().stored == old(m.State()).stored + [Job(id, Idle, Cancelled, job.core)])
  {
    hide Remove, MarkCancelled;
    ghost var s := m.State();
    if s.queued != [] {
      CancelledHead(s);
    }
    reply, reset, start := CancelQueued(m, id);
  }

  /** Marks a job cancelled and idle; `lost` says that neither list holds it any more. */
  method MarkJob(m: JobManager, job: JobNode, ghost lost: bool)
    requires m.Linked() && job.pub.status == Idle && job !in m.queued
    requires if lost then job !in m.stored else Distinct(m.stored) && m.stored != [] && job == m.stored[|m.stored| - 1]
    modifies job`pub, m`storedPubs
    ensures m.Linked() && (m.Valid() <==> old(m.Valid()))
    ensures m.State() == if lost then old(m.State()) else MarkCancelled(old(m.State()))
  {
    job.pub := job.pub.(rc := Cancelled);
    job.pub := job.pub.(status := Idle);
    if !lost {
      m.storedPubs := MarkCancelled(m.State()).stored;
    }
  }

  /** A client that cancels the job at the queue's head and waits for it learns that it was cancelled. */
  method CancelThenWait(m: JobManager, id: uint32) returns (rc: Outcome)
    requires m.Valid() && forall n :: n in m.queued ==> n.pub.status != Idle
    requires m.State().queued != [] && m.State().queued[0].id == id
    requires forall i :: 1 <= i < |m.State().queued| ==> m.State().queued[i].id != id
    requires forall j :: j in m.State().stored ==> j.id != id
    modifies m, m.stored, m.queued
    ensures m.Valid() && rc == Cancelled
  {
    hide MarkCancelled, Remove;
    ghost var s := m.State();
    assert Find(s.queued, id) == Some(0);
    var cancelled, reset, start := JobCancel(m, id);
    var last := Job(id, Idle, Cancelled, s.queued[0].core);
    assert m.State().stored[|s.stored|] == last && last in m.State().stored;
    var reply;
    reply, rc := JobWait(m, id);
  }

  method JobRelease(m: JobManager, id: uint32) returns (reply: Reply)
    requires m.Valid()
    modifies m, m.stored, m.words
    ensures m.Valid()
    ensures var s := old(m.State()); var k := Find(s.stored, id);
      if Find(s.queued, id).Some? then
        reply == Busy && m.State() == s
      else if k.Some? && s.stored[k.value].status == Idle then
        reply == Ok && m.State() == Release(s, k.value)
      else
        reply == Invalid && m.State() == s
  {
    var job, i := m.GetEnqueuedById(id);
    if job != null {
      return Busy;
    }
    job, i := m.GetStoredById(id);
    if job == null {
      return Invalid;
    }
    var ok := ReleaseStored(m, job, i.value);
    return if ok then Ok else Invalid;
  }

  method ReleaseStored(m: JobManager, job: JobNode, ghost i: nat) returns (ok: bool)
    requires m.Valid() && i < |m.stored| && m.stored[i] == job
    modifies m, m.stored, m.words
    ensures m.Valid() && ok == (old(m.State()).stored[i].status == Idle)
    ensures m.State() == if ok then Release(old(m.State()), i) else old(m.State())
  {
    ghost var before := m.stored;
    ghost var k;
    ok, k := m.ReleaseJob(job);
    SameIndexIf(ok, before, k, i);
  }

  /** A successful list operation worked on the node the lookup found. */
  lemma SameIndexIf(ok: bool, s: seq<JobNode>, k: nat, i: nat)
    requires Distinct(s) && i < |s| && (ok ==> k < |s| && s[k] == s[i])
    ensures ok ==> k == i
  {
  }
}
