/** The DSP job manager on values: what every locked list operation does to the two lists, the
    per-core counters and the id generator. The heap lists in JobList are proved against it. */
module JobModel {
  import opened Words

  datatype Status = Idle | Enqueued | Running
  datatype Outcome = Failed | Cancelled | Success

  /** The public part of a job. */
  datatype Job = Job(id: uint32, status: Status, rc: Outcome, core: uint8)

  /** `words` is the memory from the manager's one block on: the maxima of `cores` cores, then their
      counters, then whatever lies past the block. */
  datatype Memory = Jobs(stored: seq<Job>, queued: seq<Job>, cores: nat, words: seq<uint32>, nextId: uint32)

  /** There is memory wherever a core number, which is a byte, makes the manager look. */
  predicate Mapped(s: Memory) {
    |s.words| >= 2 * s.cores && |s.words| >= s.cores + 0x100
  }

  type Jobs = s: Memory | Mapped(s) witness Jobs([], [], 0, seq(0x100, _ => 0), 0)

  /** Which job a removal from behind the queue's head puts into storage. The driver stores the
      predecessor of the removed job; storing the removed job itself is what its head case does. */
  datatype Policy = AsCoded | Repaired

  /** The maximum and the counter the code looks at for a core number, whether there is such a core or
      not. */
  function Max(s: Jobs, core: nat): uint32
    requires core < |s.words|
  {
    s.words[core]
  }

  function Cnt(s: Jobs, core: nat): uint32
    requires s.cores + core < |s.words|
  {
    s.words[s.cores + core]
  }

  /** No core of the block still counts a job: the handle is freed. */
  predicate Freed(s: Jobs) {
    forall c :: 0 <= c < s.cores ==> Cnt(s, c) == 0
  }

  predicate Vacant(s: Jobs, core: uint8) {
    Cnt(s, core) < Max(s, core)
  }

  function Zeros(n: nat): (s: seq<uint32>)
    ensures |s| == n && forall i :: 0 <= i < n ==> s[i] == 0
  {
    seq(n, _ => 0)
  }

  function SetCnt(s: Jobs, core: uint8, n: uint32): Jobs {
    s.(words := s.words[s.cores + core := n])
  }

  function SetMax(s: Jobs, core: uint8, n: uint32): Jobs {
    s.(words := s.words[core := n])
  }

  /** The index of the first job a list walk accepts, starting at `from`. */
  function FindFrom(js: seq<Job>, id: uint32, from: nat): (r: Option<nat>)
    requires from <= |js|
    ensures r.Some? ==> from <= r.value < |js| && js[r.value].id == id
    ensures r.Some? ==> forall i :: from <= i < r.value ==> js[i].id != id
    ensures r.None? ==> forall i :: from <= i < |js| ==> js[i].id != id
    decreases |js| - from
  {
    if from == |js| then None
    else if js[from].id == id then Some(from)
    else FindFrom(js, id, from + 1)
  }

  function Find(js: seq<Job>, id: uint32): Option<nat> {
    FindFrom(js, id, 0)
  }

  predicate Waiting(j: Job, core: int) {
    j.status == Enqueued && j.core == core
  }

  function FirstFrom(js: seq<Job>, core: int, from: nat): (r: Option<nat>)
    requires from <= |js|
    ensures r.Some? ==> from <= r.value < |js| && Waiting(js[r.value], core)
    ensures r.Some? ==> forall i :: from <= i < r.value ==> !Waiting(js[i], core)
    ensures r.None? ==> forall i :: from <= i < |js| ==> !Waiting(js[i], core)
    decreases |js| - from
  {
    if from == |js| then None
    else if Waiting(js[from], core) then Some(from)
    else FirstFrom(js, core, from + 1)
  }

  /** The oldest job waiting for a core. */
  function FirstEnqueued(js: seq<Job>, core: int): Option<nat> {
    FirstFrom(js, core, 0)
  }

  /** Storage marks a job idle only when it is not the first one. */
  function Put(stored: seq<Job>, job: Job): seq<Job> {
    if stored == [] then [job] else stored + [job.(status := Idle)]
  }

  function Create(s: Jobs, request: Job): Jobs
    requires Vacant(s, request.core)
  {
    SetCnt(s, request.core, Cnt(s, request.core) + 1).(
      stored := Put(s.stored, request.(id := s.nextId)), nextId := Inc32(s.nextId))
  }

  function Release(s: Jobs, k: nat): Jobs
    requires k < |s.stored|
  {
    var core := s.stored[k].core;
    SetCnt(s, core, Dec32(Cnt(s, core))).(stored := Without(s.stored, k))
  }

  function Enqueue(s: Jobs, k: nat): Jobs
    requires k < |s.stored|
  {
    s.(stored := Without(s.stored, k), queued := s.queued + [s.stored[k].(status := Enqueued)])
  }

  /** Takes the `k`-th job off the queue. Behind the head the driver cuts the queue after the
      predecessor and stores that predecessor, which stays in the queue as well. */
  function Remove(policy: Policy, s: Jobs, k: nat): Jobs
    requires k < |s.queued|
  {
    if k == 0 || policy == Repaired then
      s.(stored := Put(s.stored, s.queued[k].(status := Idle)), queued := Without(s.queued, k))
    else
      var stored := Put(s.stored, s.queued[k - 1]);
      s.(stored := stored, queued := s.queued[..k - 1] + [stored[|stored| - 1]])
  }

  function Start(s: Jobs, k: nat): Jobs
    requires k < |s.queued|
  {
    s.(queued := s.queued[k := s.queued[k].(status := Running)])
  }
}
