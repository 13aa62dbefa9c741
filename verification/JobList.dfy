/** The two singly linked job lists of the DSP driver, relinked in place. A method is one critical
    section under the driver's mutex. */
module JobList {
  import opened Words
  import opened JobModel

  class JobNode {
    var pub: Job
    var next: JobNode?

    constructor (pub: Job)
      ensures this.pub == pub && next == null
    {
      this.pub := pub;
      next := null;
    }
  }

  /** `head` leads through exactly the nodes of `s`, in order, to `end`. */
  ghost predicate Segment(head: JobNode?, s: seq<JobNode>, end: JobNode?)
    reads s
  {
    && head == (if s == [] then end else s[0])
    && forall i {:trigger s[i].next} :: 0 <= i < |s| ==> s[i].next == if i + 1 < |s| then s[i + 1] else end
  }

  /** `head` is the null-terminated list of `s`. */
  ghost predicate Chain(head: JobNode?, s: seq<JobNode>)
    reads s
  {
    Segment(head, s, null)
  }

  lemma SegmentEnd(head: JobNode?, s: seq<JobNode>, n: JobNode, pubs: seq<Job>)
    requires Segment(head, s, n) && n.next == null && Shows(s, pubs)
    ensures Chain(head, s + [n]) && Shows(s + [n], pubs + [n.pub])
  {
  }

  ghost predicate Distinct<T>(s: seq<T>) {
    forall i, j :: 0 <= i < j < |s| ==> s[i] != s[j]
  }

  ghost predicate Disjoint<T>(s: seq<T>, t: seq<T>) {
    forall i, j :: 0 <= i < |s| && 0 <= j < |t| ==> s[i] != t[j]
  }

  lemma SharedNode<T>(s: seq<T>, t: seq<T>)
    requires s != [] && t != [] && s[|s| - 1] == t[|t| - 1]
    ensures !Disjoint(s, t)
  {
  }

  lemma DistinctWithout<T>(s: seq<T>, k: nat)
    requires k < |s| && Distinct(s)
    ensures Distinct(Without(s, k))
    ensures forall x :: x in Without(s, k) <==> x in s && x != s[k]
  {
    forall x | x in s && x != s[k] ensures x in Without(s, k) {
      var i :| 0 <= i < |s| && s[i] == x;
      assert Without(s, k)[if i < k then i else i - 1] == x;
    }
  }

  /** The nodes of `s` carry the public jobs `pubs`. */
  ghost predicate Shows(s: seq<JobNode>, pubs: seq<Job>)
    reads s
  {
    |s| == |pubs| && forall i :: 0 <= i < |s| ==> s[i].pub == pubs[i]
  }

  class JobManager {
    var storage: JobNode?
    var queue: JobNode?
    const cores: nat
    /** The block of maxima and counters, and what lies past it. */
    const words: array<uint32>
    var idGen: uint32
    ghost var stored: seq<JobNode>
    ghost var queued: seq<JobNode>
    ghost var storedPubs: seq<Job>
    ghost var queuedPubs: seq<Job>

    /** Each list pointer leads through its ghost list to null. */
    ghost predicate Linked()
      reads this, stored, queued
    {
      && Chain(storage, stored) && Shows(stored, storedPubs)
      && Chain(queue, queued) && Shows(queued, queuedPubs)
      && words.Length >= 2 * cores && words.Length >= cores + 0x100
    }

    /** The lists are acyclic and share no node. */
    ghost predicate Valid()
      reads this, stored, queued
    {
      Linked() && Distinct(stored) && Distinct(queued) && Disjoint(stored, queued)
    }

    ghost function State(): Jobs
      reads this, words
      requires words.Length >= 2 * cores && words.Length >= cores + 0x100
    {
      Jobs(storedPubs, queuedPubs, cores, words[..], idGen)
    }

    /** `past` is what memory holds behind the block. */
    constructor (coresNum: nat, past: seq<uint32>)
      requires |past| >= 0x100
      ensures Valid() && fresh(words)
      ensures State() == Jobs([], [], coresNum, Zeros(2 * coresNum) + past, 0)
    {
      storage, queue, idGen, stored, queued, storedPubs, queuedPubs := null, null, 0, [], [], [], [];
      cores := coresNum;
      var zeros := 2 * coresNum;
      words := new uint32[zeros + |past|]
        (i requires 0 <= i < zeros + |past| => if i < zeros then 0 else past[i - zeros]);
    }

    method SetCoreJobsMax(core: uint8, val: uint32)
      requires Valid()
      modifies words
      ensures Valid() && State() == SetMax(old(State()), core, val)
    {
      words[core] := val;
    }

    /** Whether the handle may be freed: no core of the block still counts a job. */
    method Fini() returns (freed: bool)
      requires Valid()
      ensures freed <==> Freed(State())
    {
      for it := 0 to cores
        invariant forall c :: 0 <= c < it ==> Cnt(State(), c) == 0
      {
        assert Cnt(State(), it) == words[cores + it];
        if words[cores + it] > 0 {
          return false;
        }
      }
      return true;
    }

    /** Appends to storage a node that storage does not hold; the queue may still reach it. */
    method PutToStorage(job: JobNode)
      requires Chain(storage, stored) && Shows(stored, storedPubs) && Distinct(stored) && job !in stored
      modifies this`storage, this`stored, this`storedPubs, job, stored
      ensures Chain(storage, stored) && Shows(stored, storedPubs) && Distinct(stored)
      ensures stored == old(stored) + [job] && storedPubs == Put(old(storedPubs), old(job.pub))
      ensures job.next == null
    {
      storedPubs := Put(storedPubs, job.pub);
      if storage == null {
        storage := job;
        job.next := null;
        stored := [job];
        return;
      }
      var tmp := storage;
      ghost var i := 0;
      while tmp.next != null
        invariant 0 <= i < |stored| && tmp == stored[i]
        decreases |stored| - i
      {
        tmp := tmp.next;
        i := i + 1;
      }
      tmp.next := job;
      job.next := null;
      job.pub := job.pub.(status := Idle);
      stored := stored + [job];
    }

    /** PutToStorage for a node on neither list. */
    method StoreUnlinked(job: JobNode)
      requires Valid() && job !in stored && job !in queued
      modifies this`storage, this`stored, this`storedPubs, stored, job
      ensures Valid() && stored == old(stored) + [job]
      ensures storedPubs == Put(old(storedPubs), old(job.pub))
    {
      assert forall i :: 0 <= i < |queued| ==> queued[i] !in stored && queued[i] != job;
      PutToStorage(job);
    }

    method AllocJob(request: Job, memory: bool) returns (job: JobNode?)
      requires Valid()
      modifies this, stored, words
      ensures Valid()
      ensures (job != null) <==> memory && Vacant(old(State()), request.core)
      ensures job == null ==> State() == old(State()) && stored == old(stored) && queued == old(queued)
      ensures job != null ==> fresh(job) && stored == old(stored) + [job] && queued == old(queued)
      ensures job != null ==> State() == Create(old(State()), request)
    {
      if !(words[cores + request.core] < words[request.core]) {
        return null;
      }
      if !memory {
        return null;
      }
      var node := new JobNode(request.(id := idGen));
      idGen := Inc32(idGen);
      words[cores + request.core] := words[cores + request.core] + 1;
      StoreUnlinked(node);
      return node;
    }

    method RemoveFromStorage(job: JobNode) returns (ok: bool, ghost k: nat)
      requires Valid()
      modifies this`storage, this`stored, this`storedPubs, stored
      ensures Valid() && ok == (job in old(stored)) && job.pub == old(job.pub)
      ensures !ok ==> stored == old(stored) && storedPubs == old(storedPubs)
      ensures ok ==> k < |old(stored)| && old(stored)[k] == job && job !in stored && job !in queued
      ensures ok ==> stored == Without(old(stored), k) && storedPubs == Without(old(storedPubs), k)
    {
      k := 0;
      if storage == null {
        return false, 0;
      }
      if storage == job {
        storage := job.next;
        DropStored(job, 0);
        return true, 0;
      }
      var tmp := storage;
      while tmp.next != null
        invariant k < |stored| && tmp == stored[k]
        invariant forall j :: 0 <= j <= k ==> stored[j] != job
        decreases |stored| - k
      {
        k := k + 1;
        if tmp.next == job {
          UnlinkStored(tmp, job, k);
          return true, k;
        }
        tmp := tmp.next;
      }
      return false, 0;
    }

    method UnlinkStored(tmp: JobNode, job: JobNode, ghost k: nat)
      requires Valid() && 0 < k < |stored| && tmp == stored[k - 1] && job == stored[k]
      modifies this`stored, this`storedPubs, tmp`next
      ensures Valid() && job !in stored && job !in queued
      ensures stored == Without(old(stored), k) && storedPubs == Without(old(storedPubs), k)
    {
      tmp.next := job.next;
      DropStored(job, k);
    }

    /** Restates the ghost lists once the links lead past the `k`-th stored node. */
    ghost method DropStored(job: JobNode, k: nat)
      requires Shows(stored, storedPubs) && Distinct(stored) && k < |stored| && stored[k] == job
      requires Disjoint(stored, queued) && Chain(storage, Without(stored, k))
      modifies this`stored, this`storedPubs
      ensures stored == Without(old(stored), k) && storedPubs == Without(old(storedPubs), k)
      ensures Chain(storage, stored) && Shows(stored, storedPubs) && Distinct(stored) && Disjoint(stored, queued)
      ensures job !in stored && job !in queued
    {
      DistinctWithout(stored, k);
      stored, storedPubs := Without(stored, k), Without(storedPubs, k);
    }

    method ReleaseJob(job: JobNode?) returns (ok: bool, ghost k: nat)
      requires Valid()
      modifies this`storage, this`stored, this`storedPubs, stored, words
      ensures Valid()
      ensures ok <==> job in old(stored) && old(job.pub.status) == Idle
      ensures !ok ==> State() == old(State()) && stored == old(stored)
      ensures ok ==> k < |old(stored)| && old(stored)[k] == job && stored == Without(old(stored), k)
      ensures ok ==> State() == Release(old(State()), k)
    {
      if job == null || job.pub.status != Idle {
        return false, 0;
      }
      ok, k := RemoveFromStorage(job);
      if ok {
        words[cores + job.pub.core] := Dec32(words[cores + job.pub.core]);
      }
    }

    method Enqueue(job: JobNode?) returns (ok: bool, ghost k: nat)
      requires Valid()
      modifies this, stored, queued
      ensures Valid()
      ensures ok <==> job in old(stored) && old(job.pub.status) == Idle
      ensures !ok ==> State() == old(State()) && stored == old(stored) && queued == old(queued)
      ensures ok ==> k < |old(stored)| && old(stored)[k] == job && stored == Without(old(stored), k)
      ensures ok ==> queued == old(queued) + [job] && State() == JobModel.Enqueue(old(State()), k)
    {
      if job == null || job.pub.status != Idle {
        return false, 0;
      }
      ok, k := RemoveFromStorage(job);
      if ok {
        AppendToQueue(job);
      }
    }

    method AppendToQueue(job: JobNode)
      requires Valid() && job !in stored && job !in queued
      modifies this`queue, this`queued, this`queuedPubs, job, queued
      ensures Valid() && queued == old(queued) + [job]
      ensures queuedPubs == old(queuedPubs) + [old(job.pub).(status := Enqueued)]
    {
      queuedPubs := queuedPubs + [job.pub.(status := Enqueued)];
      if queue == null {
        queue := job;
        job.next := null;
        job.pub := job.pub.(status := Enqueued);
        queued := [job];
        return;
      }
      var tmp := queue;
      ghost var i := 0;
      while tmp.next != null
        invariant 0 <= i < |queued| && tmp == queued[i]
        decreases |queued| - i
      {
        tmp := tmp.next;
        i := i + 1;
      }
      tmp.next := job;
      job.next := null;
      job.pub := job.pub.(status := Enqueued);
      queued := queued + [job];
    }

    /** As coded: behind the head the predecessor `tmp`, not the removed job, goes into storage. */
    method RemoveFromQueue(job: JobNode?) returns (ok: bool, ghost k: nat)
      requires Valid()
      requires job != null && job.pub.status != Idle ==> queue != null
      modifies this, stored, queued
      ensures ok <==> job in old(queued) && old(job.pub.status) != Idle
      ensures !ok ==> State() == old(State()) && stored == old(stored) && queued == old(queued)
      ensures ok ==> k < |old(queued)| && old(queued)[k] == job
      ensures ok ==> State() == Remove(AsCoded, old(State()), k)
      ensures ok && k == 0 ==> stored == old(stored) + [job] && queued == old(queued)[1..]
      ensures ok && k > 0 ==> stored == old(stored) + [old(queued)[k - 1]] && queued == old(queued)[..k]
      ensures ok ==> job.pub.status == Idle && job !in queued && (job in stored <==> k == 0)
      ensures Linked() && (Valid() <==> !ok || k == 0)
    {
      k := 0;
      if job == null || job.pub.status == Idle {
        return false, 0;
      }
      if queue == job {
        RemoveHead(job);
        return true, 0;
      }
      var tmp := queue;
      while tmp.next != null
        invariant k < |queued| && tmp == queued[k]
        invariant forall j :: 0 <= j <= k ==> queued[j] != job
        decreases |queued| - k
      {
        k := k + 1;
        if tmp.next == job {
          StorePredecessor(tmp, job, k);
          return true, k;
        }
        tmp := tmp.next;
      }
      return false, 0;
    }

    method RemoveHead(job: JobNode)
      requires Valid() && queue == job
      modifies this, stored, queued
      ensures Valid() && State() == Remove(AsCoded, old(State()), 0)
      ensures stored == old(stored) + [job] && queued == old(queued)[1..] && old(queued)[0] == job
      ensures job.pub.status == Idle && job !in queued && job in stored
    {
      UnlinkHead(job);
      StoreUnlinked(job);
      assert stored[|stored| - 1] == job;
    }

    method StorePredecessor(tmp: JobNode, job: JobNode, ghost k: nat)
      requires Valid() && 0 < k < |queued| && tmp == queued[k - 1] && job == queued[k]
      modifies this, stored, queued
      ensures Linked() && !Valid() && State() == Remove(AsCoded, old(State()), k)
      ensures stored == old(stored) + [tmp] && queued == old(queued)[..k]
      ensures job.pub.status == Idle && job !in queued && job !in stored
    {
      assert queued[..k] == queued[..k - 1] + [tmp];
      UnlinkAfter(tmp, job, k);
      StoreReachable(tmp);
      SharedNode(stored, queued);
    }

    method UnlinkHead(job: JobNode)
      requires Valid() && queue == job
      modifies this`queue, this`queued, this`queuedPubs, job`pub
      ensures Valid() && queued == old(queued)[1..] && queuedPubs == old(queuedPubs)[1..]
      ensures job !in stored && job !in queued && job == old(queued)[0]
      ensures job.pub == old(queuedPubs)[0].(status := Idle)
    {
      queue := job.next;
      queued, queuedPubs := queued[1..], queuedPubs[1..];
      job.pub := job.pub.(status := Idle);
    }

    /** The branch behind the head unlinks `job`. The queue then leads to `tmp` and past it; what lies
        past it is about to be cut off, so the ghost queue stops before `tmp`. */
    method UnlinkAfter(tmp: JobNode, job: JobNode, ghost k: nat)
      requires Valid() && 0 < k < |queued| && tmp == queued[k - 1] && job == queued[k]
      modifies this`queued, this`queuedPubs, tmp`next, job`pub
      ensures queued == old(queued)[..k - 1] && queuedPubs == old(queuedPubs)[..k - 1]
      ensures Segment(queue, queued, tmp) && Shows(queued, queuedPubs)
      ensures Chain(storage, stored) && Shows(stored, storedPubs)
      ensures Disjoint(stored, queued) && tmp !in stored && tmp !in queued
      ensures job.pub.status == Idle && job !in queued && job !in stored && tmp != job
      ensures tmp.pub == old(queuedPubs)[k - 1]
    {
      tmp.next := job.next;
      job.pub := job.pub.(status := Idle);
      queued, queuedPubs := queued[..k - 1], queuedPubs[..k - 1];
    }

    /** Storing the last node the queue reaches leaves it on both lists. */
    method StoreReachable(tmp: JobNode)
      requires Chain(storage, stored) && Shows(stored, storedPubs) && Distinct(stored)
      requires Segment(queue, queued, tmp) && Shows(queued, queuedPubs)
      requires Disjoint(stored, queued) && tmp !in stored && tmp !in queued
      requires words.Length >= 2 * cores && words.Length >= cores + 0x100
      modifies this`storage, this`stored, this`queued, this`storedPubs, this`queuedPubs, stored, tmp
      ensures Linked() && stored == old(stored) + [tmp] && queued == old(queued) + [tmp]
      ensures storedPubs == Put(old(storedPubs), old(tmp.pub))
      ensures queuedPubs == old(queuedPubs) + [storedPubs[|storedPubs| - 1]]
    {
      assert forall i :: 0 <= i < |queued| ==> queued[i] !in stored && queued[i] != tmp;
      PutToStorage(tmp);
      SegmentEnd(queue, queued, tmp, queuedPubs);
      queued, queuedPubs := queued + [tmp], queuedPubs + [tmp.pub];
    }

    method GetJobFirstEnqueued(core: uint8) returns (job: JobNode?)
      requires Valid()
      ensures var k := FirstEnqueued(State().queued, core);
        job == if k.Some? then queued[k.value] else null
    {
      var tmp := queue;
      ghost var i := 0;
      while tmp != null
        invariant 0 <= i <= |queued| && tmp == (if i < |queued| then queued[i] else null)
        invariant FirstEnqueued(State().queued, core) == FirstFrom(State().queued, core, i)
        decreases |queued| - i
      {
        if tmp.pub.status == Enqueued && tmp.pub.core == core {
          return tmp;
        }
        tmp := tmp.next;
        i := i + 1;
      }
      return null;
    }

    method GetEnqueuedById(id: uint32) returns (job: JobNode?, ghost k: Option<nat>)
      requires Valid()
      ensures k == Find(State().queued, id)
      ensures
        var f := Find(State().queued, id);
        if f.None? then job == null
        else f.value < |queued| && job == queued[f.value] && job.pub == State().queued[f.value]
    {
      job, k := SearchById(queue, queued, queuedPubs, id);
    }

    method GetStoredById(id: uint32) returns (job: JobNode?, ghost k: Option<nat>)
      requires Valid()
      ensures k == Find(State().stored, id)
      ensures
        var f := Find(State().stored, id);
        if f.None? then job == null
        else f.value < |stored| && job == stored[f.value] && job.pub == State().stored[f.value]
    {
      job, k := SearchById(storage, stored, storedPubs, id);
    }
  }

  method SearchById(head: JobNode?, ghost s: seq<JobNode>, ghost pubs: seq<Job>, id: uint32)
    returns (job: JobNode?, ghost k: Option<nat>)
    requires Chain(head, s) && Shows(s, pubs)
    ensures k == Find(pubs, id)
    ensures
      var f := Find(pubs, id);
      if f.None? then job == null else f.value < |s| && job == s[f.value]
  {
    if head == null {
      return null, None;
    }
    var tmp := head;
    if tmp.pub.id == id {
      return tmp, Some(0);
    }
    ghost var i := 0;
    while tmp.next != null
      invariant 0 <= i < |s| && tmp == s[i]
      invariant Find(pubs, id) == FindFrom(pubs, id, i + 1)
      decreases |s| - i
    {
      tmp := tmp.next;
      i := i + 1;
      if tmp.pub.id == id {
        return tmp, Some(i);
      }
    }
    return null, None;
  }

  lemma SameIndex<T>(s: seq<T>, i: nat, j: nat)
    requires Distinct(s) && i < |s| && j < |s| && s[i] == s[j]
    ensures i == j
  {
  }
}
