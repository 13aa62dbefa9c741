/** Facts about sequences of jobs: which ids they hold, how many belong to a core, which wait. */
module JobLists {
  import opened Words
  import opened JobModel

  ghost function Ids(js: seq<Job>): set<uint32> {
    set i | 0 <= i < |js| :: js[i].id
  }

  ghost predicate UniqueIds(js: seq<Job>) {
    forall i, j :: 0 <= i < j < |js| ==> js[i].id != js[j].id
  }

  ghost function CoreCount(js: seq<Job>, core: int): nat {
    if js == [] then 0
    else CoreCount(js[..|js| - 1], core) + if js[|js| - 1].core == core then 1 else 0
  }

  /** The ids waiting for a core, oldest first. */
  ghost function Pending(js: seq<Job>, core: int): seq<uint32> {
    if js == [] then []
    else Pending(js[..|js| - 1], core) + if Waiting(js[|js| - 1], core) then [js[|js| - 1].id] else []
  }

  lemma FindIsMembership(js: seq<Job>, id: uint32)
    ensures Find(js, id).Some? <==> id in Ids(js)
  {
    var k := Find(js, id);
    if k.Some? {
      assert js[k.value].id == id;
    }
  }

  lemma IdsAppend(js: seq<Job>, j: Job)
    ensures Ids(js + [j]) == Ids(js) + {j.id}
    ensures UniqueIds(js + [j]) <==> UniqueIds(js) && j.id !in Ids(js)
  {
    assert (js + [j])[|js|] == j;
    assert forall i :: 0 <= i < |js| ==> (js + [j])[i] == js[i];
    if UniqueIds(js + [j]) {
      assert forall i :: 0 <= i < |js| ==> (js + [j])[i].id != (js + [j])[|js|].id;
    }
  }

  lemma IdsWithout(js: seq<Job>, k: nat)
    requires k < |js| && UniqueIds(js)
    ensures UniqueIds(Without(js, k)) && Ids(Without(js, k)) == Ids(js) - {js[k].id}
  {
    forall id | id in Ids(js) - {js[k].id} ensures id in Ids(Without(js, k)) {
      var i :| 0 <= i < |js| && js[i].id == id;
      assert Without(js, k)[if i < k then i else i - 1].id == id;
    }
  }

  lemma IdsUpdate(js: seq<Job>, k: nat, j: Job)
    requires k < |js| && js[k].id == j.id && UniqueIds(js)
    ensures UniqueIds(js[k := j]) && Ids(js[k := j]) == Ids(js)
  {
    assert forall i :: 0 <= i < |js| ==> js[k := j][i].id == js[i].id;
  }

  lemma {:induction false} CoreCountConcat(a: seq<Job>, b: seq<Job>, core: int)
    ensures CoreCount(a + b, core) == CoreCount(a, core) + CoreCount(b, core)
    decreases |b|
  {
    if b == [] {
      assert a + b == a;
    } else {
      assert (a + b)[..|a + b| - 1] == a + b[..|b| - 1];
      CoreCountConcat(a, b[..|b| - 1], core);
    }
  }

  lemma CoreCountAppend(js: seq<Job>, j: Job, core: int)
    ensures CoreCount(js + [j], core) == CoreCount(js, core) + if j.core == core then 1 else 0
  {
    assert (js + [j])[..|js|] == js;
  }

  lemma CoreCountSplit(js: seq<Job>, k: nat, core: int)
    requires k < |js|
    ensures CoreCount(js, core) == CoreCount(Without(js, k), core) + if js[k].core == core then 1 else 0
  {
    assert js == js[..k] + [js[k]] + js[k + 1..];
    CoreCountConcat(js[..k] + [js[k]], js[k + 1..], core);
    CoreCountConcat(js[..k], [js[k]], core);
    CoreCountConcat(js[..k], js[k + 1..], core);
    assert CoreCount([js[k]], core) == if js[k].core == core then 1 else 0 by {
      assert [js[k]][..0] == [];
    }
  }

  lemma CoreCountUpdate(js: seq<Job>, k: nat, j: Job, core: int)
    requires k < |js| && js[k].core == j.core
    ensures CoreCount(js[k := j], core) == CoreCount(js, core)
  {
    CoreCountSplit(js, k, core);
    CoreCountSplit(js[k := j], k, core);
    assert Without(js[k := j], k) == Without(js, k);
  }

  lemma {:induction false} PendingConcat(a: seq<Job>, b: seq<Job>, core: int)
    ensures Pending(a + b, core) == Pending(a, core) + Pending(b, core)
    decreases |b|
  {
    if b == [] {
      assert a + b == a;
    } else {
      assert (a + b)[..|a + b| - 1] == a + b[..|b| - 1];
      PendingConcat(a, b[..|b| - 1], core);
    }
  }

  ghost function PendingOne(j: Job, core: int): seq<uint32> {
    if Waiting(j, core) then [j.id] else []
  }

  lemma PendingAppend(js: seq<Job>, j: Job, core: int)
    ensures Pending(js + [j], core) == Pending(js, core) + PendingOne(j, core)
  {
    assert (js + [j])[..|js|] == js;
  }

  lemma PendingSplit(js: seq<Job>, k: nat, core: int)
    requires k < |js|
    ensures Pending(js, core) == Pending(js[..k], core) + PendingOne(js[k], core) + Pending(js[k + 1..], core)
    ensures Pending(Without(js, k), core) == Pending(js[..k], core) + Pending(js[k + 1..], core)
  {
    assert js == js[..k] + [js[k]] + js[k + 1..];
    PendingConcat(js[..k] + [js[k]], js[k + 1..], core);
    PendingConcat(js[..k], [js[k]], core);
    PendingConcat(js[..k], js[k + 1..], core);
    assert [js[k]][..0] == [];
  }

  lemma {:induction false} NoneWaiting(js: seq<Job>, core: int)
    requires forall i :: 0 <= i < |js| ==> !Waiting(js[i], core)
    ensures Pending(js, core) == []
  {
    if js != [] {
      NoneWaiting(js[..|js| - 1], core);
    }
  }

  /** Starting a core's oldest waiting job takes exactly the head off the core's pending ids. */
  lemma StartTakesOldest(js: seq<Job>, core: int, other: int)
    requires FirstEnqueued(js, core).Some?
    ensures var k := FirstEnqueued(js, core).value;
      var started := js[k := js[k].(status := Running)];
      && Pending(js, core) == [js[k].id] + Pending(started, core)
      && (other != core ==> Pending(started, other) == Pending(js, other))
  {
    hide Pending;
    var k := FirstEnqueued(js, core).value;
    var started := js[k := js[k].(status := Running)];
    assert started[..k] == js[..k] && started[k + 1..] == js[k + 1..];
    PendingSplit(js, k, core);
    PendingSplit(started, k, core);
    PendingSplit(js, k, other);
    PendingSplit(started, k, other);
    NoneWaiting(js[..k], core);
    hide FirstEnqueued;
    Prepend(js[k].id, Pending(js[k + 1..], core));
  }

  lemma Prepend(id: uint32, rest: seq<uint32>)
    ensures [] + [id] + rest == [id] + rest && [] + [] + rest == rest
  {
  }

  /** `a` is obtained from `b` by deleting elements. */
  ghost predicate Subsequence<T(!new)>(a: seq<T>, b: seq<T>) {
    a == [] ||
    (b != [] &&
     ((a[|a| - 1] == b[|b| - 1] && Subsequence(a[..|a| - 1], b[..|b| - 1])) || Subsequence(a, b[..|b| - 1])))
  }

  lemma SubsequenceAppend<T(!new)>(a: seq<T>, b: seq<T>, x: T)
    requires Subsequence(a, b)
    ensures Subsequence(a + [x], b + [x])
  {
    assert (a + [x])[..|a|] == a && (b + [x])[..|b|] == b;
  }

  lemma {:induction false} SubsequenceDrop<T(!new)>(a: seq<T>, x: T, c: seq<T>, b: seq<T>)
    requires Subsequence(a + [x] + c, b)
    ensures Subsequence(a + c, b)
    decreases |b|
  {
    var s := a + [x] + c;
    var init := b[..|b| - 1];
    if s[|s| - 1] == b[|b| - 1] && Subsequence(s[..|s| - 1], init) {
      if c == [] {
        assert s[..|s| - 1] == a == a + c;
        SubsequenceWiden(a, init, b[|b| - 1]);
        assert init + [b[|b| - 1]] == b;
      } else {
        assert s[..|s| - 1] == a + [x] + c[..|c| - 1];
        SubsequenceDrop(a, x, c[..|c| - 1], init);
        assert (a + c)[..|a + c| - 1] == a + c[..|c| - 1];
      }
    } else {
      SubsequenceDrop(a, x, c, init);
    }
  }

  lemma SubsequenceWiden<T(!new)>(a: seq<T>, b: seq<T>, x: T)
    requires Subsequence(a, b)
    ensures Subsequence(a, b + [x])
  {
    assert (b + [x])[..|b|] == b;
  }
}
