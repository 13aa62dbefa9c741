/** The serial driver's interrupt index on values: the attached devices grouped by interrupt. The heap
    lists in IrqIndex are proved against it. */
module IrqModel {
  import opened Words

  datatype Group<D> = Group(irq: int, devs: seq<D>)

  type Index<D> = seq<Group<D>>

  ghost predicate Has<D>(ix: Index<D>, d: D) {
    exists i :: 0 <= i < |ix| && d in ix[i].devs
  }

  ghost predicate HasIrq<D>(ix: Index<D>, irq: int) {
    exists i :: 0 <= i < |ix| && ix[i].irq == irq
  }

  ghost predicate NoRepeats<D>(devs: seq<D>) {
    forall i, j :: 0 <= i < j < |devs| ==> devs[i] != devs[j]
  }

  ghost predicate Apart<D>(a: seq<D>, b: seq<D>) {
    forall d :: d in a ==> d !in b
  }

  /** Groups are non-empty, carry distinct interrupts, and no device occurs twice. */
  ghost predicate WellFormed<D>(ix: Index<D>) {
    && (forall i :: 0 <= i < |ix| ==> ix[i].devs != [] && NoRepeats(ix[i].devs))
    && (forall i, j :: 0 <= i < j < |ix| ==> ix[i].irq != ix[j].irq)
    && (forall i, j :: 0 <= i < j < |ix| ==> Apart(ix[i].devs, ix[j].devs))
  }

  function Position<D>(ix: Index<D>, irq: int): (p: nat)
    ensures p <= |ix|
    ensures forall i :: 0 <= i < p ==> ix[i].irq != irq
    ensures p < |ix| ==> ix[p].irq == irq
  {
    if ix == [] || ix[0].irq == irq then 0 else 1 + Position(ix[1..], irq)
  }

  /** A new device goes to the front of its interrupt's group, a new interrupt to the end. */
  function Attach<D>(ix: Index<D>, d: D, irq: int): Index<D> {
    var p := Position(ix, irq);
    if p < |ix| then ix[p := Group(irq, [d] + ix[p].devs)] else ix + [Group(irq, [d])]
  }

  function Minus<D(==)>(devs: seq<D>, d: D): seq<D> {
    if devs == [] then [] else if devs[0] == d then devs[1..] else [devs[0]] + Minus(devs[1..], d)
  }

  function Detach<D(==)>(ix: Index<D>, d: D, irq: int): Index<D> {
    var p := Position(ix, irq);
    if p == |ix| then ix
    else if Minus(ix[p].devs, d) == [] then ix[..p] + ix[p + 1..]
    else ix[p := Group(irq, Minus(ix[p].devs, d))]
  }

  lemma {:induction false} MinusAt<D>(devs: seq<D>, d: D, k: nat)
    requires NoRepeats(devs) && k < |devs| && devs[k] == d
    ensures Minus(devs, d) == devs[..k] + devs[k + 1..]
  {
    if k > 0 {
      assert devs[1..][k - 1] == d;
      MinusAt(devs[1..], d, k - 1);
      assert devs[1..][..k - 1] == devs[1..k] && devs[1..][k..] == devs[k + 1..];
    }
  }

  lemma {:induction false} MinusAbsent<D>(devs: seq<D>, d: D)
    requires d !in devs
    ensures Minus(devs, d) == devs
  {
    if devs != [] {
      MinusAbsent(devs[1..], d);
    }
  }

  lemma MinusKeeps<D>(devs: seq<D>, d: D)
    requires NoRepeats(devs)
    ensures NoRepeats(Minus(devs, d)) && forall x :: x in Minus(devs, d) <==> x in devs && x != d
  {
    if d in devs {
      var k :| 0 <= k < |devs| && devs[k] == d;
      MinusAt(devs, d, k);
      forall x | x in devs && x != d ensures x in Minus(devs, d) {
        var i :| 0 <= i < |devs| && devs[i] == x;
        assert Minus(devs, d)[if i < k then i else i - 1] == x;
      }
    } else {
      MinusAbsent(devs, d);
    }
  }

  /** The interrupt's position is the only index that carries it. */
  lemma PositionUnique<D>(ix: Index<D>, i: nat)
    requires WellFormed(ix) && i < |ix|
    ensures Position(ix, ix[i].irq) == i
  {
    assert Position(ix, ix[i].irq) <= i;
  }

  /** Attaching a device that is not attached adds it, to its own interrupt's group only. */
  lemma AttachKeeps<D>(ix: Index<D>, d: D, irq: int)
    requires WellFormed(ix) && !Has(ix, d)
    ensures var ix' := Attach(ix, d, irq);
      && WellFormed(ix')
      && (forall i :: 0 <= i < |ix'| ==> (d in ix'[i].devs <==> ix'[i].irq == irq))
      && HasIrq(ix', irq)
      && forall x :: x != d ==> (Has(ix', x) <==> Has(ix, x))
    ensures var ix' := Attach(ix, d, irq);
      && |ix'| == (if HasIrq(ix, irq) then |ix| else |ix| + 1)
      && (forall i :: 0 <= i < |ix| ==> ix'[i].irq == ix[i].irq)
      && (forall i :: 0 <= i < |ix| ==> ix'[i].devs == if ix[i].irq == irq then [d] + ix[i].devs else ix[i].devs)
      && (!HasIrq(ix, irq) ==> ix'[|ix|] == Group(irq, [d]))
  {
    var p := Position(ix, irq);
    var ix' := Attach(ix, d, irq);
    assert forall i :: 0 <= i < |ix| && i != p ==> ix'[i] == ix[i];
    assert ix'[p].irq == irq && d in ix'[p].devs;
    assert forall x :: x in ix'[p].devs <==> x == d || (p < |ix| && x in ix[p].devs);
    forall i, j | 0 <= i < j < |ix'| ensures ix'[i].irq != ix'[j].irq && Apart(ix'[i].devs, ix'[j].devs) {
      assert i < |ix|;
    }
    forall x | x != d ensures Has(ix', x) <==> Has(ix, x) {
      if Has(ix, x) {
        var i :| 0 <= i < |ix| && x in ix[i].devs;
        assert x in ix'[i].devs;
      }
    }
  }

  /** Detaching removes just that device, and its interrupt's group with the last of its devices. */
  lemma DetachKeeps<D>(ix: Index<D>, d: D, irq: int)
    requires WellFormed(ix) && forall i :: 0 <= i < |ix| ==> (d in ix[i].devs ==> ix[i].irq == irq)
    ensures var ix' := Detach(ix, d, irq);
      && WellFormed(ix') && !Has(ix', d)
      && (forall x :: x != d ==> (Has(ix', x) <==> Has(ix, x)))
      && (forall q :: q != irq ==> (HasIrq(ix', q) <==> HasIrq(ix, q)))
      && (HasIrq(ix', irq) <==> exists i :: 0 <= i < |ix| && ix[i].irq == irq && ix[i].devs != [d])
  {
    DetachWellFormed(ix, d, irq);
    DetachKeepsIrq(ix, d, irq);
    forall x | x != d ensures Has(Detach(ix, d, irq), x) <==> Has(ix, x) {
      DetachHas(ix, d, irq, x);
    }
    forall q | q != irq ensures HasIrq(Detach(ix, d, irq), q) <==> HasIrq(ix, q) {
      DetachHasIrq(ix, d, irq, q);
    }
  }

  /** What each group of the detached index was before. */
  lemma DetachGroups<D>(ix: Index<D>, d: D, irq: int)
    requires WellFormed(ix) && Position(ix, irq) < |ix|
    ensures var p := Position(ix, irq); var ix' := Detach(ix, d, irq);
      if ix[p].devs == [d] then
        |ix'| == |ix| - 1 && forall i :: 0 <= i < |ix'| ==> ix'[i] == ix[if i < p then i else i + 1]
      else
        && |ix'| == |ix| && ix'[p].irq == irq && ix'[p].devs != [] && NoRepeats(ix'[p].devs)
        && (forall x :: x in ix'[p].devs <==> x in ix[p].devs && x != d)
        && forall i :: 0 <= i < |ix| && i != p ==> ix'[i] == ix[i]
  {
    var p, ix' := Position(ix, irq), Detach(ix, d, irq);
    OnlyDevice(ix[p].devs, d);
    if ix[p].devs == [d] {
      assert ix' == ix[..p] + ix[p + 1..];
    } else {
      MinusKeeps(ix[p].devs, d);
      assert ix' == ix[p := Group(irq, Minus(ix[p].devs, d))];
    }
  }

  lemma DetachWellFormed<D>(ix: Index<D>, d: D, irq: int)
    requires WellFormed(ix) && forall i :: 0 <= i < |ix| ==> (d in ix[i].devs ==> ix[i].irq == irq)
    ensures WellFormed(Detach(ix, d, irq)) && !Has(Detach(ix, d, irq), d)
  {
    var p := Position(ix, irq);
    if p < |ix| {
      var ix' := Detach(ix, d, irq);
      DetachGroups(ix, d, irq);
      assert forall i :: 0 <= i < |ix| && i != p ==> ix[i].irq != irq && d !in ix[i].devs;
      if ix[p].devs == [d] {
        assert ix' == ix[..p] + ix[p + 1..];
        GroupDropped(ix, p);
      } else {
        assert ix' == ix[p := Group(ix[p].irq, ix'[p].devs)];
        ShrunkSubset(ix[p].devs, ix'[p].devs, d);
        GroupShrunk(ix, p, ix'[p].devs);
      }
    }
  }

  lemma GroupDropped<D>(ix: Index<D>, p: nat)
    requires WellFormed(ix) && p < |ix|
    ensures WellFormed(ix[..p] + ix[p + 1..])
  {
    var ix' := ix[..p] + ix[p + 1..];
    forall i, j | 0 <= i < j < |ix'| ensures ix'[i].irq != ix'[j].irq && Apart(ix'[i].devs, ix'[j].devs) {
      var i0, j0 := if i < p then i else i + 1, if j < p then j else j + 1;
      assert ix'[i] == ix[i0] && ix'[j] == ix[j0];
    }
  }

  ghost predicate Within<D>(rest: seq<D>, devs: seq<D>) {
    forall x :: x in rest ==> x in devs
  }

  lemma ShrunkSubset<D>(devs: seq<D>, rest: seq<D>, d: D)
    requires forall x :: x in rest <==> x in devs && x != d
    ensures Within(rest, devs)
  {
  }

  lemma GroupShrunk<D>(ix: Index<D>, p: nat, rest: seq<D>)
    requires WellFormed(ix) && p < |ix| && rest != [] && NoRepeats(rest)
    requires Within(rest, ix[p].devs)
    ensures WellFormed(ix[p := Group(ix[p].irq, rest)])
  {
    var ix' := ix[p := Group(ix[p].irq, rest)];
    forall i, j | 0 <= i < j < |ix'| ensures ix'[i].irq != ix'[j].irq && Apart(ix'[i].devs, ix'[j].devs) {
      assert Apart(ix[i].devs, ix[j].devs);
    }
  }

  lemma OneGroup<D>(ix: Index<D>, i: nat, j: nat, d: D)
    requires WellFormed(ix) && i < |ix| && j < |ix| && d in ix[i].devs && d in ix[j].devs
    ensures i == j
  {
    assert i < j ==> Apart(ix[i].devs, ix[j].devs);
    assert j < i ==> Apart(ix[j].devs, ix[i].devs);
  }

  lemma DetachKeepsIrq<D>(ix: Index<D>, d: D, irq: int)
    requires WellFormed(ix)
    ensures HasIrq(Detach(ix, d, irq), irq) <==> exists i :: 0 <= i < |ix| && ix[i].irq == irq && ix[i].devs != [d]
  {
    var p := Position(ix, irq);
    if p < |ix| {
      DetachGroups(ix, d, irq);
      assert forall i :: 0 <= i < |ix| && i != p ==> ix[i].irq != irq;
    }
  }

  lemma OnlyDevice<D>(devs: seq<D>, d: D)
    requires NoRepeats(devs) && devs != []
    ensures Minus(devs, d) == [] <==> devs == [d]
  {
    MinusKeeps(devs, d);
    assert devs[0] in devs && (|devs| > 1 ==> devs[1] in devs && devs[1] != devs[0]);
  }

  /** Where a group of `ix` is in `ix'`, which may lack the group at `p`, and back. */
  ghost function Later<D>(ix: Index<D>, ix': Index<D>, p: nat, i: nat): int {
    if |ix'| < |ix| && i > p then i - 1 else i
  }

  ghost function Earlier<D>(ix: Index<D>, ix': Index<D>, p: nat, i: nat): nat {
    if |ix'| < |ix| && i >= p then i + 1 else i
  }

  lemma DetachHas<D>(ix: Index<D>, d: D, irq: int, x: D)
    requires WellFormed(ix) && x != d
    ensures Has(Detach(ix, d, irq), x) <==> Has(ix, x)
  {
    if Has(ix, x) {
      DetachLeaves(ix, d, irq, x);
    }
    if Has(Detach(ix, d, irq), x) {
      DetachAddsNothing(ix, d, irq, x);
    }
  }

  lemma DetachLeaves<D>(ix: Index<D>, d: D, irq: int, x: D)
    requires WellFormed(ix) && x != d && Has(ix, x)
    ensures Has(Detach(ix, d, irq), x)
  {
    var p, ix' := Position(ix, irq), Detach(ix, d, irq);
    if p < |ix| {
      DetachGroups(ix, d, irq);
      var i :| 0 <= i < |ix| && x in ix[i].devs;
      assert x in ix'[Later(ix, ix', p, i)].devs;
    }
  }

  lemma DetachAddsNothing<D>(ix: Index<D>, d: D, irq: int, x: D)
    requires WellFormed(ix) && Has(Detach(ix, d, irq), x)
    ensures Has(ix, x)
  {
    var p, ix' := Position(ix, irq), Detach(ix, d, irq);
    if p < |ix| {
      DetachGroups(ix, d, irq);
      var i :| 0 <= i < |ix'| && x in ix'[i].devs;
      assert x in ix[Earlier(ix, ix', p, i)].devs;
    }
  }

  lemma DetachHasIrq<D>(ix: Index<D>, d: D, irq: int, q: int)
    requires WellFormed(ix) && q != irq
    ensures HasIrq(Detach(ix, d, irq), q) <==> HasIrq(ix, q)
  {
    var p, ix' := Position(ix, irq), Detach(ix, d, irq);
    if p < |ix| {
      DetachGroups(ix, d, irq);
      forall i | 0 <= i < |ix| && ix[i].irq == q ensures HasIrq(ix', q) {
        assert ix'[Later(ix, ix', p, i)].irq == q;
      }
      forall i | 0 <= i < |ix'| && ix'[i].irq == q ensures HasIrq(ix, q) {
        assert ix[Earlier(ix, ix', p, i)].irq == q;
      }
    }
  }

  /** Detaching what was just attached restores the index, order included. */
  lemma DetachUndoesAttach<D>(ix: Index<D>, d: D, irq: int)
    requires WellFormed(ix) && !Has(ix, d)
    ensures Detach(Attach(ix, d, irq), d, irq) == ix
  {
    var p := Position(ix, irq);
    var ix' := Attach(ix, d, irq);
    AttachPosition(ix, d, irq);
    assert ix'[p].devs == [d] + if p < |ix| then ix[p].devs else [];
    MinusFirst(d, if p < |ix| then ix[p].devs else []);
    assert p < |ix| ==> ix'[p := ix[p]] == ix;
    assert p == |ix| ==> ix'[..p] + ix'[p + 1..] == ix;
  }

  lemma MinusFirst<D>(d: D, devs: seq<D>)
    ensures Minus([d] + devs, d) == devs
  {
  }

  lemma AttachPosition<D>(ix: Index<D>, d: D, irq: int)
    ensures Position(Attach(ix, d, irq), irq) == Position(ix, irq)
  {
    var p, q := Position(ix, irq), Position(Attach(ix, d, irq), irq);
    assert forall i :: 0 <= i < p ==> Attach(ix, d, irq)[i] == ix[i];
    assert Attach(ix, d, irq)[p].irq == irq;
  }

  // ----- termination of the search -----

  /** One round of the outer search loop from the list at `at`; None ends the search. When the list is
      the device's interrupt's but lacks the device, the round changes nothing. */
  function Round<D(==)>(ix: Index<D>, d: D, irq: int, at: Option<nat>): Option<nat> {
    if at.None? || at.value >= |ix| then None
    else if ix[at.value].irq == irq then if d in ix[at.value].devs then None else at
    else Some(at.value + 1)
  }

  function Rounds<D(==)>(ix: Index<D>, d: D, irq: int, at: Option<nat>, n: nat): Option<nat>
    decreases n
  {
    if n == 0 then at else Rounds(ix, d, irq, Round(ix, d, irq, at), n - 1)
  }

  ghost predicate Present<D>(ix: Index<D>, d: D, irq: int) {
    forall i :: 0 <= i < |ix| && ix[i].irq == irq ==> d in ix[i].devs
  }

  /** The search ends exactly when the device's interrupt has no list or its list has the device. */
  lemma SearchEnds<D>(ix: Index<D>, d: D, irq: int)
    requires WellFormed(ix)
    ensures (exists n: nat :: Rounds(ix, d, irq, Some(0), n) == None) <==> Present(ix, d, irq)
  {
    var p := Position(ix, irq);
    if Present(ix, d, irq) {
      SearchReaches(ix, d, irq, 0);
    } else {
      forall n: nat ensures Rounds(ix, d, irq, Some(0), n) != None {
        SearchStuck(ix, d, irq, 0, n);
      }
    }
  }

  lemma {:induction false} SearchReaches<D>(ix: Index<D>, d: D, irq: int, at: nat)
    requires Present(ix, d, irq) && at <= |ix|
    ensures exists n: nat :: Rounds(ix, d, irq, Some(at), n) == None
    decreases |ix| - at
  {
    var next := Round(ix, d, irq, Some(at));
    if next.None? {
      assert Rounds(ix, d, irq, next, 0) == None;
      assert Rounds(ix, d, irq, Some(at), 1) == None;
    } else {
      SearchReaches(ix, d, irq, at + 1);
      var n: nat :| Rounds(ix, d, irq, Some(at + 1), n) == None;
      assert Rounds(ix, d, irq, Some(at), n + 1) == None;
    }
  }

  lemma {:induction false} SearchStuck<D>(ix: Index<D>, d: D, irq: int, at: nat, n: nat)
    requires WellFormed(ix) && !Present(ix, d, irq) && at <= Position(ix, irq)
    ensures Rounds(ix, d, irq, Some(at), n) != None
    decreases n
  {
    var p := Position(ix, irq);
    var i :| 0 <= i < |ix| && ix[i].irq == irq && d !in ix[i].devs;
    PositionUnique(ix, i);
    if n > 0 {
      SearchStuck(ix, d, irq, if at == p then at else at + 1, n - 1);
    }
  }

  // ----- runs -----

  datatype Event<D> = Enable(d: D, irq: int, memory: bool) | Disable(d: D, irq: int)

  /** Attach needs memory only for a new list. */
  function Step<D(==)>(ix: Index<D>, e: Event<D>): Index<D> {
    match e
    case Enable(d, irq, memory) =>
      if memory || Position(ix, irq) < |ix| then Attach(ix, d, irq) else ix
    case Disable(d, irq) => Detach(ix, d, irq)
  }

  /** Only a detached device is attached; a device is detached under the interrupt it is attached to,
      or under one that has no list. */
  ghost predicate Proper<D>(ix: Index<D>, e: Event<D>) {
    match e
    case Enable(d, _, _) => !Has(ix, d)
    case Disable(d, irq) => Present(ix, d, irq) && (Has(ix, d) ==> HasIrq(ix, irq))
  }

  ghost predicate ProperRun<D>(ix: Index<D>, es: seq<Event<D>>)
    decreases |es|
  {
    es == [] || (Proper(ix, es[0]) && ProperRun(Step(ix, es[0]), es[1..]))
  }

  function Run<D(==)>(ix: Index<D>, es: seq<Event<D>>): Index<D>
    decreases |es|
  {
    if es == [] then ix else Run(Step(ix, es[0]), es[1..])
  }

  lemma ProperDisable<D>(ix: Index<D>, d: D, irq: int)
    requires WellFormed(ix) && Proper(ix, Disable(d, irq))
    ensures forall i :: 0 <= i < |ix| ==> (d in ix[i].devs ==> ix[i].irq == irq)
  {
    forall i | 0 <= i < |ix| && d in ix[i].devs ensures ix[i].irq == irq {
      assert Has(ix, d);
      var j :| 0 <= j < |ix| && ix[j].irq == irq;
      OneGroup(ix, i, j, d);
    }
  }

  lemma {:induction false} RunKeeps<D>(ix: Index<D>, es: seq<Event<D>>)
    requires WellFormed(ix) && ProperRun(ix, es)
    ensures WellFormed(Run(ix, es))
    decreases |es|
  {
    if es != [] {
      match es[0] {
        case Enable(d, irq, memory) =>
          AttachKeeps(ix, d, irq);
        case Disable(d, irq) =>
          ProperDisable(ix, d, irq);
          DetachKeeps(ix, d, irq);
      }
      RunKeeps(Step(ix, es[0]), es[1..]);
    }
  }
}
