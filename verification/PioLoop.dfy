/** The port transfer's loops: they hand the controller's port one piece of the buffer after another,
    and the port answers how many bytes it moved. */
module PioLoop {
  datatype Segment = Segment(address: nat, count: nat)

  /** The addresses of `n` bytes. */
  function Span(address: nat, n: nat): seq<nat> {
    seq(n, k => address + k)
  }

  /** The addresses of a list of pieces, in order. */
  function Bytes(pieces: seq<Segment>): seq<nat> {
    if pieces == [] then []
    else Bytes(pieces[..|pieces| - 1]) + Span(pieces[|pieces| - 1].address, pieces[|pieces| - 1].count)
  }

  predicate NoneEmpty(sg: seq<Segment>) {
    forall e :: e in sg ==> e.count > 0
  }

  lemma BytesAppend(pieces: seq<Segment>, p: Segment)
    ensures Bytes(pieces + [p]) == Bytes(pieces) + Span(p.address, p.count)
  {
    assert (pieces + [p])[..|pieces|] == pieces;
  }

  lemma SpanAppend(address: nat, n: nat, m: nat)
    ensures Span(address, n) + Span(address + n, m) == Span(address, n + m)
  {
  }

  /** No segment with bytes lies behind an empty one. */
  predicate Compact(sg: seq<Segment>) {
    forall i, j :: 0 <= i < j < |sg| && sg[i].count == 0 ==> sg[j].count == 0
  }

  /** The first segments hold all the bytes exactly when the others are empty. */
  lemma {:induction false} BytesAllExactly(sg: seq<Segment>, n: nat)
    requires n <= |sg|
    ensures |Bytes(sg[..n])| == |Bytes(sg)| <==> forall j :: n <= j < |sg| ==> sg[j].count == 0
    decreases |sg| - n
  {
    if n == |sg| {
      assert sg[..n] == sg;
    } else {
      BytesAllExactly(sg, n + 1);
      BytesPrefix(sg, n + 1);
      BytesAppend(sg[..n], sg[n]);
      assert sg[..n + 1] == sg[..n] + [sg[n]];
    }
  }

  /** At the first empty segment: all the bytes are before it exactly when the list is compact. */
  lemma FirstEmpty(sg: seq<Segment>, n: nat)
    requires n < |sg| && NoneEmpty(sg[..n]) && sg[n].count == 0
    ensures Compact(sg) <==> forall j :: n <= j < |sg| ==> sg[j].count == 0
  {
    assert forall i :: 0 <= i < n ==> sg[i] == sg[..n][i] && sg[..n][i] in sg[..n];
  }

  lemma NoneEmptyNext(sg: seq<Segment>, n: nat)
    requires 0 < n <= |sg| && NoneEmpty(sg[..n - 1]) && sg[n - 1].count > 0
    ensures NoneEmpty(sg[..n]) && (n == |sg| ==> Compact(sg))
  {
    assert sg[..n] == sg[..n - 1] + [sg[n - 1]];
    assert forall i :: 0 <= i < n ==> sg[i] == sg[..n][i] && sg[..n][i] in sg[..n];
  }

  lemma EmptySpan(address: nat)
    ensures Span(address, 0) == []
  {
  }

  /** Some of the first calls were answered with zero. */
  predicate SomeZero(answers: nat -> nat, calls: nat) {
    exists j :: 0 <= j < calls && answers(j) == 0
  }

  /** The bytes of the first segments are the first bytes. */
  lemma {:induction false} BytesPrefix(sg: seq<Segment>, n: nat)
    requires n <= |sg|
    ensures Bytes(sg[..n]) <= Bytes(sg)
    ensures n < |sg| ==> Bytes(sg[..n]) + Span(sg[n].address, sg[n].count) <= Bytes(sg)
    decreases |sg| - n
  {
    if n == |sg| {
      assert sg[..n] == sg;
    } else {
      BytesPrefix(sg, n + 1);
      BytesAppend(sg[..n], sg[n]);
      assert sg[..n + 1] == sg[..n] + [sg[n]];
    }
  }

  /** The state of a port transfer; `moved` logs the pieces the port took. */
  class Transfer {
    var curSg: nat
    var offset: int
    var moved: seq<Segment>

    /** A transfer begins at the start of its first segment. */
    constructor ()
      ensures curSg == 0 && offset == 0 && moved == []
    {
      curSg, offset, moved := 0, 0, [];
    }

    /** The bytes taken so far are those of the segments before `sgi` and `offset` of its own. */
    ghost predicate At(sg: seq<Segment>, sgi: nat)
      reads this
    {
      && sgi < |sg| && 0 <= offset <= sg[sgi].count
      && Bytes(moved) == Bytes(sg[..sgi]) + Span(sg[sgi].address, offset)
    }

    lemma AtStart(sg: seq<Segment>)
      requires sg != [] && offset == 0 && moved == []
      ensures At(sg, 0) && |Bytes(moved)| == 0
    {
      assert sg[..0] == [];
    }

    lemma Behind(sg: seq<Segment>, sgi: nat)
      requires At(sg, sgi)
      ensures Bytes(moved) <= Bytes(sg)
      ensures offset < sg[sgi].count ==> |Bytes(moved)| < |Bytes(sg)|
      ensures offset == sg[sgi].count ==> Bytes(moved) == Bytes(sg[..sgi + 1])
    {
      BytesPrefix(sg, sgi);
      SpanAppend(sg[sgi].address, offset, sg[sgi].count - offset);
      assert sg[..sgi + 1] == sg[..sgi] + [sg[sgi]];
      BytesAppend(sg[..sgi], sg[sgi]);
    }

    /** Where nothing is moved, all is moved exactly when nothing was left of this segment and the list is
        compact. */
    lemma StopsExactly(sg: seq<Segment>, sgi: nat)
      requires At(sg, sgi) && NoneEmpty(sg[..sgi]) && (offset == sg[sgi].count ==> sg[sgi].count == 0)
      ensures Bytes(moved) == Bytes(sg) <==> offset == sg[sgi].count && Compact(sg)
    {
      Behind(sg, sgi);
      if offset == sg[sgi].count {
        EmptySpan(sg[sgi].address);
        BytesAllExactly(sg, sgi);
        FirstEmpty(sg, sgi);
      }
    }

    /** Logs one answered piece. */
    method Take(sg: seq<Segment>, sgi: nat, n: nat)
      requires At(sg, sgi) && 0 < n <= sg[sgi].count - offset
      modifies this`offset, this`moved
      ensures At(sg, sgi) && offset == old(offset) + n && |Bytes(moved)| == |Bytes(old(moved))| + n
    {
      var piece := Segment(sg[sgi].address + offset, n);
      BytesAppend(moved, piece);
      SpanAppend(sg[sgi].address, offset, n);
      moved := moved + [piece];
      offset := offset + n;
    }

    /** Moves a scatter list. The port answers `answers(k)` to call `k`, and never more than it was
        offered; moving nothing is taken as the end, whether the port refused the bytes or there were none
        to offer. So the bytes moved are always the first bytes of the list, in order, without gap or
        overlap; and they are all of them exactly when the port refused none and no segment with bytes lies
        behind an empty one. */
    method MoveScatter(sg: seq<Segment>, answers: nat -> nat) returns (refused: bool, calls: nat)
      requires sg != [] && curSg == 0 && offset == 0 && moved == []
      modifies this
      ensures offset == -1 && Bytes(moved) <= Bytes(sg)
      ensures Bytes(moved) == Bytes(sg) <==> !refused && Compact(sg)
      ensures refused ==> SomeZero(answers, calls)
      ensures NoneEmpty(sg) ==> (refused <==> SomeZero(answers, calls))
    {
      hide Bytes, Span;
      refused, calls := false, 0;
      var sgi: nat := curSg;
      AtStart(sg);
      while offset != -1
        invariant offset != -1 ==>
          At(sg, sgi) && !refused && (offset == sg[sgi].count ==> sg[sgi].count == 0) && NoneEmpty(sg[..sgi])
        invariant offset == -1 ==> Bytes(moved) <= Bytes(sg) && (Bytes(moved) == Bytes(sg) <==> !refused && Compact(sg))
        invariant refused ==> SomeZero(answers, calls)
        invariant NoneEmpty(sg) ==> (refused <==> SomeZero(answers, calls))
        invariant |Bytes(moved)| <= |Bytes(sg)|
        decreases |Bytes(sg)| - |Bytes(moved)|, if offset == -1 then 0 else 1
      {
        var left := sg[sgi].count - offset;
        var n := if answers(calls) < left then answers(calls) else left;
        calls := calls + 1;
        Behind(sg, sgi);
        if n == 0 {
          StopsExactly(sg, sgi);
          offset := -1;
          refused := left > 0;
          break;
        }
        Take(sg, sgi, n);
        Behind(sg, sgi);
        if offset == sg[sgi].count {
          sgi := sgi + 1;
          NoneEmptyNext(sg, sgi);
          if sgi >= |sg| {
            assert sg[..sgi] == sg;
            offset := -1;
          } else {
            offset := 0;
            EmptySpan(sg[sgi].address);
          }
        }
      }
      curSg := sgi;
    }
  }
}
