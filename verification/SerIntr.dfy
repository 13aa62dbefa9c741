/** The serial interrupt handler of one interrupt: it polls its devices until none has a cause, and
    appends each device that needs service to the shared event array once. */
module SerIntr {
  import opened IrqModel

  type Dev = nat

  /** What polling one device finds: no cause, or a cause that does or does not need service. */
  datatype Cause = Nothing | Happened(status: bool)

  /** The queue after one pass over the devices: those that need service and are not queued, in order. */
  function Pass(queue: seq<Dev>, devs: seq<Dev>, causes: seq<Cause>): seq<Dev>
    requires |causes| == |devs|
    decreases |devs|
  {
    if devs == [] then queue
    else
      var last := |devs| - 1;
      var q := Pass(queue, devs[..last], causes[..last]);
      if causes[last] == Happened(true) && devs[last] !in q then q + [devs[last]] else q
  }

  predicate Quiet(causes: seq<Cause>) {
    forall c :: c in causes ==> c == Nothing
  }

  /** Passes repeat until one finds no cause. */
  function Passes(queue: seq<Dev>, devs: seq<Dev>, rounds: seq<seq<Cause>>): seq<Dev>
    requires forall r :: r in rounds ==> |r| == |devs|
    decreases |rounds|
  {
    if rounds == [] || Quiet(rounds[0]) then queue
    else Passes(Pass(queue, devs, rounds[0]), devs, rounds[1..])
  }

  /** The device needed service in the pass. */
  predicate Served(devs: seq<Dev>, causes: seq<Cause>, d: Dev)
    requires |causes| == |devs|
  {
    exists k :: 0 <= k < |devs| && devs[k] == d && causes[k] == Happened(true)
  }

  /** A pass queues exactly the devices that need service, none of them twice, behind what is queued. */
  lemma {:induction false} PassQueues(queue: seq<Dev>, devs: seq<Dev>, causes: seq<Cause>)
    requires |causes| == |devs| && NoRepeats(queue)
    ensures var q := Pass(queue, devs, causes);
      && NoRepeats(q) && queue <= q
      && forall d :: d in q <==> d in queue || Served(devs, causes, d)
    decreases |devs|
  {
    if devs != [] {
      var last := |devs| - 1;
      PassQueues(queue, devs[..last], causes[..last]);
      var q, q0 := Pass(queue, devs, causes), Pass(queue, devs[..last], causes[..last]);
      forall d ensures d in q <==> d in queue || Served(devs, causes, d) {
        if d in q0 && d !in queue {
          var k :| 0 <= k < last && devs[..last][k] == d && causes[..last][k] == Happened(true);
          assert devs[k] == d && causes[k] == Happened(true);
        }
        if k :| 0 <= k < |devs| && devs[k] == d && causes[k] == Happened(true) {
          assert k < last ==> devs[..last][k] == d && causes[..last][k] == Happened(true);
        }
      }
    }
  }

  /** The passes of one interrupt: only the last finds nothing. */
  predicate Polled(devs: seq<Dev>, rounds: seq<seq<Cause>>) {
    && rounds != [] && (forall r :: r in rounds ==> |r| == |devs|)
    && forall r :: 0 <= r < |rounds| ==> (Quiet(rounds[r]) <==> r == |rounds| - 1)
  }

  /** All the passes of an interrupt together queue exactly the devices that needed service in some pass. */
  lemma {:induction false} PassesQueue(queue: seq<Dev>, devs: seq<Dev>, rounds: seq<seq<Cause>>)
    requires Polled(devs, rounds) && NoRepeats(queue)
    ensures var q := Passes(queue, devs, rounds);
      && NoRepeats(q) && queue <= q
      && forall d :: d in q <==> d in queue || exists r :: 0 <= r < |rounds| && Served(devs, rounds[r], d)
    decreases |rounds|
  {
    if |rounds| == 1 {
      QuietServesNone(devs, rounds[0]);
    } else {
      var q, rest := Pass(queue, devs, rounds[0]), rounds[1..];
      PassQueues(queue, devs, rounds[0]);
      PassesQueue(q, devs, rest);
      forall d
        ensures d in Passes(q, devs, rest) <==>
          d in queue || exists r :: 0 <= r < |rounds| && Served(devs, rounds[r], d)
      {
        assert d in q <==> d in queue || Served(devs, rounds[0], d);
        if r :| 0 <= r < |rounds| && Served(devs, rounds[r], d) {
          assert r > 0 ==> Served(devs, rest[r - 1], d);
        }
      }
    }
  }

  lemma QuietServesNone(devs: seq<Dev>, causes: seq<Cause>)
    requires |causes| == |devs| && Quiet(causes)
    ensures forall d :: !Served(devs, causes, d)
  {
    assert forall k :: 0 <= k < |causes| ==> causes[k] in causes;
  }

  class TtyCtrl {
    const eventQueue: array<Dev>
    var numEvents: nat
    /** The devices whose queued flag is set. */
    var queued: set<Dev>
    /** Every device of the driver. */
    ghost const all: set<Dev>

    /** The flagged devices are the queued ones, and the array has room for every device. */
    ghost predicate Valid()
      reads this, eventQueue
    {
      && |all| <= eventQueue.Length && numEvents <= eventQueue.Length
      && NoRepeats(eventQueue[..numEvents])
      && (forall d :: d in queued <==> d in eventQueue[..numEvents])
      && (forall d :: d in queued ==> d in all)
    }

    ghost function Queue(): seq<Dev>
      reads this, eventQueue
      requires numEvents <= eventQueue.Length
    {
      eventQueue[..numEvents]
    }

    /** The append never runs past the end of the array. */
    method Append(d: Dev)
      requires Valid() && d !in queued && d in all
      modifies this`numEvents, this`queued, eventQueue
      ensures Valid() && Queue() == old(Queue()) + [d]
    {
      RoomFor(Queue(), all, d);
      eventQueue[numEvents] := d;
      numEvents := numEvents + 1;
      queued := queued + {d};
      assert Queue() == old(Queue()) + [d];
    }

    /** Polls until a pass finds nothing; `rounds[r][k]` is what polling device `k` finds in pass `r`.
        Exactly the devices that needed service in some pass are queued, behind what is. */
    method Interrupt(devs: seq<Dev>, rounds: seq<seq<Cause>>) returns (event: bool)
      requires Valid() && (forall d :: d in devs ==> d in all) && Polled(devs, rounds)
      modifies this`numEvents, this`queued, eventQueue
      ensures Valid() && old(Queue()) <= Queue() && Queue() == Passes(old(Queue()), devs, rounds)
      ensures forall d :: d in Queue() <==>
        d in old(Queue()) || exists r :: 0 <= r < |rounds| && Served(devs, rounds[r], d)
      ensures event <==> Queue() != old(Queue())
    {
      PassesQueue(Queue(), devs, rounds);
      event := false;
      var r := 0;
      var somethingHappened := true;
      while somethingHappened
        invariant r <= |rounds| && Valid() && old(Queue()) <= Queue()
        invariant somethingHappened <==> r < |rounds|
        invariant event <==> Queue() != old(Queue())
        invariant Passes(old(Queue()), devs, rounds)
          == if somethingHappened then Passes(Queue(), devs, rounds[r..]) else Queue()
        decreases |rounds| - r
      {
        var appended;
        somethingHappened, appended := OnePass(devs, rounds[r]);
        event := event || appended;
        r := r + 1;
      }
    }

    method OnePass(devs: seq<Dev>, causes: seq<Cause>) returns (happened: bool, event: bool)
      requires Valid() && (forall d :: d in devs ==> d in all) && |causes| == |devs|
      modifies this`numEvents, this`queued, eventQueue
      ensures Valid() && Queue() == Pass(old(Queue()), devs, causes) && old(Queue()) <= Queue()
      ensures happened <==> exists c :: c in causes && c != Nothing
      ensures event <==> Queue() != old(Queue())
      ensures !happened ==> Queue() == old(Queue())
    {
      happened, event := false, false;
      for k := 0 to |devs|
        invariant Valid() && Queue() == Pass(old(Queue()), devs[..k], causes[..k]) && old(Queue()) <= Queue()
        invariant happened <==> exists j :: 0 <= j < k && causes[j] != Nothing
        invariant event <==> Queue() != old(Queue())
        invariant !happened ==> Queue() == old(Queue())
      {
        assert devs[..k + 1][..k] == devs[..k] && causes[..k + 1][..k] == causes[..k];
        if causes[k] != Nothing {
          happened := true;
          if causes[k].status {
            if devs[k] !in queued {
              event := true;
              Append(devs[k]);
            }
          }
        }
      }
      assert devs[..|devs|] == devs && causes[..|devs|] == causes;
      assert happened ==> exists j :: 0 <= j < |causes| && causes[j] in causes && causes[j] != Nothing;
    }
  }

  lemma {:induction false} RoomFor(q: seq<Dev>, all: set<Dev>, d: Dev)
    requires NoRepeats(q) && d !in q && d in all && forall x :: x in q ==> x in all
    ensures |q| < |all|
    decreases |q|
  {
    if q != [] {
      var last := q[|q| - 1];
      assert NoRepeats(q[..|q| - 1]);
      RoomFor(q[..|q| - 1], all - {last}, d);
    }
  }
}
