/** The serial driver's event queue under concurrent interrupt handlers. The handler of one interrupt
    walks the devices of its own group; it tests a device's queued flag without the lock and appends
    the device under the lock. Handlers of different interrupts interleave at every step below. */
module EventQueue {
  import opened Words
  import opened IrqModel

  type Dev = nat

  /** Where a handler is in the append: past the unlocked test, holding the lock, past the array
      store, past setting the flag. */
  datatype Pc = Scanning | Tested(d: Dev) | Locked(d: Dev) | Stored(d: Dev) | Flagged(d: Dev)

  datatype State = State(queue: seq<Dev>, flagged: set<Dev>, pcs: seq<Pc>, lock: Option<nat>)

  datatype Action = Test(d: Dev) | Lock | Store | SetFlag | Unlock

  /** `Consume` is the reader of the queue taking its first entry and clearing the flag, under the lock. */
  datatype Event = Handler(i: nat, action: Action) | Consume

  function Initial(ix: Index<Dev>): State {
    State([], {}, seq(|ix|, _ => Scanning), None)
  }

  /** One step; an event that is not enabled changes nothing. */
  function Step(ix: Index<Dev>, s: State, e: Event): State {
    match e
    case Consume =>
      if s.lock.None? && s.queue != [] then s.(queue := s.queue[1..], flagged := s.flagged - {s.queue[0]}) else s
    case Handler(i, action) =>
      if i < |s.pcs| && i < |ix| then Act(ix[i].devs, s, i, action) else s
  }

  function Act(devs: seq<Dev>, s: State, i: nat, action: Action): State
    requires i < |s.pcs|
  {
    var pc := s.pcs[i];
    match action
    case Test(d) =>
      if pc.Scanning? && d in devs && d !in s.flagged then s.(pcs := s.pcs[i := Tested(d)]) else s
    case Lock =>
      if pc.Tested? && s.lock.None? then s.(pcs := s.pcs[i := Locked(pc.d)], lock := Some(i)) else s
    case Store =>
      if pc.Locked? then s.(pcs := s.pcs[i := Stored(pc.d)], queue := s.queue + [pc.d]) else s
    case SetFlag =>
      if pc.Stored? then s.(pcs := s.pcs[i := Flagged(pc.d)], flagged := s.flagged + {pc.d}) else s
    case Unlock =>
      if pc.Flagged? then s.(pcs := s.pcs[i := Scanning], lock := None) else s
  }

  function Run(ix: Index<Dev>, s: State, es: seq<Event>): State
    decreases |es|
  {
    if es == [] then s else Run(ix, Step(ix, s, es[0]), es[1..])
  }

  ghost predicate Separate(ix: Index<Dev>) {
    forall i, j :: 0 <= i < j < |ix| ==> Apart(ix[i].devs, ix[j].devs)
  }

  /** What a handler that has started on a device knows about it. */
  ghost predicate Knows(ix: Index<Dev>, s: State, i: nat)
    requires i < |s.pcs| == |ix|
  {
    match s.pcs[i]
    case Scanning => true
    case Tested(d) => d in ix[i].devs && d !in s.queue && d !in s.flagged
    case Locked(d) => d in ix[i].devs && d !in s.queue && d !in s.flagged
    case Stored(d) => d in ix[i].devs && d in s.queue && d !in s.flagged
    case Flagged(d) => d in ix[i].devs && d in s.queue && d in s.flagged
  }

  predicate Holds(pc: Pc) {
    pc.Locked? || pc.Stored? || pc.Flagged?
  }

  ghost predicate Inv(ix: Index<Dev>, s: State) {
    && |s.pcs| == |ix|
    && NoRepeats(s.queue)
    && (forall i :: 0 <= i < |ix| ==> Knows(ix, s, i) && (s.lock == Some(i) <==> Holds(s.pcs[i])))
    && (s.lock.Some? ==> s.lock.value < |ix|)
    && (forall d :: d in s.flagged ==> d in s.queue)
    && (forall d :: d in s.queue ==> d in s.flagged || (s.lock.Some? && s.pcs[s.lock.value] == Stored(d)))
    && (forall d :: d in s.queue ==> Has(ix, d))
  }

  lemma InitialInv(ix: Index<Dev>)
    ensures Inv(ix, Initial(ix))
  {
  }

  lemma StepKeeps(ix: Index<Dev>, s: State, e: Event)
    requires Separate(ix) && Inv(ix, s)
    ensures Inv(ix, Step(ix, s, e))
  {
    if e.Handler? && Step(ix, s, e) != s {
      ActKeeps(ix, s, e.i, e.action);
    }
  }

  lemma ActKeeps(ix: Index<Dev>, s: State, i: nat, action: Action)
    requires Separate(ix) && Inv(ix, s) && i < |ix| && Act(ix[i].devs, s, i, action) != s
    ensures Inv(ix, Act(ix[i].devs, s, i, action))
  {
    var s' := Act(ix[i].devs, s, i, action);
    forall j | 0 <= j < |ix| && j != i ensures Knows(ix, s', j) {
      OtherKnows(ix, s, Handler(i, action), j);
    }
    assert Knows(ix, s, i);
  }

  /** A handler's step is invisible to the others: their devices are not its device. */
  lemma OtherKnows(ix: Index<Dev>, s: State, e: Event, j: nat)
    requires Separate(ix) && Inv(ix, s) && e.Handler? && Step(ix, s, e) != s && j < |ix| && j != e.i
    ensures Knows(ix, Step(ix, s, e), j)
  {
    assert Knows(ix, s, j) && Knows(ix, s, e.i);
    assert (j < e.i ==> Apart(ix[j].devs, ix[e.i].devs)) && (e.i < j ==> Apart(ix[e.i].devs, ix[j].devs));
  }

  lemma {:induction false} RunKeeps(ix: Index<Dev>, s: State, es: seq<Event>)
    requires Separate(ix) && Inv(ix, s)
    ensures Inv(ix, Run(ix, s, es))
    decreases |es|
  {
    if es != [] {
      StepKeeps(ix, s, es[0]);
      RunKeeps(ix, Step(ix, s, es[0]), es[1..]);
    }
  }

  ghost function Devices(ix: Index<Dev>): set<Dev> {
    set i, d | 0 <= i < |ix| && d in ix[i].devs :: d
  }

  lemma {:induction false} DistinctFit(q: seq<Dev>, all: set<Dev>)
    requires NoRepeats(q) && forall d :: d in q ==> d in all
    ensures |q| <= |all|
    decreases |q|
  {
    if q != [] {
      var d := q[|q| - 1];
      assert NoRepeats(q[..|q| - 1]);
      DistinctFit(q[..|q| - 1], all - {d});
    }
  }

  /** In every run over a well-formed index the queue never holds a device twice and never holds more
      entries than there are devices, and when the lock is free exactly the queued devices are flagged. */
  lemma QueueSound(ix: Index<Dev>, es: seq<Event>)
    requires WellFormed(ix)
    ensures var s := Run(ix, Initial(ix), es);
      && NoRepeats(s.queue) && |s.queue| <= |Devices(ix)|
      && (s.lock.None? ==> forall d :: d in s.flagged <==> d in s.queue)
  {
    InitialInv(ix);
    RunKeeps(ix, Initial(ix), es);
    var s := Run(ix, Initial(ix), es);
    forall d | d in s.queue ensures d in Devices(ix) {
      assert Has(ix, d);
    }
    DistinctFit(s.queue, Devices(ix));
  }

  function AppendedBy(ix: Index<Dev>, s: State, e: Event): seq<Dev> {
    if e.Handler? && e.action == Store && e.i < |s.pcs| && e.i < |ix| && s.pcs[e.i].Locked? then [s.pcs[e.i].d] else []
  }

  function TakenBy(s: State, e: Event): seq<Dev> {
    if e.Consume? && s.lock.None? && s.queue != [] then [s.queue[0]] else []
  }

  /** The devices that a run's handlers store, and those that the reader takes, in order. */
  function Appended(ix: Index<Dev>, s: State, es: seq<Event>): seq<Dev>
    decreases |es|
  {
    if es == [] then [] else AppendedBy(ix, s, es[0]) + Appended(ix, Step(ix, s, es[0]), es[1..])
  }

  function Taken(ix: Index<Dev>, s: State, es: seq<Event>): seq<Dev>
    decreases |es|
  {
    if es == [] then [] else TakenBy(s, es[0]) + Taken(ix, Step(ix, s, es[0]), es[1..])
  }

  lemma StepInOrder(ix: Index<Dev>, s: State, e: Event)
    ensures TakenBy(s, e) + Step(ix, s, e).queue == s.queue + AppendedBy(ix, s, e)
  {
  }

  /** Whatever the interleaving, the reader takes the devices in the order they were stored, each once: what it
      took, and then what is queued, are what was queued and then what was stored. */
  lemma {:induction false} TakenInOrder(ix: Index<Dev>, s: State, es: seq<Event>)
    ensures Taken(ix, s, es) + Run(ix, s, es).queue == s.queue + Appended(ix, s, es)
    decreases |es|
  {
    hide Step, TakenBy, AppendedBy;
    if es != [] {
      var s1 := Step(ix, s, es[0]);
      StepInOrder(ix, s, es[0]);
      TakenInOrder(ix, s1, es[1..]);
      var taken, appended := TakenBy(s, es[0]), AppendedBy(ix, s, es[0]);
      var taken1, appended1, end := Taken(ix, s1, es[1..]), Appended(ix, s1, es[1..]), Run(ix, s, es).queue;
      assert taken + taken1 + end == taken + (taken1 + end);
      assert taken + (s1.queue + appended1) == taken + s1.queue + appended1;
      assert s.queue + appended + appended1 == s.queue + (appended + appended1);
    }
  }

  /** The unlocked test is safe exactly when no device belongs to two interrupts. */
  lemma SafeExactlyWhenSeparate(ix: Index<Dev>)
    ensures (forall es :: NoRepeats(Run(ix, Initial(ix), es).queue)) <==> Separate(ix)
  {
    if Separate(ix) {
      forall es ensures NoRepeats(Run(ix, Initial(ix), es).queue) {
        InitialInv(ix);
        RunKeeps(ix, Initial(ix), es);
      }
    } else {
      var i, j :| 0 <= i < j < |ix| && !Apart(ix[i].devs, ix[j].devs);
      var d :| d in ix[i].devs && d in ix[j].devs;
      var es := SharedDeviceRun(ix, i, j, d);
      var q := Run(ix, Initial(ix), es).queue;
      assert q[0] == q[1] && !NoRepeats(q);
    }
  }

  /** Both handlers pass the test before either sets the flag. */
  lemma SharedDeviceRun(ix: Index<Dev>, i: nat, j: nat, d: Dev) returns (es: seq<Event>)
    requires i < j < |ix| && d in ix[i].devs && d in ix[j].devs
    ensures Run(ix, Initial(ix), es).queue == [d, d]
  {
    var s0 := Initial(ix);
    var s1 := s0.(pcs := s0.pcs[i := Tested(d)]);
    var s2 := s1.(pcs := s1.pcs[j := Tested(d)]);
    var s3 := s2.(pcs := s2.pcs[i := Locked(d)], lock := Some(i));
    var s4 := s3.(pcs := s3.pcs[i := Stored(d)], queue := [d]);
    var s5 := s4.(pcs := s4.pcs[i := Flagged(d)], flagged := {d});
    var s6 := s5.(pcs := s5.pcs[i := Scanning], lock := None);
    var s7 := s6.(pcs := s6.pcs[j := Locked(d)], lock := Some(j));
    var s8 := s7.(pcs := s7.pcs[j := Stored(d)], queue := [d, d]);
    es := RunCons(ix, s7, Handler(j, Store), s8, [], s8);
    es := RunCons(ix, s6, Handler(j, Lock), s7, es, s8);
    es := RunCons(ix, s5, Handler(i, Unlock), s6, es, s8);
    es := RunCons(ix, s4, Handler(i, SetFlag), s5, es, s8);
    es := RunCons(ix, s3, Handler(i, Store), s4, es, s8);
    es := RunCons(ix, s2, Handler(i, Lock), s3, es, s8);
    es := RunCons(ix, s1, Handler(j, Test(d)), s2, es, s8);
    es := RunCons(ix, s0, Handler(i, Test(d)), s1, es, s8);
  }

  /** A run of one more event in front. */
  lemma RunCons(ix: Index<Dev>, s: State, e: Event, s': State, rest: seq<Event>, end: State) returns (es: seq<Event>)
    requires Step(ix, s, e) == s' && Run(ix, s', rest) == end
    ensures Run(ix, s, es) == end
  {
    es := [e] + rest;
    assert es[1..] == rest;
  }
}
