/** Power management of an SD/MMC adapter: the mode, the power timer and the two waiting times, as
    functions of the requests and the timer pulses. */
module PowerModel {
  import opened Words

  datatype Mode = Idle | Active | Sleep

  datatype Timer = Off | OneShot(ns: uint64) | Periodic(ns: uint64)

  /** The chipset's capability and its default times in milliseconds, which are the least allowed. */
  datatype Chip = Chip(sleeps: bool, minIdle: uint32, minSleep: uint32)

  /** `stamp` is the clock at the last request. */
  datatype Pm = Pm(mode: Mode, stamp: uint64, idleNs: uint64, sleepNs: uint64, timer: Timer)

  datatype Action = Get | Set(idle: uint64, sleep: uint64) | Other

  /** A power-management control, on a unit that may not be ready, with a buffer that may be too small;
      every other request is `Io`. */
  datatype Request = Power(action: Action, ready: bool, sized: bool) | Io

  datatype Status = Ok | NotReady | Invalid

  datatype Reply = Reply(status: Status, idle: uint64, sleep: uint64)

  /** Milliseconds in nanoseconds, in 64 bits. */
  function Ns(ms: uint64): uint64 {
    ms * 1_000_000 % LIMIT64
  }

  /** A time of zero disarms the timer. */
  function Armed(ns: uint64, repeat: bool): Timer {
    if ns == 0 then Off else if repeat then Periodic(ns) else OneShot(ns)
  }

  function Enter(c: Chip, s: Pm, mode: Mode): Pm {
    if s.mode == mode then s
    else
      s.(mode := mode,
         timer := match mode
           case Idle => if c.sleeps then Armed(s.sleepNs, false) else Off
           case Active => Armed(s.idleNs, true)
           case Sleep => Off)
  }

  predicate Accepted(c: Chip, r: Request) {
    r.Power? && r.ready && r.sized && r.action.Set? && r.action.idle >= c.minIdle && r.action.sleep >= c.minSleep
  }

  /** Every request first makes the adapter active. */
  function Serve(c: Chip, s: Pm, now: uint64, r: Request): Pm {
    var a := Enter(c, s, Active).(stamp := now);
    if Accepted(c, r) then a.(idleNs := Ns(r.action.idle), sleepNs := Ns(r.action.sleep)) else a
  }

  function Answer(c: Chip, s: Pm, r: Request): Reply {
    match r
    case Io => Reply(Ok, 0, 0)
    case Power(action, ready, sized) =>
      if !ready then Reply(NotReady, 0, 0)
      else if !sized then Reply(Invalid, 0, 0)
      else
        match action
        case Get => Reply(Ok, s.idleNs / 1_000_000, s.sleepNs / 1_000_000)
        case Set(_, _) => Reply(if Accepted(c, r) then Ok else Invalid, 0, 0)
        case Other => Reply(Invalid, 0, 0)
  }

  /** `a + b` in 64 bits. */
  function Sum(a: uint64, b: uint64): uint64 {
    (a + b) % LIMIT64
  }

  /** A pulse of the power timer, with no request in progress. */
  function Tick(c: Chip, s: Pm, now: uint64): Pm {
    match s.mode
    case Active => if now >= Sum(s.stamp, s.idleNs) then Enter(c, s, Idle) else s
    case Idle => if c.sleeps && now >= Sum(s.stamp, s.sleepNs) then Enter(c, s, Sleep) else s
    case Sleep => s
  }

  // ----- runs -----

  datatype Event = Requested(now: uint64, r: Request) | Ticked(now: uint64)

  function Step(c: Chip, s: Pm, e: Event): Pm {
    match e
    case Requested(now, r) => Serve(c, s, now, r)
    case Ticked(now) => Tick(c, s, now)
  }

  function Run(c: Chip, s: Pm, es: seq<Event>): Pm {
    if es == [] then s else Step(c, Run(c, s, es[..|es| - 1]), es[|es| - 1])
  }

  /** The adapter as it is attached: zeroed, so idle, with the chipset's times and no timer. */
  function Attached(c: Chip): Pm {
    Pm(Idle, 0, Ns(c.minIdle), Ns(c.minSleep), Off)
  }

  predicate Inv(c: Chip, s: Pm) {
    match s.mode
    case Active => !s.timer.OneShot?
    case Idle => s.timer.OneShot? ==> c.sleeps && s.timer.ns == s.sleepNs
    case Sleep => c.sleeps && s.timer == Off
  }

  lemma {:induction false} RunKeeps(c: Chip, es: seq<Event>)
    ensures Inv(c, Run(c, Attached(c), es))
  {
    hide Ns;
    if es != [] {
      RunKeeps(c, es[..|es| - 1]);
    }
  }

  // ----- safety -----

  /** A transition really waits for its time exactly when the 64-bit sum does not wrap. */
  lemma WaitsExactly(c: Chip, s: Pm, now: uint64)
    requires Tick(c, s, now).mode != s.mode
    ensures var wait := if s.mode == Active then s.idleNs else s.sleepNs;
      now - s.stamp >= wait <==> s.stamp + wait < LIMIT64
  {
  }

  /** The two times change only while a request is served, so only in the active mode, and a timer pulse
      leaves them and the time of the last request alone. */
  lemma TimesChangeActive(c: Chip, s: Pm, e: Event)
    ensures var n := Step(c, s, e);
      (n.idleNs != s.idleNs || n.sleepNs != s.sleepNs || n.stamp != s.stamp) ==> e.Requested? && n.mode == Active
  {
    hide Ns, Sum;
  }

  /** The largest time whose nanoseconds fit 64 bits. */
  predicate Fits(ms: uint64) {
    ms <= 18_446_744_073_709
  }

  /** The stored time is the requested one exactly when it fits. */
  lemma NsExactly(ms: uint64)
    ensures Ns(ms) / 1_000_000 == ms <==> Fits(ms)
    ensures Fits(ms) ==> Ns(ms) == ms * 1_000_000
  {
  }

  /** A setting is read back unchanged exactly when both times fit. */
  lemma GetReturnsSetExactly(c: Chip, s: Pm, t0: uint64, t1: uint64, setting: Request)
    requires Accepted(c, setting)
    ensures Answer(c, s, setting).status == Ok
    ensures
      var get, want := Power(Get, true, true), Reply(Ok, setting.action.idle, setting.action.sleep);
      var got := Answer(c, Serve(c, Serve(c, s, t0, setting), t1, get), get);
      got == want <==> Fits(setting.action.idle) && Fits(setting.action.sleep)
  {
    NsExactly(setting.action.idle);
    NsExactly(setting.action.sleep);
    hide Ns;
  }

  // ----- the state is the history's -----

  function LastRequest(es: seq<Event>): uint64 {
    if es == [] then 0
    else
      match es[|es| - 1]
      case Requested(now, _) => now
      case Ticked(_) => LastRequest(es[..|es| - 1])
  }

  /** The times of the last accepted setting, else the chipset's. */
  function InForce(c: Chip, es: seq<Event>): (uint64, uint64) {
    if es == [] then (Ns(c.minIdle), Ns(c.minSleep))
    else if es[|es| - 1].Requested? && Accepted(c, es[|es| - 1].r) then
      (Ns(es[|es| - 1].r.action.idle), Ns(es[|es| - 1].r.action.sleep))
    else InForce(c, es[..|es| - 1])
  }

  lemma {:induction false} RunRemembers(c: Chip, es: seq<Event>)
    ensures var s := Run(c, Attached(c), es);
      s.stamp == LastRequest(es) && (s.idleNs, s.sleepNs) == InForce(c, es)
  {
    hide Ns, Sum;
    if es != [] {
      RunRemembers(c, es[..|es| - 1]);
    }
  }

  /** In every run, the next event puts the card to sleep exactly when it is a timer pulse in the idle
      mode of a controller that can sleep, at or after the last request plus the sleep time in force;
      likewise for idle; and every request makes the adapter active. */
  lemma RunFallsExactly(c: Chip, es: seq<Event>, e: Event)
    ensures
      var s, n, t := Run(c, Attached(c), es), Run(c, Attached(c), es + [e]), InForce(c, es);
      match s.mode
      case Active => n.mode == (if e.Ticked? && e.now >= Sum(LastRequest(es), t.0) then Idle else Active)
      case Idle =>
        n.mode == if e.Requested? then Active
                  else if c.sleeps && e.now >= Sum(LastRequest(es), t.1) then Sleep
                  else Idle
      case Sleep => c.sleeps && n.mode == if e.Requested? then Active else Sleep
  {
    hide Ns, Sum;
    RunRemembers(c, es);
    RunKeeps(c, es);
    assert (es + [e])[..|es|] == es;
  }

  // ----- progress -----

  /** Periodic pulses from `t` on, until the adapter is idle or `n` more have come. */
  function UntilIdle(c: Chip, s: Pm, t: nat, n: nat): Pm
    requires s.timer.Periodic? && t + n * s.timer.ns < LIMIT64
    decreases n
  {
    PulseBelow(t, n, s.timer.ns);
    var s1 := Tick(c, s, t);
    if n == 0 || s1 != s then s1
    else
      PulseNext(t, n, s.timer.ns);
      UntilIdle(c, s, t + s.timer.ns, n - 1)
  }

  lemma PulseBelow(t: nat, n: nat, p: nat)
    ensures t <= t + n * p
  {
  }

  lemma PulseNext(t: nat, n: nat, p: nat)
    requires n > 0
    ensures t + p + (n - 1) * p == t + n * p
  {
  }

  /** An adapter left alone becomes idle: from its first pulse after the last request, within as many
      periods as fill the idle time. With an unchanged idle time that is one period. */
  lemma {:induction false} IdleInTime(c: Chip, s: Pm, t: nat, n: nat)
    requires s.mode == Active && s.timer.Periodic?
    requires s.stamp <= t && s.stamp + s.idleNs < LIMIT64
    requires t + n * s.timer.ns < LIMIT64 && s.stamp + s.idleNs <= t + n * s.timer.ns
    ensures UntilIdle(c, s, t, n).mode == Idle
    decreases n
  {
    PulseBelow(t, n, s.timer.ns);
    if n > 0 && Tick(c, s, t) == s {
      PulseNext(t, n, s.timer.ns);
      IdleInTime(c, s, t + s.timer.ns, n - 1);
    }
  }

  /** A controller that can sleep does so when the timer armed on becoming idle fires. */
  lemma OneShotSleeps(c: Chip, s: Pm, t: uint64, fires: uint64)
    requires s.mode == Active && Tick(c, s, t).mode == Idle && c.sleeps
    requires s.stamp + s.idleNs < LIMIT64 && s.stamp + s.sleepNs < LIMIT64
    requires Tick(c, s, t).timer == OneShot(s.sleepNs) && fires >= t + s.sleepNs
    ensures Tick(c, Tick(c, s, t), fires).mode == Sleep
  {
  }

  /** The adapter arms its timer on becoming active exactly when the idle time is not zero, for every idle
      time again. */
  lemma ArmsExactly(c: Chip, s: Pm, now: uint64, r: Request)
    requires s.mode != Active
    ensures var n := Serve(c, s, now, r);
      n.mode == Active && n.timer == (if s.idleNs == 0 then Off else Periodic(s.idleNs))
  {
    hide Ns;
  }

  /** On becoming idle it arms the timer for the sleep time, once, if the controller can sleep; asleep it has
      none. */
  lemma FallArmsExactly(c: Chip, s: Pm, now: uint64)
    requires Tick(c, s, now).mode != s.mode
    ensures var n := Tick(c, s, now);
      && n.stamp == s.stamp && n.idleNs == s.idleNs && n.sleepNs == s.sleepNs
      && n.timer == if s.mode == Active && c.sleeps && s.sleepNs != 0 then OneShot(s.sleepNs) else Off
  {
    hide Sum;
  }

  /** Neither requests nor settings touch the timer of an active adapter: one that is not armed stays
      active for good. */
  lemma {:induction false} UnarmedForever(c: Chip, s: Pm, es: seq<Event>)
    requires s.mode == Active && forall e :: e in es ==> e.Requested?
    ensures Run(c, s, es).mode == Active && Run(c, s, es).timer == s.timer
  {
    hide Ns;
    if es != [] {
      UnarmedForever(c, s, es[..|es| - 1]);
    }
  }

  lemma {:induction false} RunAppend(c: Chip, s: Pm, e: Event, es: seq<Event>)
    ensures Run(c, s, [e] + es) == Run(c, Step(c, s, e), es)
  {
    hide Step;
    if es == [] {
      assert [e] + es == [e] && [e][..0] == [];
    } else {
      RunAppend(c, s, e, es[..|es| - 1]);
      assert ([e] + es)[..|es|] == [e] + es[..|es| - 1];
    }
  }

  /** An adapter that requests wake, and nothing but requests reach, has an armed timer at the end exactly
      when its idle time was not zero at the first: what the requests set meanwhile does not matter. */
  lemma {:induction false} ArmedExactly(c: Chip, s: Pm, es: seq<Event>)
    requires s.mode != Active && es != [] && forall e :: e in es ==> e.Requested?
    ensures Run(c, s, es).mode == Active && (Run(c, s, es).timer != Off <==> s.idleNs != 0)
  {
    hide Run, Serve;
    var s1 := Step(c, s, es[0]);
    assert es == [es[0]] + es[1..];
    RunAppend(c, s, es[0], es[1..]);
    ArmsExactly(c, s, es[0].now, es[0].r);
    UnarmedForever(c, s1, es[1..]);
  }

  // ----- what a power-management control answers and stores -----

  /** A setting, on a unit that is ready and with a buffer that is large enough, is accepted exactly when
      neither time is below the chipset's; it then stores both in nanoseconds, and otherwise changes neither. */
  lemma SettingExactly(c: Chip, s: Pm, now: uint64, idle: uint64, sleep: uint64)
    ensures var r := Power(Set(idle, sleep), true, true); var n := Serve(c, s, now, r);
      && Answer(c, n, r).status == (if c.minIdle <= idle && c.minSleep <= sleep then Ok else Invalid)
      && (c.minIdle <= idle && c.minSleep <= sleep ==>
            n.idleNs == idle * 1_000_000 % LIMIT64 && n.sleepNs == sleep * 1_000_000 % LIMIT64)
      && (idle < c.minIdle || sleep < c.minSleep ==> n.idleNs == s.idleNs && n.sleepNs == s.sleepNs)
  {
  }

  /** Only such a setting changes the times, and every request moves the timestamp to its clock. */
  lemma OthersChangeNothing(c: Chip, s: Pm, now: uint64, r: Request)
    ensures Serve(c, s, now, r).stamp == now && Serve(c, s, now, r).mode == Active
    ensures !(r.Power? && r.ready && r.sized && r.action.Set?) ==>
      Serve(c, s, now, r).idleNs == s.idleNs && Serve(c, s, now, r).sleepNs == s.sleepNs
    ensures Answer(c, s, r).status == Ok <==>
      || r.Io?
      || (r.ready && r.sized && (r.action.Get? ||
            (r.action.Set? && c.minIdle <= r.action.idle && c.minSleep <= r.action.sleep)))
    ensures Answer(c, s, r).status == NotReady <==> r.Power? && !r.ready
  {
    hide Ns;
  }

  predicate FromMillis(ns: uint64, least: uint32) {
    exists ms: uint64 :: least <= ms && ns == ms * 1_000_000 % LIMIT64
  }

  /** In every run each time in force is some number of milliseconds, not below the chipset's least. */
  lemma {:induction false} TimesNotBelow(c: Chip, es: seq<Event>)
    ensures var s := Run(c, Attached(c), es); FromMillis(s.idleNs, c.minIdle) && FromMillis(s.sleepNs, c.minSleep)
  {
    hide FromMillis;
    if es == [] {
      MillisFrom(c.minIdle, c.minIdle);
      MillisFrom(c.minSleep, c.minSleep);
    } else {
      TimesNotBelow(c, es[..|es| - 1]);
      StepNotBelow(c, Run(c, Attached(c), es[..|es| - 1]), es[|es| - 1]);
    }
  }

  lemma MillisFrom(ms: uint64, least: uint32)
    requires least <= ms
    ensures FromMillis(Ns(ms), least)
  {
  }

  lemma StepNotBelow(c: Chip, s: Pm, e: Event)
    requires FromMillis(s.idleNs, c.minIdle) && FromMillis(s.sleepNs, c.minSleep)
    ensures FromMillis(Step(c, s, e).idleNs, c.minIdle) && FromMillis(Step(c, s, e).sleepNs, c.minSleep)
  {
    hide FromMillis, Ns, Sum;
    if e.Requested? && e.r.Power? && e.r.action.Set? {
      var r := e.r;
      if r.action.idle >= c.minIdle {
        MillisFrom(r.action.idle, c.minIdle);
      }
      if r.action.sleep >= c.minSleep {
        MillisFrom(r.action.sleep, c.minSleep);
      }
    }
  }
}
