/** The SD/MMC adapter's driver thread: it serves its queue, keeping the power mode, the timestamp and
    the timer in place. */
module PowerDriver {
  import opened PowerModel
  import opened Words

  datatype Ccb = Ccb(id: nat, request: Request)

  datatype Posted = Posted(id: nat, reply: Reply)

  /** The state and the replies after serving a queue, each request at its clock. */
  function Served(c: Chip, s: Pm, queue: seq<Ccb>, clocks: seq<uint64>): (Pm, seq<Posted>)
    requires |queue| == |clocks|
  {
    if queue == [] then (s, [])
    else
      var last := |queue| - 1;
      var (s0, posted) := Served(c, s, queue[..last], clocks[..last]);
      var s1 := Serve(c, s0, clocks[last], queue[last].request);
      (s1, posted + [Posted(queue[last].id, Answer(c, s1, queue[last].request))])
  }

  /** Serving a queue is a run of requests, and answers each of them once, in order. */
  lemma {:induction false} ServedIsRun(c: Chip, s: Pm, queue: seq<Ccb>, clocks: seq<uint64>)
    requires |queue| == |clocks|
    ensures
      var es := seq(|queue|, k requires 0 <= k < |queue| => Requested(clocks[k], queue[k].request));
      Served(c, s, queue, clocks).0 == Run(c, s, es)
    ensures
      var posted := Served(c, s, queue, clocks).1;
      && |posted| == |queue|
      && forall k :: 0 <= k < |queue| ==> posted[k].id == queue[k].id
  {
    hide Serve, Answer;
    if queue != [] {
      var last := |queue| - 1;
      ServedIsRun(c, s, queue[..last], clocks[..last]);
      var es := seq(|queue|, k requires 0 <= k < |queue| => Requested(clocks[k], queue[k].request));
      assert es[..last] ==
        seq(last, k requires 0 <= k < last => Requested(clocks[..last][k], queue[..last][k].request));
    }
  }

  class Adapter {
    const chip: Chip
    var pmState: Mode
    var pmTimestamp: uint64
    var pmIdleNs: uint64
    var pmSleepNs: uint64
    var timer: Timer
    var nexus: Option<Ccb>
    var queue: seq<Ccb>
    var posted: seq<Posted>

    ghost function Contents(): Pm
      reads this
    {
      Pm(pmState, pmTimestamp, pmIdleNs, pmSleepNs, timer)
    }

    constructor (chip: Chip)
      ensures this.chip == chip && Contents() == Attached(chip) && nexus == None && queue == [] && posted == []
    {
      this.chip := chip;
      pmState, pmTimestamp, timer, nexus, queue, posted := Idle, 0, Off, None, [], [];
      pmIdleNs, pmSleepNs := Ns(chip.minIdle), Ns(chip.minSleep);
    }

    method TimerSettime(ns: uint64, repeat: bool)
      modifies this`timer
      ensures timer == Armed(ns, repeat)
    {
      if ns == 0 {
        timer := Off;
      } else if repeat {
        timer := Periodic(ns);
      } else {
        timer := OneShot(ns);
      }
    }

    method SetPm(op: Mode)
      modifies this`pmState, this`timer
      ensures Contents() == Enter(chip, old(Contents()), op)
    {
      if pmState == op {
        return;
      }
      match op {
        case Idle =>
          if chip.sleeps {
            TimerSettime(pmSleepNs, false);
          } else {
            TimerSettime(0, false);
          }
        case Active => TimerSettime(pmIdleNs, true);
        case Sleep => TimerSettime(0, false);
      }
      pmState := op;
    }

    method PwrMgntDevctl(r: Request) returns (reply: Reply)
      requires r.Power? && pmState == Active
      modifies this`pmIdleNs, this`pmSleepNs
      ensures var s := old(Contents());
        Contents() == (if Accepted(chip, r) then s.(idleNs := Ns(r.action.idle), sleepNs := Ns(r.action.sleep)) else s)
      ensures reply == Answer(chip, Contents(), r)
      ensures r.ready && r.sized && r.action.Set? ==>
        var idle, sleep := r.action.idle, r.action.sleep;
        && (reply.status == Ok <==> chip.minIdle <= idle && chip.minSleep <= sleep)
        && (reply.status == Ok ==>
              pmIdleNs == idle * 1_000_000 % LIMIT64 && pmSleepNs == sleep * 1_000_000 % LIMIT64)
        && (reply.status != Ok ==> reply.status == Invalid && pmIdleNs == old(pmIdleNs) && pmSleepNs == old(pmSleepNs))
    {
      reply := Reply(Ok, 0, 0);
      if !r.ready {
        reply := Reply(NotReady, 0, 0);
      } else if !r.sized {
        reply := Reply(Invalid, 0, 0);
      } else {
        match r.action {
          case Get =>
            reply := Reply(Ok, pmIdleNs / 1_000_000, pmSleepNs / 1_000_000);
          case Set(idle, sleep) =>
            if idle < chip.minIdle || sleep < chip.minSleep {
              reply := Reply(Invalid, 0, 0);
            } else {
              pmIdleNs, pmSleepNs := Ns(idle), Ns(sleep);
            }
          case Other =>
            reply := Reply(Invalid, 0, 0);
        }
      }
    }

    /** Drains the queue: each request is served in the active mode and posted once. The clock is read
        once for each request. */
    method StartCcb(clocks: seq<uint64>)
      requires |clocks| == |queue| && nexus == None
      modifies this
      ensures queue == [] && nexus == None
      ensures Contents() == Served(chip, old(Contents()), old(queue), clocks).0
      ensures posted == old(posted) + Served(chip, old(Contents()), old(queue), clocks).1
    {
      hide Ns;
      var n := 0;
      while true
        invariant n + |queue| == |clocks| && queue == old(queue)[n..] && nexus == None
        invariant Contents() == Served(chip, old(Contents()), old(queue)[..n], clocks[..n]).0
        invariant posted == old(posted) + Served(chip, old(Contents()), old(queue)[..n], clocks[..n]).1
        decreases |queue|
      {
        if queue == [] {
          assert old(queue)[..n] == old(queue) && clocks[..n] == clocks;
          return;
        }
        var ccb := queue[0];
        queue, nexus := queue[1..], Some(ccb);
        SetPm(Active);
        pmTimestamp := clocks[n];
        var reply := Reply(Ok, 0, 0);
        if ccb.request.Power? {
          reply := PwrMgntDevctl(ccb.request);
        }
        nexus := None;
        posted := posted + [Posted(ccb.id, reply)];
        n := n + 1;
        assert old(queue)[..n][..n - 1] == old(queue)[..n - 1] && clocks[..n][..n - 1] == clocks[..n - 1];
      }
    }

    /** A pulse of the power timer. */
    method PmTimer(now: uint64)
      modifies this`pmState, this`timer
      ensures Contents() == if nexus == None then Tick(chip, old(Contents()), now) else old(Contents())
    {
      if nexus != None || pmState == Sleep {
        return;
      }
      if pmState == Active {
        if now >= Sum(pmTimestamp, pmIdleNs) {
          SetPm(Idle);
        }
      } else if pmState == Idle && chip.sleeps {
        if now >= Sum(pmTimestamp, pmSleepNs) {
          SetPm(Sleep);
        }
      }
    }
  }
}
