/** The serial driver's list of device lists, one per interrupt, relinked in place. */
module IrqIndex {
  import opened Words
  import opened IrqModel

  /** The interrupt of a device that has none. */
  const INTR_SPARE := -1

  class Device {
    var intr: int
    var next: Device?
  }

  class DevList {
    var next: DevList?
    var device: Device?

    constructor ()
      ensures next == null && device == null
    {
      next, device := null, null;
    }
  }

  ghost predicate DevChain(head: Device?, s: seq<Device>)
    reads s`next
  {
    && head == (if s == [] then null else s[0])
    && forall j {:trigger s[j].next} :: 0 <= j < |s| ==> s[j].next == if j + 1 < |s| then s[j + 1] else null
  }

  ghost predicate ListChain(head: DevList?, s: seq<DevList>)
    reads s`next
  {
    && head == (if s == [] then null else s[0])
    && forall i {:trigger s[i].next} :: 0 <= i < |s| ==> s[i].next == if i + 1 < |s| then s[i + 1] else null
  }

  /** An inner list holds its group's devices, all of them on the group's interrupt. */
  ghost predicate Inner(l: DevList, g: Group<Device>)
    reads l`device, g.devs`next, g.devs`intr
  {
    DevChain(l.device, g.devs) && forall d :: d in g.devs ==> d.intr == g.irq
  }

  ghost predicate Covered(ix: Index<Device>, nodes: set<Device>) {
    forall i, j :: 0 <= i < |ix| && 0 <= j < |ix[i].devs| ==> ix[i].devs[j] in nodes
  }

  /** The handler is attached for exactly the lists, each on its group's interrupt. */
  ghost predicate Handled(handlers: map<DevList, int>, lists: seq<DevList>, ix: Index<Device>) {
    && (forall l :: l in handlers ==> l in lists)
    && |lists| == |ix| && forall i :: 0 <= i < |ix| ==> lists[i] in handlers && handlers[lists[i]] == ix[i].irq
  }

  class Serial {
    var devices: DevList?
    /** The lists that the kernel calls the interrupt handler with, and on which interrupt. */
    var handlers: map<DevList, int>
    ghost var lists: seq<DevList>
    ghost var index: Index<Device>
    ghost var nodes: set<Device>

    ghost predicate Valid()
      reads this, lists, nodes
    {
      && |lists| == |index| && ListChain(devices, lists) && NoRepeats(lists)
      && WellFormed(index) && Covered(index, nodes) && Handled(handlers, lists, index)
      && forall i :: 0 <= i < |index| ==> Inner(lists[i], index[i])
    }

    constructor ()
      ensures Valid() && index == [] && nodes == {}
    {
      devices, handlers, lists, index, nodes := null, map[], [], [], {};
    }

    lemma FirstDevices()
      requires Valid()
      ensures forall p {:trigger lists[p]} :: 0 <= p < |lists| ==>
        lists[p].device != null && lists[p].device == index[p].devs[0] && lists[p].device.intr == index[p].irq
    {
    }

    /** Adds a device to the list of its interrupt; -1 when a new list is needed and there is no memory. */
    method AttachIntr(dev: Device, memory: bool) returns (status: int)
      requires Valid() && !Has(index, dev)
      modifies this, dev`next, lists
      ensures Valid() && status in {0, -1}
      ensures status == -1 <==> !memory && !HasIrq(old(index), dev.intr)
      ensures status == -1 ==> index == old(index) && lists == old(lists) && nodes == old(nodes)
      ensures status == 0 ==> index == Attach(old(index), dev, dev.intr) && nodes == old(nodes) + {dev}
      ensures forall l :: l in lists ==> l in old(lists) || fresh(l)
    {
      hide WellFormed, Has, Covered, Handled, Inner;
      FirstDevices();
      var owner: DevList?, curr := null, devices;
      ghost var p := 0;
      while curr != null && curr.device.intr != dev.intr
        invariant p <= |lists| && curr == (if p < |lists| then lists[p] else null)
        invariant p <= Position(index, dev.intr)
        invariant owner == if p == 0 then null else lists[p - 1]
        decreases |lists| - p
      {
        owner, curr := curr, curr.next;
        p := p + 1;
      }
      assert p == Position(index, dev.intr);
      if curr == null {
        if !memory {
          return -1;
        }
        curr := new DevList();
        LinkList(owner, curr, dev);
      } else {
        LinkDevice(curr, dev, p);
      }
      return 0;
    }

    /** Attaches a device that has an interrupt. When that fails the device is freed, which detaches it
        first: the interrupt then has no list, so the search ends and the index is unchanged. */
    method EnableDevice(dev: Device, memory: bool) returns (status: int)
      requires Valid() && !Has(index, dev)
      modifies this, dev, lists, nodes
      ensures Valid() && status in {0, -1}
      ensures status == -1 <==> old(dev.intr) != INTR_SPARE && !memory && !HasIrq(old(index), old(dev.intr))
      ensures status == -1 ==> index == old(index) && dev.intr == INTR_SPARE
      ensures status == 0 ==> dev.intr == old(dev.intr)
      ensures status == 0 ==>
        index == if dev.intr == INTR_SPARE then old(index) else Attach(old(index), dev, dev.intr)
    {
      if dev.intr != INTR_SPARE {
        status := AttachIntr(dev, memory);
        if status == -1 {
          DetachIntr(dev);
          return -1;
        }
      }
      return 0;
    }

    /** A device on an interrupt that has a list goes to the front of that list. */
    method LinkDevice(curr: DevList, dev: Device, ghost p: nat)
      requires Valid() && !Has(index, dev) && p < |lists| && curr == lists[p] && index[p].irq == dev.intr
      modifies this`index, this`nodes, dev`next, curr`device
      ensures Valid() && nodes == old(nodes) + {dev}
      ensures index == old(index)[p := Group(dev.intr, [dev] + old(index)[p].devs)]
    {
      hide WellFormed, Has, Position, Inner, ListChain, Covered, Handled;
      ghost var g := Group(dev.intr, [dev] + index[p].devs);
      AttachToGroup(index, dev, p, nodes, handlers, lists);
      PushDevice(curr, dev, index[p]);
      index, nodes := index[p := g], nodes + {dev};
      assert forall i :: 0 <= i < |index| && i != p ==> Inner(lists[i], index[i]);
    }

    /** The first device on an interrupt gets a new list at the end, and the handler is attached. */
    method LinkList(owner: DevList?, curr: DevList, dev: Device)
      requires Valid() && !Has(index, dev) && curr !in lists && curr.next == null && curr.device == null
      requires owner == if lists == [] then null else lists[|lists| - 1]
      requires Position(index, dev.intr) == |index|
      modifies this, dev`next, curr, lists
      ensures Valid() && nodes == old(nodes) + {dev} && lists == old(lists) + [curr]
      ensures index == old(index) + [Group(dev.intr, [dev])]
    {
      hide WellFormed, Has, Position, Inner, ListChain, Covered, Handled;
      ghost var g := Group(dev.intr, [dev]);
      AttachAsGroup(index, dev, dev.intr, nodes, handlers, lists, curr);
      LinkEnd(owner, curr);
      assert forall i :: 0 <= i < |index| ==> Inner(lists[i], index[i]);
      EmptyInner(curr, dev.intr);
      PushDevice(curr, dev, Group(dev.intr, []));
      assert [dev] + [] == [dev];
      assert Inner(curr, g);
      if curr.device.next == null {
        handlers := handlers[curr := dev.intr];
      }
      ghost var ls, ix := lists + [curr], index + [g];
      forall i | 0 <= i < |ix| ensures Inner(ls[i], ix[i]) {
        assert i < |index| ==> ls[i] == lists[i] && ix[i] == index[i];
      }
      lists, index, nodes := ls, ix, nodes + {dev};
    }

    /** Removes a device from the list of its interrupt and forgets its interrupt. The search ends
        exactly under the precondition (IrqModel.SearchEnds). */
    method DetachIntr(dev: Device)
      requires Valid() && Present(index, dev, dev.intr)
      modifies this, dev, lists, nodes
      ensures Valid() && dev.intr == INTR_SPARE
      ensures index == Detach(old(index), dev, old(dev.intr)) && !Has(index, dev)
      ensures nodes == old(nodes) && forall l :: l in lists ==> l in old(lists)
    {
      hide WellFormed, Has, Covered, Handled, Inner, Detach, NoRepeats, HasIrq, Apart, ListChain;
      AbsentUnless(dev);
      var curr, prev, p := FindList(dev.intr);
      if curr != null {
        var found := SearchList(curr, prev, dev, p);
      }
      ForgetIntr(dev, old(index), old(dev.intr));
    }

    /** The outer search loop up to the list of an interrupt, or to the end. */
    method FindList(intr: int) returns (curr: DevList?, prev: DevList?, ghost p: nat)
      requires Valid()
      ensures p == Position(index, intr) && curr == if p < |lists| then lists[p] else null
      ensures p < |lists| ==> prev == if p == 0 then lists[0] else lists[p - 1]
    {
      hide WellFormed, Has, Covered, Handled, Inner, NoRepeats, Apart;
      FirstDevices();
      curr, prev, p := devices, devices, 0;
      while curr != null && curr.device.intr != intr
        invariant p <= |lists| && curr == (if p < |lists| then lists[p] else null)
        invariant lists != [] ==> prev == if p == 0 then lists[0] else lists[p - 1]
        invariant p <= Position(index, intr)
        decreases |lists| - p
      {
        if prev != curr {
          prev := prev.next;
        }
        curr := curr.next;
        p := p + 1;
      }
    }

    /** Neither the detached index nor any other device depends on the device's interrupt. */
    method ForgetIntr(dev: Device, ghost was: Index<Device>, ghost irq: int)
      requires Valid() && WellFormed(was) && forall i :: 0 <= i < |was| && dev in was[i].devs ==> was[i].irq == irq
      requires index == Detach(was, dev, irq) || (index == was && Position(was, irq) == |was|)
      modifies dev`intr
      ensures Valid() && index == Detach(was, dev, irq) && !Has(index, dev) && dev.intr == INTR_SPARE
    {
      hide WellFormed, Covered, Handled, ListChain;
      DetachKeeps(was, dev, irq);
      assert forall i :: 0 <= i < |index| ==> dev !in index[i].devs;
      dev.intr := INTR_SPARE;
    }

    /** The inner loop on the list at `p`, which is the device's interrupt's. Nothing changes unless the
        list has the device. */
    method SearchList(curr: DevList, prev: DevList, dev: Device, ghost p: nat) returns (found: bool)
      requires Valid() && p < |lists| && curr == lists[p] && index[p].irq == dev.intr
      requires prev == if p == 0 then lists[0] else lists[p - 1]
      modifies this`devices, this`handlers, this`lists, this`index, lists, nodes`next
      ensures Valid() && found == (dev in old(index)[p].devs)
      ensures index == Detach(old(index), dev, dev.intr)
      ensures !found ==> unchanged(this)
      ensures forall l :: l in lists ==> l in old(lists)
    {
      hide WellFormed, Has, Covered, Handled, Detach, Inner, ListChain;
      found := false;
      var g, k := index[p], 0;
      var currDev, prevDev := curr.device, curr.device;
      ListOfGroup(p);
      while currDev != null
        invariant k <= |g.devs| && currDev == (if k < |g.devs| then g.devs[k] else null)
        invariant prevDev == if k == 0 then g.devs[0] else g.devs[k - 1]
        invariant dev !in g.devs[..k]
        decreases |g.devs| - k
      {
        if currDev == dev {
          RemoveFound(curr, prev, prevDev, dev, p, k);
          return true;
        }
        if prevDev != currDev {
          prevDev := prevDev.next;
        }
        currDev := currDev.next;
        k := k + 1;
      }
      DetachAbsent(index, dev, p);
    }

    lemma ListOfGroup(p: nat)
      requires Valid() && p < |lists|
      ensures DevChain(lists[p].device, index[p].devs) && index[p].devs != []
      ensures forall i :: 0 <= i < |index[p].devs| ==> index[p].devs[i] in nodes
    {
    }

    lemma AbsentUnless(dev: Device)
      requires Valid()
      ensures forall i :: 0 <= i < |index| && dev in index[i].devs ==> index[i].irq == dev.intr
    {
    }

    /** The device leaves its list; an emptied list leaves the index and its handler is detached. */
    method RemoveFound(curr: DevList, prev: DevList, prevDev: Device, dev: Device, ghost p: nat, ghost k: nat)
      requires Valid() && p < |lists| && curr == lists[p] && k < |index[p].devs| && index[p].devs[k] == dev
      requires prev == if p == 0 then lists[0] else lists[p - 1]
      requires prevDev == if k == 0 then index[p].devs[0] else index[p].devs[k - 1]
      modifies this`devices, this`handlers, this`lists, this`index, lists, nodes`next
      ensures Valid() && index == Detach(old(index), dev, old(index)[p].irq)
      ensures forall l :: l in lists ==> l in old(lists)
    {
      hide *;
      IsFirst(p, k);
      if dev == curr.device {
        RemoveFirst(curr, prev, dev, p);
      } else {
        RemoveLater(curr, prevDev, dev, p, k);
      }
    }

    method RemoveFirst(curr: DevList, prev: DevList, dev: Device, ghost p: nat)
      requires Valid() && p < |lists| && curr == lists[p] && index[p].devs != [] && index[p].devs[0] == dev
      requires prev == if p == 0 then lists[0] else lists[p - 1]
      modifies this`devices, this`handlers, this`lists, this`index, lists
      ensures Valid() && index == Detach(old(index), dev, old(index)[p].irq)
      ensures forall l :: l in lists ==> l in old(lists)
    {
      hide WellFormed, Has, Covered, Handled, Detach, Inner, ListChain;
      DetachAt(index, dev, p, 0, nodes, handlers, lists);
      IsFirst(p, 0);
      DropFirst(curr, index[p]);
      assert forall i :: 0 <= i < |index| && i != p ==> Inner(lists[i], index[i]);
      if curr.device == null {
        RemoveList(curr, prev, p);
      } else {
        index := index[p := Group(index[p].irq, Without(index[p].devs, 0))];
      }
    }

    method RemoveList(curr: DevList, prev: DevList, ghost p: nat)
      requires ListChain(devices, lists) && NoRepeats(lists) && p < |lists| == |index| && curr == lists[p]
      requires prev == if p == 0 then lists[0] else lists[p - 1]
      requires forall i :: 0 <= i < |index| && i != p ==> Inner(lists[i], index[i])
      requires WellFormed(Without(index, p)) && Covered(index, nodes) && Covered(Without(index, p), nodes)
      requires Handled(handlers - {curr}, Without(lists, p), Without(index, p))
      modifies this`devices, this`handlers, this`lists, this`index, lists`next
      ensures Valid() && index == Without(old(index), p)
      ensures forall l :: l in lists ==> l in old(lists)
    {
      hide WellFormed, Has, Handled, Detach, Inner, ListChain;
      UnlinkList(curr, prev, p);
      assert forall i :: 0 <= i < |index| && i != p ==> Inner(lists[i], index[i]);
      handlers := handlers - {curr};
      DropLists(p);
    }

    ghost method DropLists(p: nat)
      requires p < |lists| == |index| && forall i :: 0 <= i < |index| && i != p ==> Inner(lists[i], index[i])
      modifies this`lists, this`index
      ensures lists == Without(old(lists), p) && index == Without(old(index), p)
      ensures forall i :: 0 <= i < |index| ==> Inner(lists[i], index[i])
      ensures forall l :: l in lists ==> l in old(lists)
    {
      hide Inner;
      lists, index := Without(lists, p), Without(index, p);
      forall i | 0 <= i < |index| ensures Inner(lists[i], index[i]) {
        var j := if i < p then i else i + 1;
        assert lists[i] == old(lists)[j] && index[i] == old(index)[j];
      }
    }

    method RemoveLater(curr: DevList, prevDev: Device, dev: Device, ghost p: nat, ghost k: nat)
      requires Valid() && p < |lists| && curr == lists[p]
      requires 0 < k < |index[p].devs| && index[p].devs[k] == dev && index[p].devs[k - 1] == prevDev
      modifies this`index, nodes`next
      ensures Valid() && index == Detach(old(index), dev, old(index)[p].irq)
    {
      hide WellFormed, Has, Covered, Handled, Detach, Inner, ListChain;
      DetachAt(index, dev, p, k, nodes, handlers, lists);
      IsFirst(p, k);
      assert prevDev in index[p].devs;
      assert forall i :: 0 <= i < |index| && i != p ==>
        Apart(index[i].devs, index[p].devs) && prevDev !in index[i].devs;
      DropLater(curr, prevDev, dev, index[p], k);
      assert forall i :: 0 <= i < |index| && i != p ==> Inner(lists[i], index[i]);
      index := index[p := Group(index[p].irq, Without(index[p].devs, k))];
    }

    /** The device found is the list's first exactly when it is at the head. */
    lemma IsFirst(p: nat, k: nat)
      requires Valid() && p < |lists| && k < |index[p].devs|
      ensures index[p].devs[k] == lists[p].device <==> k == 0
      ensures NoRepeats(index[p].devs)
      ensures forall i :: 0 <= i < |index[p].devs| ==> index[p].devs[i] in nodes
      ensures forall i :: 0 <= i < |lists| && i != p ==> lists[i] != lists[p]
    {
    }

    method UnlinkList(curr: DevList, prev: DevList, ghost p: nat)
      requires ListChain(devices, lists) && NoRepeats(lists) && p < |lists| && curr == lists[p]
      requires prev == if p == 0 then lists[0] else lists[p - 1]
      modifies this`devices, lists`next
      ensures ListChain(devices, Without(lists, p)) && NoRepeats(Without(lists, p))
    {
      if curr == devices {
        devices := devices.next;
      } else {
        prev.next := curr.next;
      }
    }

    /** `*owner = curr` for the last owner. */
    method LinkEnd(owner: DevList?, curr: DevList)
      requires ListChain(devices, lists) && NoRepeats(lists) && curr !in lists && curr.next == null
      requires owner == if lists == [] then null else lists[|lists| - 1]
      modifies this`devices, lists`next
      ensures ListChain(devices, lists + [curr]) && NoRepeats(lists + [curr])
      ensures curr.next == null
    {
      if owner == null {
        devices := curr;
      } else {
        owner.next := curr;
      }
    }
  }

  method DropFirst(curr: DevList, ghost g: Group<Device>)
    requires Inner(curr, g) && g.devs != []
    modifies curr`device
    ensures Inner(curr, Group(g.irq, Without(g.devs, 0))) && (curr.device == null <==> |g.devs| == 1)
  {
    curr.device := curr.device.next;
    assert Without(g.devs, 0) == g.devs[1..];
  }

  method DropLater(curr: DevList, prevDev: Device, dev: Device, ghost g: Group<Device>, ghost k: nat)
    requires Inner(curr, g) && NoRepeats(g.devs) && 0 < k < |g.devs| && g.devs[k] == dev && g.devs[k - 1] == prevDev
    modifies prevDev`next
    ensures Inner(curr, Group(g.irq, Without(g.devs, k)))
  {
    prevDev.next := dev.next;
  }

  method PushDevice(curr: DevList, dev: Device, ghost g: Group<Device>)
    requires Inner(curr, g) && dev !in g.devs && dev.intr == g.irq
    modifies dev`next, curr`device
    ensures Inner(curr, Group(g.irq, [dev] + g.devs)) && curr.device == dev && dev.next == old(curr.device)
  {
    dev.next := curr.device;
    curr.device := dev;
  }

  lemma EmptyInner(curr: DevList, irq: int)
    requires curr.device == null
    ensures Inner(curr, Group(irq, []))
  {
  }

  lemma AttachToGroup(ix: Index<Device>, dev: Device, p: nat, nodes: set<Device>, hs: map<DevList, int>,
                     ls: seq<DevList>)
    requires WellFormed(ix) && !Has(ix, dev) && p < |ix| && Covered(ix, nodes) && Handled(hs, ls, ix)
    ensures var ix' := ix[p := Group(ix[p].irq, [dev] + ix[p].devs)];
      WellFormed(ix') && Covered(ix', nodes + {dev}) && Handled(hs, ls, ix')
    ensures forall i :: 0 <= i < |ix| ==> dev !in ix[i].devs
  {
    PositionUnique(ix, p);
    AttachKeeps(ix, dev, ix[p].irq);
  }

  lemma AttachAsGroup(ix: Index<Device>, dev: Device, irq: int, nodes: set<Device>, hs: map<DevList, int>,
                      ls: seq<DevList>, curr: DevList)
    requires WellFormed(ix) && !Has(ix, dev) && Position(ix, irq) == |ix| && Covered(ix, nodes) && Handled(hs, ls, ix)
    requires curr !in ls
    ensures var ix' := ix + [Group(irq, [dev])];
      WellFormed(ix') && Covered(ix', nodes + {dev}) && Handled(hs[curr := irq], ls + [curr], ix')
    ensures forall i :: 0 <= i < |ix| ==> dev !in ix[i].devs
  {
    AttachKeeps(ix, dev, irq);
  }

  /** The detached index when the device is the `k`-th of the group at `p`. */
  lemma DetachAt(ix: Index<Device>, dev: Device, p: nat, k: nat, nodes: set<Device>, hs: map<DevList, int>,
                     ls: seq<DevList>)
    requires WellFormed(ix) && p < |ix| && k < |ix[p].devs| && ix[p].devs[k] == dev
    requires Covered(ix, nodes) && Handled(hs, ls, ix) && NoRepeats(ls)
    ensures WellFormed(Detach(ix, dev, ix[p].irq)) && Covered(Detach(ix, dev, ix[p].irq), nodes)
    ensures |ix[p].devs| > 1 ==>
      var ix' := ix[p := Group(ix[p].irq, Without(ix[p].devs, k))];
      Detach(ix, dev, ix[p].irq) == ix' && Handled(hs, ls, ix')
    ensures |ix[p].devs| == 1 ==>
      Detach(ix, dev, ix[p].irq) == Without(ix, p) && Handled(hs - {ls[p]}, Without(ls, p), Without(ix, p))
    ensures forall i :: 0 <= i < |ix| && i != p ==> Apart(ix[i].devs, ix[p].devs)
  {
    hide WellFormed, Detach, Covered, Handled, Position;
    DetachValue(ix, dev, p, k);
    GroupsApart(ix, p, dev);
    DetachWellFormed(ix, dev, ix[p].irq);
    HandledWithout(hs, ls, ix, p);
    HandledSame(hs, ls, ix, p, Without(ix[p].devs, k));
    CoveredShrunk(ix, p, k, nodes);
  }

  lemma GroupsApart(ix: Index<Device>, p: nat, dev: Device)
    requires WellFormed(ix) && p < |ix| && dev in ix[p].devs
    ensures forall i :: 0 <= i < |ix| && i != p ==> Apart(ix[i].devs, ix[p].devs)
    ensures forall i :: 0 <= i < |ix| && dev in ix[i].devs ==> ix[i].irq == ix[p].irq
  {
  }

  lemma HandledSame(hs: map<DevList, int>, ls: seq<DevList>, ix: Index<Device>, p: nat, rest: seq<Device>)
    requires Handled(hs, ls, ix) && p < |ix|
    ensures Handled(hs, ls, ix[p := Group(ix[p].irq, rest)])
  {
  }

  lemma DetachValue(ix: Index<Device>, dev: Device, p: nat, k: nat)
    requires WellFormed(ix) && p < |ix| && k < |ix[p].devs| && ix[p].devs[k] == dev
    ensures var rest := Without(ix[p].devs, k);
      Detach(ix, dev, ix[p].irq) == if |ix[p].devs| == 1 then Without(ix, p) else ix[p := Group(ix[p].irq, rest)]
  {
    PositionUnique(ix, p);
    MinusAt(ix[p].devs, dev, k);
  }

  lemma CoveredShrunk(ix: Index<Device>, p: nat, k: nat, nodes: set<Device>)
    requires Covered(ix, nodes) && p < |ix| && k < |ix[p].devs|
    ensures Covered(Without(ix, p), nodes)
    ensures Covered(ix[p := Group(ix[p].irq, Without(ix[p].devs, k))], nodes)
  {
  }

  lemma DetachAbsent(ix: Index<Device>, dev: Device, p: nat)
    requires WellFormed(ix) && p < |ix| && dev !in ix[p].devs
    ensures Detach(ix, dev, ix[p].irq) == ix
  {
    PositionUnique(ix, p);
    MinusAbsent(ix[p].devs, dev);
  }

  lemma HandledWithout(hs: map<DevList, int>, ls: seq<DevList>, ix: Index<Device>, p: nat)
    requires Handled(hs, ls, ix) && NoRepeats(ls) && p < |ix|
    ensures Handled(hs - {ls[p]}, Without(ls, p), Without(ix, p))
  {
    forall l | l in hs - {ls[p]} ensures l in Without(ls, p) {
      var i :| 0 <= i < |ls| && ls[i] == l;
      assert Without(ls, p)[if i < p then i else i - 1] == l;
    }
  }
}
