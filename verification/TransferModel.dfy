/** The MMC transfer engine: one active request, the stop-command machine, chunked DMA and port
    transfers, as functions of the driver's state and of what the controller answers. */
module TransferModel {
  import PioLoop
  import opened Words

  datatype Status = InProgress | Completed | Failed

  datatype Phase = Idle | Ident | Data

  /** Whether the transfer owes a stop command: none, one to issue, one issued, or the host's own. */
  datatype Stop = NoStop | Pending | Issued | Auto

  datatype Dir = In | Out

  datatype Layout = Flat(len: nat) | Scatter(sizes: seq<nat>)

  /** A request: a read or write, another command answered at once, or a device control, which is
      answered even while a card is identified. */
  datatype Kind =
    | ReadWrite(dir: Dir, lba: uint32, layout: Layout, phys: bool)
    | Plain(ok: bool)
    | Control(ok: bool)

  /** What the controller answers when the request is started: the partition switch, the wait for the
      card, the bytes it sets up, and whether it takes the command. */
  datatype Luck = Luck(partition: bool, ready: bool, setup: nat, sent: bool)

  /** `check` is the SCSI check status the request comes with, `luck` what starting it meets. */
  datatype Ccb = Ccb(id: nat, kind: Kind, check: bool, luck: Luck)

  type Positive = x: nat | x > 0 witness 1

  datatype Host = Host(pio: bool, pioPort: bool, dmaPort: bool, sgPort: bool, autoStop: bool, blksize: Positive,
                       cardIntr: bool, checkStatus: bool)

  /** A data command: its block, its place in the buffer and its bytes. */
  datatype Chunk = Chunk(blkno: uint32, offset: nat, n: nat)

  /** What an execution of a request has done: its data commands, the stop commands that completed
      without a data error, those of the current stop sequence, whether it saw a data error, the bytes
      the controller set up for its first command, and the bytes the port moved. */
  datatype History = History(chunks: seq<Chunk>, stopped: nat, stops: nat, faulted: bool, setup: nat, ported: nat)

  /** The executions of a request, and what the earlier ones left: a data error, and commands that were
      owed a stop when the request was started over. */
  datatype Past = Past(executions: nat, faulted: bool, unstopped: nat)

  datatype Card = Card(ready: bool, writeProtected: bool, inserted: bool, resetting: bool)

  /** The pulses the control thread has yet to take. Their priorities are options, so it may take them in
      any order. */
  datatype Pulses = Pulses(insertions: nat, removals: nat, resets: nat)

  datatype Posted = Posted(ccb: Ccb, status: Status, stop: Stop, offset: int, nbytes: nat, history: History, past: Past)

  /** `status` and `check` are the active request's. An `offset` of -1 is a finished port transfer. */
  datatype Ext = Ext(
    nexus: Option<Ccb>, status: Status, check: bool, phase: Phase, stop: Stop, retries: nat,
    dir: Dir, offset: int, nbytes: nat, blkno: uint32, history: History, past: Past, card: Card,
    pulses: Pulses, queue: seq<Ccb>, posted: seq<Posted>)

  const Fresh: History := History([], 0, 0, false, 0, 0)
  const Unstarted: Past := Past(0, false, 0)
  const NoPulses: Pulses := Pulses(0, 0, 0)

  function Total(sizes: seq<nat>): nat {
    if sizes == [] then 0 else Total(sizes[..|sizes| - 1]) + sizes[|sizes| - 1]
  }

  function Length(layout: Layout): nat {
    match layout
    case Flat(len) => len
    case Scatter(sizes) => Total(sizes)
  }

  /** A request's buffer, its pieces end to end. */
  function Pieces(sizes: seq<nat>): seq<PioLoop.Segment> {
    if sizes == [] then []
    else Pieces(sizes[..|sizes| - 1]) + [PioLoop.Segment(Total(sizes[..|sizes| - 1]), sizes[|sizes| - 1])]
  }

  function Segments(layout: Layout): seq<PioLoop.Segment> {
    match layout
    case Flat(len) => [PioLoop.Segment(0, len)]
    case Scatter(sizes) => Pieces(sizes)
  }

  function Min(a: nat, b: nat): nat {
    if a < b then a else b
  }

  predicate SameQueues(s: Ext, r: Ext) {
    r.nexus == s.nexus && r.queue == s.queue && r.posted == s.posted
  }

  // ----- starting a request -----

  /** Every error the driver reports for the active request is a failure. */
  function Fail(s: Ext): (r: Ext)
    ensures SameQueues(s, r) && (s.nexus.Some? ==> r.status == Failed)
  {
    if s.nexus.Some? then s.(status := Failed) else s
  }

  function StopFor(h: Host, n: nat): Stop {
    if n == h.blksize then NoStop else if h.autoStop then Auto else Pending
  }

  /** The data commands that need a stop command from the driver: those not of one block, on a host that does
      not stop them itself. */
  function Multis(h: Host, chunks: seq<Chunk>): nat {
    if chunks == [] then 0
    else Multis(h, chunks[..|chunks| - 1]) + if !h.autoStop && chunks[|chunks| - 1].n != h.blksize then 1 else 0
  }

  function Unstopped(h: Host, history: History): nat {
    var multis := Multis(h, history.chunks);
    if multis < history.stopped then 0 else multis - history.stopped
  }

  /** A data command for `n` bytes decides the stop, taken or not. */
  function SendRw(h: Host, s: Ext, n: nat, sent: bool): (r: Ext)
    ensures SameQueues(s, r)
  {
    var c := Chunk(s.blkno, if s.offset < 0 then 0 else s.offset, n);
    s.(stop := StopFor(h, n),
       history := if sent then s.history.(chunks := s.history.chunks + [c]) else s.history)
  }

  function BlocksOn(blkno: uint32, n: nat, blksize: Positive): uint32 {
    (blkno + n / blksize) % LIMIT32
  }

  /** The next chunk of a flat DMA transfer, or its end. */
  function DmaRw(h: Host, s: Ext, setup: nat, sent: bool): (r: Ext)
    ensures SameQueues(s, r)
  {
    if s.nbytes == s.offset then s.(status := Completed, check := false)
    else
      var n := if s.offset <= s.nbytes then Min(setup, s.nbytes - s.offset) else 0;
      if n == 0 then Fail(s)
      else
        var s := SendRw(h, s, n, sent);
        if !sent then Fail(s) else s.(offset := s.offset + n, blkno := BlocksOn(s.blkno, n, h.blksize))
  }

  function PioInitiate(h: Host, s: Ext, phys: bool, len: nat, luck: Luck): (r: Ext)
    ensures SameQueues(s, r)
  {
    if phys then Fail(s)
    else
      var s := s.(nbytes := len);
      if luck.setup != len then Fail(s)
      else
        var s := SendRw(h, s, len, luck.sent);
        if luck.sent && len > 0 then s.(phase := Data, status := InProgress) else Fail(s)
  }

  function DmaInitiate(h: Host, s: Ext, layout: Layout, luck: Luck): (r: Ext)
    ensures SameQueues(s, r)
  {
    match layout
    case Scatter(sizes) =>
      var n := Min(luck.setup, Total(sizes));
      if !h.sgPort || !luck.ready || n == 0 then Fail(s)
      else
        var s := SendRw(h, s, n, luck.sent);
        if luck.sent then s.(status := InProgress, phase := Data, nbytes := n, offset := n) else Fail(s)
    case Flat(len) =>
      var s := DmaRw(h, s.(status := InProgress, nbytes := len), luck.setup, luck.sent);
      if s.status == InProgress then s.(phase := Data) else s
  }

  /** What the executions so far leave when another begins. */
  function Before(h: Host, s: Ext): Past {
    Past(s.past.executions + 1, s.past.faulted || s.history.faulted, s.past.unstopped + Unstopped(h, s.history))
  }

  /** A read or write is executed from its beginning; only the check status stays. */
  function Execute(h: Host, s: Ext, dir: Dir, lba: uint32, layout: Layout, phys: bool, luck: Luck): (r: Ext)
    ensures SameQueues(s, r)
  {
    var s := s.(offset := 0, dir := dir, blkno := lba, history := Fresh.(setup := luck.setup), past := Before(h, s));
    if !luck.partition then Fail(s)
    else if h.pio then if h.pioPort then PioInitiate(h, s, phys, Length(layout), luck) else Fail(s)
    else if h.dmaPort then DmaInitiate(h, s, layout, luck) else Fail(s)
  }

  /** While a card is identified, a command waits. */
  function IoCmds(h: Host, s: Ext, ccb: Ccb, luck: Luck): (r: Ext)
    ensures SameQueues(s, r)
  {
    if s.phase == Ident then s
    else
      match ccb.kind
      case ReadWrite(dir, lba, layout, phys) =>
        if (dir == Out && s.card.writeProtected) || !s.card.ready then Fail(s)
        else Execute(h, s, dir, lba, layout, phys, luck)
      case Plain(ok) => s.(status := if ok then Completed else Failed)
      case Control(ok) => s.(status := if ok then Completed else Failed)
  }

  function Start(h: Host, s: Ext, ccb: Ccb): (r: Ext)
    ensures r.nexus == Some(ccb) && r.queue == s.queue && r.posted == s.posted
  {
    var s := s.(nexus := Some(ccb), status := InProgress, check := ccb.check, history := Fresh, past := Unstarted);
    match ccb.kind
    case Control(ok) => s.(status := if ok then Completed else Failed)
    case _ => IoCmds(h, s, ccb, ccb.luck)
  }

  function Post(s: Ext): Ext {
    match s.nexus
    case None => s
    case Some(ccb) =>
      s.(nexus := None, posted := s.posted + [Posted(ccb, s.status, s.stop, s.offset, s.nbytes, s.history, s.past)])
  }

  /** Requests are taken while none is active. */
  function StartCcb(h: Host, s: Ext): Ext
    decreases |s.queue|
  {
    if s.nexus.Some? || s.queue == [] then s
    else
      var s1 := Start(h, s.(queue := s.queue[1..]), s.queue[0]);
      if s1.status == InProgress then s1 else StartCcb(h, Post(s1))
  }

  // ----- pulses -----

  /** How the identification handler's call for an interrupt ends; when it finishes, it has found whether the
      card is write protected. */
  datatype Identification = Continues | Finishes(locked: bool) | Fails

  /** An interrupt's causes and the controller's answers while it is handled: whether the card is
      present, a stop command is taken, DMA ended well, the next chunk's set-up and command are taken,
      the card's status after a single-block read is read, the card becomes ready, what starting the
      active request over meets, and the bytes the port moves. */
  datatype Intr = Intr(
    card: bool, command: bool, data: bool, error: bool, buffer: bool,
    ident: Identification, present: bool, stopSent: bool, dmaDone: bool, setup: nat, sent: bool,
    statusRead: bool, cardReady: bool, luck: Luck, ported: nat)

  /** A card that has come or gone is told to the control thread. */
  function Noticed(p: Pulses, was: bool, present: bool): Pulses {
    if present == was then p
    else if present then p.(insertions := p.insertions + 1)
    else p.(removals := p.removals + 1)
  }

  function WantReset(p: Pulses): Pulses {
    p.(resets := p.resets + 1)
  }

  function MediaCheck(s: Ext, present: bool): (r: Ext)
    ensures SameQueues(s, r)
  {
    s.(card := s.card.(inserted := present,
                       ready := s.card.ready && (present || !s.card.inserted)),
       pulses := Noticed(s.pulses, s.card.inserted, present))
  }

  /** A stop command, the first of its sequence. */
  function FirstStop(s: Ext, sent: bool): (r: Ext)
    ensures SameQueues(s, r)
  {
    var s := s.(history := s.history.(stops := 1));
    if sent then s.(stop := Issued) else Fail(s).(stop := NoStop)
  }

  function DmaIrq(h: Host, s: Ext, stopSent: bool, setup: nat, sent: bool): (r: Ext)
    ensures SameQueues(s, r)
  {
    if s.stop == Pending then FirstStop(s, stopSent) else DmaRw(h, s, setup, sent)
  }

  function PioStop(s: Ext, dir: Dir, sent: bool): (r: Ext)
    ensures SameQueues(s, r)
  {
    if s.dir != dir then s
    else if s.stop == Pending then FirstStop(s, sent)
    else s.(status := Completed, check := false)
  }

  /** The port transfer runs to its end in one call, which moves what `PioLoop.Transfer.MoveScatter` says. */
  function PioRw(s: Ext, i: Intr): (r: Ext)
    ensures SameQueues(s, r)
  {
    if s.offset == -1 then PioStop(s, Out, i.stopSent)
    else PioStop(s.(offset := -1, history := s.history.(ported := Min(i.ported, s.nbytes))), In, i.stopSent)
  }

  /** The driver gives up on a stop command: the card is to be reset. */
  function GiveUp(s: Ext): (r: Ext)
    ensures SameQueues(s, r)
  {
    Fail(s).(phase := Ident, stop := NoStop, pulses := WantReset(s.pulses))
  }

  /** A stop command that failed is issued again, until the driver gives up on it. */
  function StopError(s: Ext, present: bool, sent: bool): (r: Ext)
    ensures SameQueues(s, r)
  {
    var s := MediaCheck(s, present);
    if !s.card.inserted then Fail(s).(retries := 0, stop := NoStop)
    else
      var tired := s.retries > 5;
      var s := s.(retries := s.retries + 1,
                  history := if tired then s.history else s.history.(stops := s.history.stops + 1));
      if tired || !sent then GiveUp(s) else s
  }

  /** A completed stop command. */
  function StopDone(h: Host, s: Ext, stopSent: bool, setup: nat, sent: bool): (r: Ext)
    ensures SameQueues(s, r)
  {
    var s := s.(retries := 0, stop := NoStop);
    if s.check then Fail(s)
    else
      var s := s.(history := s.history.(stopped := s.history.stopped + 1));
      if h.pio then s.(status := Completed, check := false) else DmaIrq(h, s, stopSent, setup, sent)
  }

  /** An interrupt while a stop command is awaited. */
  function StopIrq(h: Host, s: Ext, i: Intr): (r: Ext)
    ensures SameQueues(s, r)
  {
    if i.error then StopError(s, i.present, i.stopSent)
    else if i.command then StopDone(h, s, i.stopSent, i.setup, i.sent)
    else s
  }

  /** A data error is answered with a stop command; the check status marks the request meanwhile. */
  function DataError(s: Ext, present: bool, sent: bool): (r: Ext)
    ensures SameQueues(s, r)
  {
    var s := MediaCheck(s, present).(history := s.history.(faulted := true));
    if !s.card.inserted then Fail(s).(stop := NoStop) else FirstStop(s, sent).(check := sent || s.check)
  }

  /** The data of a command is there, or gone. */
  function DataDone(h: Host, s: Ext, i: Intr): (r: Ext)
    ensures SameQueues(s, r)
  {
    if h.pio then PioRw(s, i) else if i.dmaDone then DmaIrq(h, s, i.stopSent, i.setup, i.sent) else Fail(s)
  }

  /** An interrupt of the data phase proper. */
  function TransferIrq(h: Host, s: Ext, i: Intr): (r: Ext)
    ensures SameQueues(s, r)
  {
    var s := s.(retries := 0);
    if i.error then DataError(s, i.present, i.stopSent)
    else if i.data then DataDone(h, s, i)
    else if i.buffer then PioRw(s, i)
    else s
  }

  function DataIrq(h: Host, s: Ext, i: Intr): (r: Ext)
    ensures SameQueues(s, r)
  {
    if s.stop == Issued then StopIrq(h, s, i) else TransferIrq(h, s, i)
  }

  function Identified(s: Ext, locked: bool): (r: Ext)
    ensures SameQueues(s, r)
  {
    s.(phase := Idle, card := s.card.(resetting := false, ready := true, writeProtected := locked))
  }

  /** The card is identified; an active request is executed from its beginning. */
  function IdentDone(h: Host, s: Ext, luck: Luck, locked: bool): (r: Ext)
    ensures SameQueues(s, r)
  {
    var s := Identified(s, locked);
    if s.nexus.Some? then IoCmds(h, s, s.nexus.value, luck) else s
  }

  function IdentFailed(s: Ext, present: bool): (r: Ext)
    ensures SameQueues(s, r)
  {
    var s := Fail(s);
    if s.card.resetting then s.(pulses := WantReset(s.pulses)) else
      var s := s.(phase := Idle);
      if present then s else MediaCheck(s, false)
  }

  function IdentIrq(h: Host, s: Ext, ident: Identification, present: bool, luck: Luck): (r: Ext)
    ensures SameQueues(s, r)
  {
    match ident
    case Continues => s
    case Finishes(locked) => IdentDone(h, s, luck, locked)
    case Fails => IdentFailed(s, present)
  }

  /** A finished transfer's last checks of the card. */
  function LastChecks(h: Host, s: Ext, statusRead: bool, cardReady: bool): (r: Ext)
    ensures SameQueues(s, r)
  {
    if s.nexus == None || s.status == InProgress then s
    else
      var single := h.checkStatus && s.status == Completed && s.dir == In && s.nbytes == h.blksize;
      var s := if single && !statusRead then Fail(s) else s;
      if cardReady then s else Fail(s)
  }

  function Finish(s: Ext): Ext {
    if s.nexus.Some? && s.status != InProgress then Post(s).(phase := Idle) else s
  }

  function Dispatch(h: Host, s: Ext, i: Intr): (r: Ext)
    ensures SameQueues(s, r)
  {
    if i.card then Fail(MediaCheck(s, i.present))
    else
      match s.phase
      case Ident => IdentIrq(h, s, i.ident, i.present, i.luck)
      case Data => LastChecks(h, DataIrq(h, s, i), i.statusRead, i.cardReady)
      case Idle => s
  }

  function ProcessInterrupt(h: Host, s: Ext, i: Intr): Ext {
    Finish(Dispatch(h, s, i))
  }

  /** The timer gives up on a card that is gone. */
  function TimerPulse(h: Host, s: Ext, present: bool): Ext {
    var s := if h.cardIntr then s else MediaCheck(s, present);
    if s.nexus.Some? && !s.card.inserted then Finish(Fail(s)) else s
  }

  /** What happens: requests are queued, the driver thread gets a pulse, or the control thread takes one
      of an insertion, a removal or a reset, if it waits; restarting identification succeeds or not. */
  datatype Event =
    | Queued(ccbs: seq<Ccb>) | Interrupted(i: Intr) | Timed(present: bool)
    | Insertion(ok: bool) | Removal | Reset(ok: bool)

  function Insert(s: Ext, ok: bool): (r: Ext)
    requires s.pulses.insertions > 0
    ensures SameQueues(s, r)
  {
    s.(card := s.card.(inserted := true), phase := if ok then Ident else s.phase,
       pulses := s.pulses.(insertions := s.pulses.insertions - 1))
  }

  function Remove(s: Ext): (r: Ext)
    requires s.pulses.removals > 0
    ensures SameQueues(s, r)
  {
    s.(card := s.card.(inserted := false, ready := false), phase := Idle,
       pulses := s.pulses.(removals := s.pulses.removals - 1))
  }

  /** A reset whose restart fails is asked for again. */
  function ResetCard(s: Ext, ok: bool): (r: Ext)
    requires s.pulses.resets > 0
    ensures SameQueues(s, r)
  {
    var taken := s.pulses.(resets := s.pulses.resets - 1);
    if !s.card.inserted then s.(pulses := taken)
    else
      s.(card := s.card.(resetting := true), phase := if ok then Ident else s.phase,
         pulses := if ok then taken else s.pulses)
  }

  function Step(h: Host, s: Ext, e: Event): Ext {
    match e
    case Queued(ccbs) => StartCcb(h, s.(queue := s.queue + ccbs))
    case Interrupted(i) => StartCcb(h, ProcessInterrupt(h, s, i))
    case Timed(present) => StartCcb(h, TimerPulse(h, s, present))
    case Insertion(ok) => if s.pulses.insertions == 0 then s else Insert(s, ok)
    case Removal => if s.pulses.removals == 0 then s else Remove(s)
    case Reset(ok) => if s.pulses.resets == 0 then s else ResetCard(s, ok)
  }

  function Run(h: Host, s: Ext, es: seq<Event>): Ext {
    if es == [] then s else Step(h, Run(h, s, es[..|es| - 1]), es[|es| - 1])
  }
}
