/** What a completed transfer has done: its stop commands, its data errors and the tiling of its
    chunks. */
module TransferSafety {
  import opened TransferModel
  import opened TransferRuns
  import opened Words

  // ----- chunks -----

  function OffsetOf(chunks: seq<Chunk>): nat {
    if chunks == [] then 0 else OffsetOf(chunks[..|chunks| - 1]) + chunks[|chunks| - 1].n
  }

  function BlockAfter(h: Host, lba: uint32, chunks: seq<Chunk>): uint32 {
    if chunks == [] then lba
    else BlocksOn(BlockAfter(h, lba, chunks[..|chunks| - 1]), chunks[|chunks| - 1].n, h.blksize)
  }

  /** Each data command starts where the ones before it end, in the buffer and on the card. */
  predicate Tiled(h: Host, lba: uint32, chunks: seq<Chunk>) {
    chunks == [] ||
    (var last, before := chunks[|chunks| - 1], chunks[..|chunks| - 1];
     Tiled(h, lba, before) && last.n > 0 && last.offset == OffsetOf(before) && last.blkno == BlockAfter(h, lba, before))
  }

  // ----- what a transfer keeps -----

  /** The stop machine: a faulted transfer awaits its stop and is marked; otherwise every multi-block
      command is stopped, but for the one whose stop is owed or awaited. */
  predicate Stopping(h: Host, s: Ext) {
    && (s.history.faulted ==> s.stop == Issued && s.check)
    && (!s.history.faulted ==>
          Multis(h, s.history.chunks) == s.history.stopped + if s.stop == Pending || s.stop == Issued then 1 else 0)
    && s.history.stops <= 7
    && (s.stop == Issued ==> s.history.stops == s.retries + 1 && s.retries <= 6)
    && (h.pio && s.stop == Issued && !s.history.faulted ==> s.offset == -1)
  }

  /** The port's loop has run, and moved no more than there is. */
  predicate AtEnd(offset: int, nbytes: nat, history: History) {
    offset == -1 && history.ported <= nbytes
  }

  /** The place reached in the buffer and on the card. */
  predicate Moving(h: Host, s: Ext, ccb: Ccb)
    requires ccb.kind.ReadWrite?
  {
    var chunks, lba, layout := s.history.chunks, ccb.kind.lba, ccb.kind.layout;
    && Tiled(h, lba, chunks)
    && if h.pio then
         s.nbytes == OffsetOf(chunks) == Length(layout) && |chunks| == 1
         && (s.offset == 0 || AtEnd(s.offset, s.nbytes, s.history))
       else
         match layout
         case Scatter(sizes) => 0 < s.nbytes == s.offset == OffsetOf(chunks) == Min(s.history.setup, Total(sizes))
         case Flat(len) =>
           s.offset == OffsetOf(chunks) <= s.nbytes == len && s.blkno == BlockAfter(h, lba, chunks)
  }

  /** The controller has the port the request needs, and there is something to move. */
  predicate Able(h: Host, kind: Kind) {
    && kind.ReadWrite? && Length(kind.layout) > 0
    && if h.pio then h.pioPort && !kind.phys else h.dmaPort && (kind.layout.Scatter? ==> h.sgPort)
  }

  /** Some command for the request would need a stop from the driver. */
  predicate MayOwe(h: Host, kind: Kind) {
    && Able(h, kind) && !h.autoStop
    && if h.pio then Length(kind.layout) != h.blksize else Length(kind.layout) > 1 || h.blksize > 1
  }

  /** The data phase of a read or write. */
  predicate Transferring(h: Host, s: Ext) {
    s.phase == Data && s.nexus.Some? ==>
      && Able(h, s.nexus.value.kind) && s.history.chunks != []
      && Stopping(h, s)
      && Moving(h, s, s.nexus.value)
  }

  predicate EverFaulted(past: Past, history: History) {
    past.faulted || history.faulted
  }

  /** What an active request carries through every phase and every restart: a data error, like the check
      status it came with, leaves it marked, and a marked request completes no stop; a command that needs a
      stop was possible for it. */
  predicate Remembers(h: Host, s: Ext, ccb: Ccb) {
    && (EverFaulted(s.past, s.history) || ccb.check ==> s.check)
    && (s.past.faulted || ccb.check ==> s.history.stopped == 0)
    && (EverFaulted(s.past, s.history) ==> Able(h, ccb.kind))
    && (s.past.faulted || s.past.unstopped > 0 ==> s.past.executions >= 2)
    && (s.history.faulted || s.history.chunks != [] ==> s.past.executions >= 1)
    && (s.past.unstopped > 0 || Multis(h, s.history.chunks) > 0 ==> MayOwe(h, ccb.kind))
  }

  /** A completed read or write. Its last execution saw no data error; every multi-block command of that
      execution was stopped, with the stop command's completion, or by the host; and its commands tile
      the bytes asked for. Of a scatter list they tile what the controller set up, which nothing compares
      with the list. On a host without DMA the port's loop has run, whatever it moved. If an earlier
      execution saw a data error, the request was started over, and its
      last execution needed no stop from the driver. */
  predicate Complete(h: Host, p: Posted) {
    p.status == Completed && p.ccb.kind.ReadWrite? ==>
      var chunks, layout := p.history.chunks, p.ccb.kind.layout;
      && !p.history.faulted
      && Multis(h, chunks) == p.history.stopped
      && (chunks != [] ==> p.stop == NoStop || p.stop == Auto)
      && Tiled(h, p.ccb.kind.lba, chunks)
      && OffsetOf(chunks) ==
         (if layout.Scatter? && !h.pio then Min(p.history.setup, Length(layout)) else Length(layout))
      && (p.past.faulted || p.ccb.check ==> Multis(h, chunks) == 0)
      && (p.past.faulted ==> Able(h, p.ccb.kind) && p.past.executions >= 2)
      && (p.past.unstopped > 0 ==> MayOwe(h, p.ccb.kind) && p.past.executions >= 2)
      && (h.pio ==> |chunks| == 1 && AtEnd(p.offset, Length(layout), p.history))
      && (layout.Scatter? ==> OffsetOf(chunks) > 0)
  }

  predicate AllComplete(h: Host, posted: seq<Posted>) {
    forall p :: p in posted ==> Complete(h, p) && p.history.stops <= 7
  }

  predicate Inv(h: Host, s: Ext) {
    && Waiting(s) && Transferring(h, s) && AllComplete(h, s.posted) && s.history.stops <= 7
    && (s.nexus.Some? ==> Remembers(h, s, s.nexus.value))
  }

  /** A controller without port transfers raises no buffer interrupt. */
  predicate Quiet(h: Host, e: Event) {
    e.Interrupted? && !h.pio ==> !e.i.buffer
  }

  // ----- the chunks of one command -----

  lemma AppendChunk(h: Host, lba: uint32, chunks: seq<Chunk>, c: Chunk)
    ensures var r := chunks + [c];
      && OffsetOf(r) == OffsetOf(chunks) + c.n
      && BlockAfter(h, lba, r) == BlocksOn(BlockAfter(h, lba, chunks), c.n, h.blksize)
      && Multis(h, r) == Multis(h, chunks) + (if !h.autoStop && c.n != h.blksize then 1 else 0)
      && (Tiled(h, lba, r) <==>
            Tiled(h, lba, chunks) && c.n > 0 && c.offset == OffsetOf(chunks) && c.blkno == BlockAfter(h, lba, chunks))
  {
    hide BlocksOn, StopFor;
    assert (chunks + [c])[..|chunks|] == chunks;
  }

  /** What the active request becomes when its call ends. */
  predicate Outcome(h: Host, ccb: Ccb, s: Ext) {
    && s.history.stops <= 7
    && (s.status == InProgress ==> Transferring(h, s) && Remembers(h, s, ccb))
    && Complete(h, Posted(ccb, s.status, s.stop, s.offset, s.nbytes, s.history, s.past))
  }

  /** Between two commands of a DMA transfer, with nothing owed. */
  predicate Clear(h: Host, s: Ext, ccb: Ccb) {
    && s.nexus == Some(ccb) && ccb.kind.ReadWrite? && !h.pio && s.status == InProgress
    && !s.history.faulted && s.stop != Pending && s.stop != Issued && s.history.stops <= 7
    && Multis(h, s.history.chunks) == s.history.stopped
    && Moving(h, s, ccb) && Remembers(h, s, ccb)
    && h.dmaPort && (ccb.kind.layout.Scatter? ==> h.sgPort) && s.past.executions >= 1
  }

  /** A flat DMA request completes exactly at its length; before it, the next chunk is set up or the
      request fails. */
  lemma DmaRwOutcome(h: Host, s: Ext, ccb: Ccb, setup: nat, sent: bool)
    requires Clear(h, s, ccb) && ccb.kind.layout.Flat?
    ensures var r := DmaRw(h, s, setup, sent);
      && Outcome(h, ccb, r.(phase := Data))
      && (r.status == Completed <==> s.offset == s.nbytes)
      && (r.status == InProgress <==> s.offset < s.nbytes && setup > 0 && sent)
      && (r.status == InProgress ==> s.offset < r.offset <= r.nbytes == s.nbytes)
  {
    hide Tiled, BlocksOn, BlockAfter, OffsetOf, Multis;
    if 0 <= s.offset < s.nbytes {
      var n := Min(setup, s.nbytes - s.offset);
      AppendChunk(h, ccb.kind.lba, s.history.chunks, Chunk(s.blkno, s.offset, n));
    }
  }

  /** The end of a scatter transfer, or the next step of a flat one. */
  lemma NextChunkOutcome(h: Host, s: Ext, ccb: Ccb, i: Intr)
    requires Clear(h, s, ccb) && s.phase == Data
    ensures var r := DmaRw(h, s, i.setup, i.sent);
      Outcome(h, ccb, r) && (r.status == Completed <==> s.offset == s.nbytes)
  {
    hide Tiled, BlocksOn, BlockAfter, OffsetOf, Multis, Outcome;
    if ccb.kind.layout.Flat? {
      DmaRwOutcome(h, s, ccb, i.setup, i.sent);
      DmaRwPhase(h, s, i.setup, i.sent);
    } else {
      ScatterDone(h, s, ccb, i);
    }
  }

  lemma DmaRwPhase(h: Host, s: Ext, setup: nat, sent: bool)
    ensures DmaRw(h, s, setup, sent).phase == s.phase
  {
    hide BlocksOn;
  }

  lemma ScatterDone(h: Host, s: Ext, ccb: Ccb, i: Intr)
    requires Clear(h, s, ccb) && ccb.kind.layout.Scatter?
    ensures Outcome(h, ccb, DmaRw(h, s, i.setup, i.sent))
  {
    hide Tiled, BlocksOn, BlockAfter, OffsetOf, Multis, Total;
  }

  /** An execution that is about to begin, whatever an earlier one left behind. */
  predicate Beginning(s: Ext, ccb: Ccb, luck: Luck) {
    && s.nexus == Some(ccb) && ccb.kind.ReadWrite?
    && s.blkno == ccb.kind.lba && s.offset == 0 && s.history == Fresh.(setup := luck.setup)
    && s.past.executions >= 1
  }

  lemma FirstCommand(h: Host, s: Ext, lba: uint32, n: nat)
    requires s.blkno == lba && s.offset == 0 && s.history.chunks == [] && n > 0
    ensures var r := SendRw(h, s, n, true);
      && Tiled(h, lba, r.history.chunks) && OffsetOf(r.history.chunks) == n
      && Multis(h, r.history.chunks) == (if r.stop == Pending then 1 else 0)
  {
    hide BlocksOn;
    AppendChunk(h, lba, [], Chunk(lba, 0, n));
    assert [] + [Chunk(lba, 0, n)] == [Chunk(lba, 0, n)];
  }

  lemma PioOutcome(h: Host, s: Ext, ccb: Ccb, luck: Luck)
    requires Beginning(s, ccb, luck) && Remembers(h, s, ccb) && h.pio && h.pioPort
    ensures Outcome(h, ccb, PioInitiate(h, s, ccb.kind.phys, Length(ccb.kind.layout), luck))
  {
    hide Tiled, OffsetOf, Multis, Length, BlockAfter;
    var n := Length(ccb.kind.layout);
    if n > 0 {
      FirstCommand(h, s.(nbytes := n), ccb.kind.lba, n);
    }
  }

  lemma ScatterOutcome(h: Host, s: Ext, ccb: Ccb, luck: Luck)
    requires Beginning(s, ccb, luck) && Remembers(h, s, ccb) && !h.pio && h.dmaPort && ccb.kind.layout.Scatter?
    ensures Outcome(h, ccb, DmaInitiate(h, s, ccb.kind.layout, luck))
  {
    hide Total, BlocksOn, Tiled, OffsetOf, Multis, BlockAfter;
    var n := Min(luck.setup, Total(ccb.kind.layout.sizes));
    if n > 0 {
      FirstCommand(h, s, ccb.kind.lba, n);
    }
  }

  /** A stop left over from an earlier request does not matter: the first command decides it. */
  lemma StopForgotten(h: Host, s: Ext, setup: nat, sent: bool)
    requires 0 <= s.offset < s.nbytes && setup > 0
    ensures DmaRw(h, s, setup, sent) == DmaRw(h, s.(stop := NoStop), setup, sent)
  {
    hide BlocksOn;
  }

  lemma NothingTiled(h: Host, s: Ext, ccb: Ccb)
    requires ccb.kind.ReadWrite? && ccb.kind.layout == Flat(s.nbytes) && !h.pio
    requires s.history.chunks == [] && s.offset == 0 && s.blkno == ccb.kind.lba
    ensures Moving(h, s, ccb) && Multis(h, s.history.chunks) == 0
  {
  }

  lemma FlatOutcome(h: Host, s: Ext, ccb: Ccb, luck: Luck)
    requires Beginning(s, ccb, luck) && Remembers(h, s, ccb) && !h.pio && h.dmaPort && ccb.kind.layout.Flat?
    ensures Outcome(h, ccb, DmaInitiate(h, s, ccb.kind.layout, luck))
  {
    var len := ccb.kind.layout.len;
    var s1 := s.(status := InProgress, nbytes := len);
    NothingTiled(h, s1, ccb);
    if len > 0 && luck.setup > 0 {
      hide DmaRw, Tiled, OffsetOf, Multis, BlockAfter, BlocksOn, Moving;
      StopForgotten(h, s1, luck.setup, luck.sent);
      NothingTiled(h, s1.(stop := NoStop), ccb);
      DmaRwOutcome(h, s1.(stop := NoStop), ccb, luck.setup, luck.sent);
    }
  }

  /** Starting over keeps what the earlier executions are remembered by. */
  lemma BeginsAgain(h: Host, s: Ext, ccb: Ccb, luck: Luck)
    requires Remembers(h, s, ccb)
    ensures Remembers(h, s.(history := Fresh.(setup := luck.setup), past := Before(h, s)), ccb)
    ensures Before(h, s).executions >= 1
  {
    if s.history.chunks == [] {
      assert Unstopped(h, s.history) == 0;
    }
  }

  lemma ExecuteOutcome(h: Host, s: Ext, ccb: Ccb, luck: Luck)
    requires s.nexus == Some(ccb) && ccb.kind.ReadWrite? && Remembers(h, s, ccb)
    ensures var k := ccb.kind;
      Outcome(h, ccb, Execute(h, s, k.dir, k.lba, k.layout, k.phys, luck))
  {
    hide PioInitiate, DmaInitiate, Tiled, OffsetOf, Multis, Length, Before;
    BeginsAgain(h, s, ccb, luck);
    var s1 := s.(offset := 0, dir := ccb.kind.dir, blkno := ccb.kind.lba, history := Fresh.(setup := luck.setup),
                 past := Before(h, s));
    if h.pio {
      if h.pioPort {
        PioOutcome(h, s1, ccb, luck);
      }
    } else if h.dmaPort {
      if ccb.kind.layout.Flat? {
        FlatOutcome(h, s1, ccb, luck);
      } else {
        ScatterOutcome(h, s1, ccb, luck);
      }
    }
  }

  lemma IoCmdsOutcome(h: Host, s: Ext, ccb: Ccb, luck: Luck)
    requires s.nexus == Some(ccb) && s.phase != Data && s.history.stops <= 7 && s.status == InProgress
    requires Remembers(h, s, ccb)
    ensures Outcome(h, ccb, IoCmds(h, s, ccb, luck))
  {
    hide Execute, Tiled, OffsetOf, Multis, Length;
    if ccb.kind.ReadWrite? {
      ExecuteOutcome(h, s, ccb, luck);
    }
  }

  /** A read or write in its data phase. */
  predicate InData(h: Host, s: Ext, ccb: Ccb) {
    s.nexus == Some(ccb) && s.phase == Data && s.status == InProgress && Transferring(h, s) && Remembers(h, s, ccb)
  }

  /** What an interrupt does while a stop command is awaited: an error is retried until the sixth retry
      has failed; the completion fails a marked request, completes a port request, and goes on with a DMA
      request, which completes exactly when all of it is moved. */
  predicate StopEffects(h: Host, s: Ext, i: Intr, r: Ext) {
    && (i.error && !i.present ==> r.status == Failed && r.stop == NoStop && r.retries == 0)
    && (i.error && i.present && (s.retries == 6 || !i.stopSent) ==> r.status == Failed && r.stop == NoStop)
    && (i.error && i.present ==> r.history.stops == s.history.stops + if s.retries == 6 then 0 else 1)
    && (i.error && i.present && s.retries < 6 && i.stopSent ==>
          r.status == InProgress && r.stop == Issued && r.retries == s.retries + 1)
    && (!i.error && i.command && s.check ==> r.status == Failed && r.stop == NoStop)
    && (r.status == Completed <==> !i.error && i.command && !s.check && (h.pio || s.offset == s.nbytes))
    && (!i.error && !i.command ==> r == s)
  }

  lemma StopIrqOutcome(h: Host, s: Ext, ccb: Ccb, i: Intr)
    requires InData(h, s, ccb) && s.stop == Issued
    ensures Outcome(h, ccb, StopIrq(h, s, i)) && StopEffects(h, s, i, StopIrq(h, s, i))
  {
    hide Tiled, OffsetOf, Multis, Length, BlockAfter, BlocksOn, DmaRw;
    if !i.error && i.command && !s.check && !h.pio {
      var s1 := s.(retries := 0, stop := NoStop);
      NextChunkOutcome(h, s1.(history := s1.history.(stopped := s1.history.stopped + 1)), ccb, i);
    }
  }

  /** Whether an interrupt ends a step of the transfer: a DMA step when it is done; a port read at once, a
      port write one interrupt after its bytes are moved. */
  predicate Ends(h: Host, s: Ext, i: Intr) {
    && !i.error
    && if h.pio then (i.data || i.buffer) && s.dir == (if s.offset == -1 then Out else In) else i.data && i.dmaDone
  }

  /** What an interrupt does in the data phase proper: an error marks the request and asks for a stop; an
      owed stop is issued before anything completes; and a request completes exactly when none is owed and
      all of it is moved. */
  predicate TransferEffects(h: Host, s: Ext, i: Intr, r: Ext) {
    && r.retries == 0
    && (i.error ==> r.history.faulted)
    && (i.error && i.present && i.stopSent ==> r.check)
    && (i.error || (Ends(h, s, i) && s.stop == Pending) ==>
          if (i.error ==> i.present) && i.stopSent
          then r.status == InProgress && r.stop == Issued && r.history.stops == 1
          else r.status == Failed && r.stop == NoStop)
    && (r.status == Completed <==> Ends(h, s, i) && s.stop != Pending && (h.pio || s.offset == s.nbytes))
  }

  lemma TransferIrqOutcome(h: Host, s: Ext, ccb: Ccb, i: Intr)
    requires InData(h, s, ccb) && s.stop != Issued && (h.pio || !i.buffer)
    ensures Outcome(h, ccb, TransferIrq(h, s, i)) && TransferEffects(h, s, i, TransferIrq(h, s, i))
  {
    hide TransferIrq, TransferEffects, InData, Outcome;
    TransferIrqEffects(h, s, ccb, i);
    if i.error {
      ErrorOutcome(h, s, ccb, i);
    } else if h.pio {
      PortOutcome(h, s, ccb, i);
    } else {
      ChunkOutcome(h, s, ccb, i);
    }
  }

  lemma ErrorOutcome(h: Host, s: Ext, ccb: Ccb, i: Intr)
    requires InData(h, s, ccb) && s.stop != Issued && i.error
    ensures Outcome(h, ccb, TransferIrq(h, s, i))
  {
    hide Tiled, OffsetOf, Multis, Length, BlockAfter, BlocksOn, DmaRw;
  }

  lemma PortOutcome(h: Host, s: Ext, ccb: Ccb, i: Intr)
    requires InData(h, s, ccb) && s.stop != Issued && !i.error && h.pio
    ensures Outcome(h, ccb, TransferIrq(h, s, i))
  {
    hide PioRw, DmaIrq, Outcome, InData;
    AgainInData(h, s, ccb);
    PortStepOutcome(h, s.(retries := 0), ccb, i);
  }

  /** A forgotten count of retries changes nothing else. */
  lemma AgainInData(h: Host, s: Ext, ccb: Ccb)
    requires InData(h, s, ccb) && s.stop != Issued
    ensures InData(h, s.(retries := 0), ccb) && Outcome(h, ccb, s.(retries := 0))
  {
    hide Tiled, OffsetOf, Multis, Length, BlockAfter, BlocksOn, Total, MayOwe;
  }

  lemma PortStepOutcome(h: Host, s: Ext, ccb: Ccb, i: Intr)
    requires InData(h, s, ccb) && s.stop != Issued && h.pio && s.retries == 0
    ensures Outcome(h, ccb, PioRw(s, i))
  {
    hide Tiled, OffsetOf, Multis, Length, BlockAfter, BlocksOn, Total, MayOwe;
  }

  lemma ChunkOutcome(h: Host, s: Ext, ccb: Ccb, i: Intr)
    requires InData(h, s, ccb) && s.stop != Issued && !i.error && !h.pio && !i.buffer
    ensures Outcome(h, ccb, TransferIrq(h, s, i))
  {
    hide Tiled, OffsetOf, Multis, Length, BlockAfter, BlocksOn, DmaRw;
    if i.data && i.dmaDone && s.stop != Pending {
      NextChunkOutcome(h, s.(retries := 0), ccb, i);
    }
  }

  lemma TransferIrqEffects(h: Host, s: Ext, ccb: Ccb, i: Intr)
    requires InData(h, s, ccb) && s.stop != Issued && (h.pio || !i.buffer)
    ensures TransferEffects(h, s, i, TransferIrq(h, s, i))
  {
    hide InData, BlocksOn, DmaRw;
    DataStatus(h, s, ccb);
    DmaRwCompletes(h, s.(retries := 0), i.setup, i.sent);
  }

  lemma DataStatus(h: Host, s: Ext, ccb: Ccb)
    requires InData(h, s, ccb)
    ensures s.nexus == Some(ccb) && s.status == InProgress
  {
  }

  lemma DmaRwCompletes(h: Host, s: Ext, setup: nat, sent: bool)
    requires s.nexus.Some? && s.status == InProgress
    ensures var r := DmaRw(h, s, setup, sent);
      && (r.status == Completed <==> s.offset == s.nbytes)
      && r.retries == s.retries && (r.history.faulted == s.history.faulted)
  {
    hide BlocksOn;
  }

  predicate Completes(h: Host, s: Ext, i: Intr) {
    && (h.pio || s.offset == s.nbytes)
    && if s.stop == Issued then !i.error && i.command && !s.check else Ends(h, s, i) && s.stop != Pending
  }

  /** In the data phase a request completes exactly when an interrupt without error ends a step, or the
      stop of a request that is not marked, with no stop owed and all of it moved. */
  lemma CompletesExactly(h: Host, s: Ext, ccb: Ccb, i: Intr)
    requires InData(h, s, ccb) && (h.pio || !i.buffer)
    ensures DataIrq(h, s, i).status == Completed <==> Completes(h, s, i)
    ensures !h.pio && ccb.kind.layout.Flat? ==>
      (s.offset == s.nbytes <==> OffsetOf(s.history.chunks) == Length(ccb.kind.layout))
  {
    hide StopIrq, TransferIrq, Outcome, Tiled, OffsetOf, Multis, BlockAfter, Stopping;
    if s.stop == Issued {
      StopIrqOutcome(h, s, ccb, i);
    } else {
      TransferIrqOutcome(h, s, ccb, i);
    }
  }

  predicate PostsCompleted(s: Ext, r: Ext) {
    |r.posted| == |s.posted| + 1 && r.posted[..|s.posted|] == s.posted && r.posted[|s.posted|].status == Completed
  }

  /** The card has no last objection: it is ready, and the status read after a single block is good. */
  predicate Agreed(h: Host, s: Ext, i: Intr) {
    i.cardReady && (h.checkStatus && s.dir == In && s.nbytes == h.blksize ==> i.statusRead)
  }

  /** An interrupt of the data phase posts the request as completed exactly when it completes it and the
      card agrees. */
  lemma PostsCompletedExactly(h: Host, s: Ext, ccb: Ccb, i: Intr)
    requires InData(h, s, ccb) && (h.pio || !i.buffer) && !i.card
    ensures PostsCompleted(s, ProcessInterrupt(h, s, i)) <==> Completes(h, s, i) && Agreed(h, s, i)
  {
    hide DataIrq, Completes, Transferring, Remembers, OffsetOf, Length;
    CompletesExactly(h, s, ccb, i);
    DataIrqKeeps(h, s, i);
  }

  lemma DataIrqKeeps(h: Host, s: Ext, i: Intr)
    ensures DataIrq(h, s, i).dir == s.dir && DataIrq(h, s, i).nbytes == s.nbytes
  {
    hide DmaIrq;
    DmaIrqKeeps(h, s.(retries := 0), i);
    var s1 := s.(retries := 0, stop := NoStop);
    DmaIrqKeeps(h, s1.(history := s1.history.(stopped := s1.history.stopped + 1)), i);
  }

  lemma DmaIrqKeeps(h: Host, s: Ext, i: Intr)
    ensures var r := DmaIrq(h, s, i.stopSent, i.setup, i.sent); r.dir == s.dir && r.nbytes == s.nbytes
  {
    hide DmaRw;
    DmaRwKeeps();
  }

  lemma DmaRwKeeps()
    ensures forall h, s: Ext, setup, sent :: var r := DmaRw(h, s, setup, sent); r.dir == s.dir && r.nbytes == s.nbytes
  {
    hide BlocksOn;
  }

  lemma LastChecksOutcome(h: Host, s: Ext, ccb: Ccb, i: Intr)
    requires s.nexus == Some(ccb) && Outcome(h, ccb, s)
    ensures Outcome(h, ccb, LastChecks(h, s, i.statusRead, i.cardReady))
  {
    hide Tiled, OffsetOf, Multis, Length, BlockAfter, Transferring;
  }

  lemma DataOutcome(h: Host, s: Ext, ccb: Ccb, i: Intr)
    requires InData(h, s, ccb) && (h.pio || !i.buffer)
    ensures Outcome(h, ccb, LastChecks(h, DataIrq(h, s, i), i.statusRead, i.cardReady))
  {
    hide StopIrq, TransferIrq, Outcome, Transferring, LastChecks;
    if s.stop == Issued {
      StopIrqOutcome(h, s, ccb, i);
    } else {
      TransferIrqOutcome(h, s, ccb, i);
    }
    LastChecksOutcome(h, DataIrq(h, s, i), ccb, i);
  }

  lemma IdentOutcome(h: Host, s: Ext, ccb: Ccb, i: Intr)
    requires s.nexus == Some(ccb) && s.phase == Ident && s.status == InProgress && s.history.stops <= 7
    requires Remembers(h, s, ccb)
    ensures Outcome(h, ccb, IdentIrq(h, s, i.ident, i.present, i.luck))
  {
    hide IoCmds;
    if i.ident.Finishes? {
      IoCmdsOutcome(h, Identified(s, i.ident.locked), ccb, i.luck);
    }
  }

  // ----- every event -----

  lemma PostComplete(h: Host, s: Ext, ccb: Ccb)
    requires s.nexus == Some(ccb) && Outcome(h, ccb, s) && AllComplete(h, s.posted)
    ensures AllComplete(h, Post(s).posted)
  {
    hide Complete;
  }

  lemma FinishInv(h: Host, s: Ext)
    requires s.nexus.Some? ==> Outcome(h, s.nexus.value, s)
    requires s.nexus == None ==> s.phase != Data && s.history.stops <= 7
    requires AllComplete(h, s.posted)
    ensures Inv(h, Finish(s))
  {
    hide Complete, Stopping, Moving, AllComplete;
    if s.nexus.Some? {
      PostComplete(h, s, s.nexus.value);
    }
  }

  lemma InterruptInv(h: Host, s: Ext, i: Intr)
    requires Inv(h, s) && (h.pio || !i.buffer)
    ensures Inv(h, ProcessInterrupt(h, s, i))
  {
    hide DataIrq, LastChecks, IdentIrq, Complete, Stopping, Moving, AllComplete, Finish;
    if s.nexus.Some? {
      var ccb := s.nexus.value;
      if i.card {
        FailOutcome(h, MediaCheck(s, i.present), ccb);
      } else if s.phase == Data {
        DataOutcome(h, s, ccb, i);
      } else if s.phase == Ident {
        IdentOutcome(h, s, ccb, i);
      } else {
        IdleOutcome(h, s, ccb);
      }
    } else {
      NobodyIdent(h, s, i);
    }
    FinishInv(h, Dispatch(h, s, i));
  }

  lemma FailOutcome(h: Host, s: Ext, ccb: Ccb)
    requires s.nexus == Some(ccb) && s.history.stops <= 7
    ensures Outcome(h, ccb, Fail(s))
  {
  }

  lemma IdleOutcome(h: Host, s: Ext, ccb: Ccb)
    requires s.nexus == Some(ccb) && s.history.stops <= 7 && s.status == InProgress && s.phase == Idle
    requires Remembers(h, s, ccb)
    ensures Outcome(h, ccb, s)
  {
  }

  lemma NobodyIdent(h: Host, s: Ext, i: Intr)
    requires s.nexus == None && s.phase != Data
    ensures var r := IdentIrq(h, s, i.ident, i.present, i.luck); r.phase != Data && r.history == s.history
  {
  }

  lemma TimerInv(h: Host, s: Ext, present: bool)
    requires Inv(h, s)
    ensures Inv(h, TimerPulse(h, s, present))
  {
    hide Complete, Tiled, OffsetOf, Multis, Length, BlockAfter, AllComplete;
    var s1 := if h.cardIntr then s else MediaCheck(s, present);
    if s.nexus.Some? && !s1.card.inserted {
      FailOutcome(h, s1, s.nexus.value);
      FinishInv(h, Fail(s1));
    }
  }

  lemma {:induction false} StartInv(h: Host, s: Ext)
    requires Inv(h, s)
    ensures Inv(h, StartCcb(h, s))
    decreases |s.queue|
  {
    hide Start, Complete, Stopping, Moving, AllComplete;
    if s.nexus == None && s.queue != [] {
      var s1 := Start(h, s.(queue := s.queue[1..]), s.queue[0]);
      NextInv(h, s);
      if s1.status != InProgress {
        StartInv(h, Post(s1));
      }
    }
  }

  /** Taking one request. */
  lemma NextInv(h: Host, s: Ext)
    requires Inv(h, s) && s.nexus == None && s.queue != []
    ensures var r := Start(h, s.(queue := s.queue[1..]), s.queue[0]);
      Inv(h, if r.status == InProgress then r else Post(r))
  {
    hide Start, Complete, Stopping, Moving, AllComplete;
    var s0, ccb := s.(queue := s.queue[1..]), s.queue[0];
    StartOutcome(h, s0, ccb);
    StartPhase(h, s0, ccb);
    PostComplete(h, Start(h, s0, ccb), ccb);
  }

  lemma StartOutcome(h: Host, s: Ext, ccb: Ccb)
    requires s.phase != Data
    ensures Outcome(h, ccb, Start(h, s, ccb))
  {
    hide IoCmds;
    var s0 := s.(nexus := Some(ccb), status := InProgress, check := ccb.check, history := Fresh, past := Unstarted);
    IoCmdsOutcome(h, s0, ccb, ccb.luck);
  }

  lemma StepInv(h: Host, s: Ext, e: Event)
    requires Inv(h, s) && Quiet(h, e)
    ensures Inv(h, Step(h, s, e))
  {
    hide Complete, Tiled, OffsetOf, Multis, Length, BlockAfter, AllComplete, StartCcb, ProcessInterrupt, TimerPulse;
    match e
    case Queued(ccbs) => StartInv(h, s.(queue := s.queue + ccbs));
    case Interrupted(i) =>
      InterruptInv(h, s, i);
      StartInv(h, ProcessInterrupt(h, s, i));
    case Timed(present) =>
      TimerInv(h, s, present);
      StartInv(h, TimerPulse(h, s, present));
    case _ =>
  }

  /** Over every run, with pulses and control-thread actions interleaved in any order, every completed
      transfer's last execution is complete in the sense above, and no stop sequence takes more than seven
      commands. Module `TransferFaults` says what earlier executions of it may have left. */
  lemma {:induction false} CompletedMeansDone(h: Host, s: Ext, es: seq<Event>)
    requires Booted(s) && forall e :: e in es ==> Quiet(h, e)
    ensures Inv(h, Run(h, s, es))
  {
    hide Step, Quiet, Complete, Stopping, Moving;
    if es != [] {
      CompletedMeansDone(h, s, es[..|es| - 1]);
      StepInv(h, Run(h, s, es[..|es| - 1]), es[|es| - 1]);
    }
  }

  // ----- block number and offset -----

  /** The whole blocks of `n` bytes. */
  function Whole(n: nat, blksize: Positive): nat {
    n / blksize
  }

  function BlocksOf(h: Host, chunks: seq<Chunk>): nat {
    if chunks == [] then 0 else BlocksOf(h, chunks[..|chunks| - 1]) + Whole(chunks[|chunks| - 1].n, h.blksize)
  }

  predicate WholeBlocks(h: Host, chunks: seq<Chunk>) {
    forall c :: c in chunks ==> c.n % h.blksize == 0
  }

  function BlockBytes(blocks: nat, blksize: Positive): nat {
    blocks * blksize
  }

  /** After any number of data commands the block number is the first one plus the whole blocks of each,
      and the blocks and the buffer offset are in step exactly when every command was for whole blocks. */
  lemma {:induction false} InStepExactly(h: Host, lba: uint32, chunks: seq<Chunk>)
    ensures BlockAfter(h, lba, chunks) == (lba + BlocksOf(h, chunks)) % LIMIT32
    ensures BlockBytes(BlocksOf(h, chunks), h.blksize) <= OffsetOf(chunks)
    ensures BlockBytes(BlocksOf(h, chunks), h.blksize) == OffsetOf(chunks) <==> WholeBlocks(h, chunks)
  {
    hide WholeBlocks, Whole, BlockBytes, BlocksOn;
    if chunks == [] {
      NoChunks(h);
    } else {
      var last, before := chunks[|chunks| - 1], chunks[..|chunks| - 1];
      InStepExactly(h, lba, before);
      NextBlock(lba + BlocksOf(h, before), last.n, h.blksize);
      OneMore(BlocksOf(h, before), OffsetOf(before), last.n, h.blksize);
      WholeLast(h, chunks);
    }
  }

  lemma NextBlock(base: nat, n: nat, d: Positive)
    ensures BlocksOn(base % LIMIT32, n, d) == (base + Whole(n, d)) % LIMIT32
  {
    WrapTwice(base, n / d);
  }

  lemma WrapTwice(a: nat, b: nat)
    ensures (a % LIMIT32 + b) % LIMIT32 == (a + b) % LIMIT32
  {
  }

  lemma NoChunks(h: Host)
    ensures WholeBlocks(h, []) && BlockBytes(0, h.blksize) == 0
  {
  }

  lemma WholeLast(h: Host, chunks: seq<Chunk>)
    requires chunks != []
    ensures WholeBlocks(h, chunks) <==>
      WholeBlocks(h, chunks[..|chunks| - 1]) && chunks[|chunks| - 1].n % h.blksize == 0
  {
    assert chunks == chunks[..|chunks| - 1] + [chunks[|chunks| - 1]];
  }

  lemma OneMore(blocks: nat, offset: nat, n: nat, d: Positive)
    requires BlockBytes(blocks, d) <= offset
    ensures BlockBytes(blocks + Whole(n, d), d) <= offset + n
    ensures BlockBytes(blocks + Whole(n, d), d) == offset + n <==> BlockBytes(blocks, d) == offset && n % d == 0
  {
    FloorExactly(n, d);
    var k := n / d;
    assert (blocks + k) * d == blocks * d + k * d;
  }

  lemma FloorExactly(n: nat, d: Positive)
    ensures n / d * d <= n && (n / d * d == n <==> n % d == 0)
  {
    assert n == n / d * d + n % d;
  }
}
