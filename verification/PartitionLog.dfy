/**
 A partition's log in `pkg/kfake/data.go`: batches are appended at the high
 watermark, trimmed from the left when records are deleted, and searched by offset.
 */
module PartitionLog {
  import opened Wrappers

  /** The parts of a record batch that the log looks at or sets. */
  datatype RecordBatch = RecordBatch(
    firstOffset: int, lastOffsetDelta: int, numRecords: int, firstTimestamp: int, partitionLeaderEpoch: int,
    producerId: int, firstSequence: int)

  datatype PartBatch = PartBatch(batch: RecordBatch, nbytes: nat, epoch: int, maxEarlierTimestamp: int)

  datatype Log = Log(
    batches: seq<PartBatch>, highWatermark: int, lastStableOffset: int, logStartOffset: int, epoch: int,
    maxTimestamp: int, nbytes: int)

  const NewLog := Log([], 0, 0, 0, 0, 0, 0)

  function First(b: PartBatch): int { b.batch.firstOffset }

  /** The offset after the last record. */
  function End(b: PartBatch): int { b.batch.firstOffset + b.batch.lastOffsetDelta + 1 }

  predicate Contains(b: PartBatch, o: int) { First(b) <= o < End(b) }

  // ---------------------------------------------------------------------
  // Operations
  // ---------------------------------------------------------------------

  function Max(a: int, b: int): int { if a < b then b else a }

  /** The batch as it is stored: its offset, epoch and place in time are the log's. */
  function Stored(l: Log, nbytes: nat, b: RecordBatch): PartBatch {
    PartBatch(b.(firstOffset := l.highWatermark, partitionLeaderEpoch := l.epoch), nbytes, l.epoch,
              Max(b.firstTimestamp, l.maxTimestamp))
  }

  function PushBatch(l: Log, nbytes: nat, b: RecordBatch): Log {
    l.(batches := l.batches + [Stored(l, nbytes, b)], highWatermark := l.highWatermark + b.numRecords,
       lastStableOffset := l.lastStableOffset + b.numRecords, maxTimestamp := Max(b.firstTimestamp, l.maxTimestamp),
       nbytes := l.nbytes + nbytes)
  }

  /** The batches from the first that ends after `start`. */
  function From(batches: seq<PartBatch>, start: int): seq<PartBatch> {
    if batches == [] || End(batches[0]) > start then batches else From(batches[1..], start)
  }

  function Bytes(batches: seq<PartBatch>): nat {
    if batches == [] then 0 else batches[0].nbytes + Bytes(batches[1..])
  }

  function TrimLeft(l: Log): Log {
    var kept := From(l.batches, l.logStartOffset);
    l.(batches := kept, nbytes := l.nbytes - (Bytes(l.batches) - Bytes(kept)))
  }

  /** A deletion request's offset: -1 stands for the high watermark. */
  function DeleteTo(l: Log, offset: int): int { if offset == -1 then l.highWatermark else offset }

  /** Nothing is the answer to a request out of range. */
  function DeleteRecords(l: Log, offset: int): Option<Log> {
    var to := DeleteTo(l, offset);
    if to < l.logStartOffset || to > l.highWatermark then None
    else Some(TrimLeft(l.(logStartOffset := to)))
  }

  function ChangeLeader(l: Log): Log { l.(epoch := l.epoch + 1) }

  // ---------------------------------------------------------------------
  // What a log and everything ever appended to it have to do with each other
  // ---------------------------------------------------------------------

  /** Batches that follow each other without gap, from `first` to `end`. */
  ghost predicate Chain(bs: seq<PartBatch>, first: int, end: int) {
    (forall i :: 0 <= i < |bs| ==> bs[i].batch.lastOffsetDelta >= 0) &&
    (bs == [] ==> first == end) &&
    (bs != [] ==> First(bs[0]) == first && End(bs[|bs| - 1]) == end) &&
    (forall i :: 0 <= i < |bs| - 1 ==> End(bs[i]) == First(bs[i + 1]))
  }

  /** Epochs and timestamps never decrease along the log. */
  ghost predicate Ordered(bs: seq<PartBatch>, epoch: int, timestamp: int) {
    (forall i :: 0 <= i < |bs| ==> bs[i].epoch <= epoch && bs[i].maxEarlierTimestamp <= timestamp) &&
    (forall i, j :: 0 <= i < j < |bs| ==>
      bs[i].epoch <= bs[j].epoch && bs[i].maxEarlierTimestamp <= bs[j].maxEarlierTimestamp)
  }

  /**
   The retained batches are exactly those of the history that end after the log
   start; the history is one chain from 0 to the high watermark; and the byte
   count is that of the retained batches.
   */
  ghost predicate LogInv(l: Log, history: seq<PartBatch>) {
    Chain(history, 0, l.highWatermark) && 0 <= l.logStartOffset <= l.highWatermark &&
    l.batches == From(history, l.logStartOffset) && l.nbytes == Bytes(l.batches) &&
    Ordered(history, l.epoch, l.maxTimestamp) && l.lastStableOffset == l.highWatermark
  }

  // ---------------------------------------------------------------------
  // Facts about suffixes
  // ---------------------------------------------------------------------

  lemma {:induction false} FromIsSuffix(bs: seq<PartBatch>, start: int) returns (k: nat)
    ensures k <= |bs| && From(bs, start) == bs[k..]
    ensures forall i :: 0 <= i < k ==> End(bs[i]) <= start
    ensures k < |bs| ==> End(bs[k]) > start
  {
    if bs == [] || End(bs[0]) > start {
      k := 0;
    } else {
      var k' := FromIsSuffix(bs[1..], start);
      k := k' + 1;
      forall i | 0 <= i < k ensures End(bs[i]) <= start {
        if i > 0 { assert bs[i] == bs[1..][i - 1]; }
      }
    }
  }

  lemma {:induction false} ChainEnds(bs: seq<PartBatch>, first: int, end: int, i: nat, j: nat)
    requires Chain(bs, first, end) && i < j < |bs|
    ensures End(bs[i]) <= First(bs[j]) && first <= First(bs[i]) && End(bs[j]) <= end
    decreases j - i, |bs| - j, i
  {
    ChainBounds(bs, first, end, i);
    ChainBounds(bs, first, end, j);
    if i + 1 < j { ChainEnds(bs, first, end, i, j - 1); }
  }

  lemma {:induction false} ChainBounds(bs: seq<PartBatch>, first: int, end: int, i: nat)
    requires Chain(bs, first, end) && i < |bs|
    ensures first <= First(bs[i]) && End(bs[i]) <= end
  {
    ChainBelow(bs, first, end, i);
    ChainAbove(bs, first, end, i);
  }

  lemma {:induction false} ChainBelow(bs: seq<PartBatch>, first: int, end: int, i: nat)
    requires Chain(bs, first, end) && i < |bs|
    ensures first <= First(bs[i])
  {
    if i > 0 { ChainBelow(bs, first, end, i - 1); }
  }

  lemma {:induction false} ChainAbove(bs: seq<PartBatch>, first: int, end: int, i: nat)
    requires Chain(bs, first, end) && i < |bs|
    ensures End(bs[i]) <= end
    decreases |bs| - i
  {
    if i + 1 < |bs| { ChainAbove(bs, first, end, i + 1); }
  }

  lemma ChainSuffix(bs: seq<PartBatch>, first: int, end: int, k: nat)
    requires Chain(bs, first, end) && k < |bs|
    ensures Chain(bs[k..], First(bs[k]), end)
  {
    forall i | 0 <= i < |bs[k..]| - 1 ensures End(bs[k..][i]) == First(bs[k..][i + 1]) {
      assert End(bs[k + i]) == First(bs[k + i + 1]);
    }
  }

  lemma ChainSnoc(bs: seq<PartBatch>, first: int, end: int, b: PartBatch)
    requires Chain(bs, first, end) && First(b) == end && b.batch.lastOffsetDelta >= 0
    ensures Chain(bs + [b], first, End(b))
  {
  }

  /** Trimming further is trimming what is left. */
  lemma {:induction false} FromTwice(bs: seq<PartBatch>, start: int, further: int)
    requires start <= further
    ensures From(From(bs, start), further) == From(bs, further)
  {
    if bs != [] && End(bs[0]) <= start { FromTwice(bs[1..], start, further); }
  }

  lemma {:induction false} FromSnoc(bs: seq<PartBatch>, start: int, b: PartBatch)
    requires End(b) > start
    ensures From(bs + [b], start) == From(bs, start) + [b]
  {
    if bs == [] {
      assert bs + [b] == [b];
    } else if End(bs[0]) <= start {
      assert (bs + [b])[1..] == bs[1..] + [b];
      FromSnoc(bs[1..], start, b);
    }
  }

  lemma {:induction false} BytesSnoc(bs: seq<PartBatch>, b: PartBatch)
    ensures Bytes(bs + [b]) == Bytes(bs) + b.nbytes
  {
    if bs == [] {
      assert bs + [b] == [b];
    } else {
      assert (bs + [b])[1..] == bs[1..] + [b];
      BytesSnoc(bs[1..], b);
    }
  }

  // ---------------------------------------------------------------------
  // Every operation keeps the log good
  // ---------------------------------------------------------------------

  /** What is stored and what moves with it, for any batch. */
  lemma PushStores(l: Log, nbytes: nat, b: RecordBatch)
    ensures var l' := PushBatch(l, nbytes, b);
      |l'.batches| == |l.batches| + 1 && l'.batches[..|l.batches|] == l.batches &&
      var s := l'.batches[|l.batches|];
      s.nbytes == nbytes && s.epoch == l.epoch && s.batch.partitionLeaderEpoch == l.epoch &&
      s.batch.firstOffset == l.highWatermark && s.batch.lastOffsetDelta == b.lastOffsetDelta &&
      s.batch.numRecords == b.numRecords && s.batch.producerId == b.producerId &&
      s.batch.firstSequence == b.firstSequence && s.batch.firstTimestamp == b.firstTimestamp &&
      s.maxEarlierTimestamp == l'.maxTimestamp && l'.maxTimestamp >= l.maxTimestamp && l'.maxTimestamp >= b.firstTimestamp &&
      l'.maxTimestamp in {l.maxTimestamp, b.firstTimestamp} &&
      l'.highWatermark == l.highWatermark + b.numRecords && l'.lastStableOffset == l.lastStableOffset + b.numRecords &&
      l'.nbytes == l.nbytes + nbytes && l'.logStartOffset == l.logStartOffset && l'.epoch == l.epoch
  {
  }

  lemma PushInv(l: Log, history: seq<PartBatch>, nbytes: nat, b: RecordBatch)
    requires LogInv(l, history) && b.numRecords >= 1 && b.lastOffsetDelta == b.numRecords - 1
    ensures LogInv(PushBatch(l, nbytes, b), history + [Stored(l, nbytes, b)])
  {
    var s := Stored(l, nbytes, b);
    ChainSnoc(history, 0, l.highWatermark, s);
    FromSnoc(history, l.logStartOffset, s);
    BytesSnoc(l.batches, s);
  }

  /** The handler's own checks are not enough: the log stays good if and only if the batch has a record. */
  lemma PushNeedsRecords(l: Log, history: seq<PartBatch>, nbytes: nat, b: RecordBatch)
    requires LogInv(l, history) && b.lastOffsetDelta == b.numRecords - 1
    ensures LogInv(PushBatch(l, nbytes, b), history + [Stored(l, nbytes, b)]) <==> b.numRecords >= 1
  {
    if b.numRecords >= 1 {
      PushInv(l, history, nbytes, b);
    } else {
      assert (history + [Stored(l, nbytes, b)])[|history|].batch.lastOffsetDelta < 0;
    }
  }

  /** A deletion is refused exactly out of range, where -1 stands for the high watermark. */
  lemma DeletesInRange(l: Log, history: seq<PartBatch>, offset: int)
    requires LogInv(l, history)
    ensures DeleteRecords(l, offset).Some? <==> offset == -1 || l.logStartOffset <= offset <= l.highWatermark
    ensures var l' := DeleteRecords(l, offset);
      l'.Some? ==>
        l'.value.logStartOffset == (if offset == -1 then l.highWatermark else offset) &&
        l'.value.highWatermark == l.highWatermark && l'.value.epoch == l.epoch && l'.value.maxTimestamp == l.maxTimestamp
  {
  }

  lemma DeleteInv(l: Log, history: seq<PartBatch>, offset: int)
    requires LogInv(l, history) && DeleteRecords(l, offset).Some?
    ensures LogInv(DeleteRecords(l, offset).value, history)
    ensures DeleteRecords(l, offset).value.logStartOffset == DeleteTo(l, offset) >= l.logStartOffset
  {
    FromTwice(history, l.logStartOffset, DeleteTo(l, offset));
  }

  lemma LeaderInv(l: Log, history: seq<PartBatch>)
    requires LogInv(l, history)
    ensures LogInv(ChangeLeader(l), history)
  {
  }

  // ---------------------------------------------------------------------
  // Runs
  // ---------------------------------------------------------------------

  datatype Op = Append(nbytes: nat, batch: RecordBatch) | Delete(offset: int) | NewLeader

  predicate ValidOp(op: Op) {
    op.Append? ==> op.batch.numRecords >= 1 && op.batch.lastOffsetDelta == op.batch.numRecords - 1
  }

  function Apply(l: Log, op: Op): Log {
    match op
    case Append(nbytes, b) => PushBatch(l, nbytes, b)
    case Delete(offset) => if DeleteRecords(l, offset).Some? then DeleteRecords(l, offset).value else l
    case NewLeader => ChangeLeader(l)
  }

  function Run(ops: seq<Op>): Log {
    if ops == [] then NewLog else Apply(Run(ops[..|ops| - 1]), ops[|ops| - 1])
  }

  /** Everything appended by the operations, as it was stored. */
  function Appended(ops: seq<Op>): seq<PartBatch> {
    if ops == [] then [] else
    var before, op := ops[..|ops| - 1], ops[|ops| - 1];
    if op.Append? then Appended(before) + [Stored(Run(before), op.nbytes, op.batch)] else Appended(before)
  }

  /** After any appends, deletions and leader changes, in any order. */
  lemma {:induction false} RunInv(ops: seq<Op>)
    requires forall i :: 0 <= i < |ops| ==> ValidOp(ops[i])
    ensures LogInv(Run(ops), Appended(ops))
  {
    if ops != [] {
      var before, op := ops[..|ops| - 1], ops[|ops| - 1];
      RunInv(before);
      match op
      case Append(nbytes, b) => PushInv(Run(before), Appended(before), nbytes, b);
      case Delete(offset) =>
        if DeleteRecords(Run(before), offset).Some? { DeleteInv(Run(before), Appended(before), offset); }
      case NewLeader => LeaderInv(Run(before), Appended(before));
    }
  }

  // ---------------------------------------------------------------------
  // What is retained
  // ---------------------------------------------------------------------

  /** The retained batches are a chain up to the high watermark, and the first of them holds the log start. */
  lemma Retained(l: Log, history: seq<PartBatch>)
    requires LogInv(l, history)
    ensures l.batches != [] ==>
      First(l.batches[0]) <= l.logStartOffset < End(l.batches[0]) && Chain(l.batches, First(l.batches[0]), l.highWatermark)
    ensures l.batches == [] <==> l.logStartOffset == l.highWatermark
  {
    var k := FromIsSuffix(history, l.logStartOffset);
    if k < |history| {
      ChainSuffix(history, 0, l.highWatermark, k);
      if k > 0 { assert End(history[k - 1]) == First(history[k]); }
      ChainAbove(history, 0, l.highWatermark, k);
    }
  }

  /** Every offset from the log start to the high watermark is in exactly one retained batch. */
  lemma {:induction false} Covered(bs: seq<PartBatch>, first: int, end: int, o: int) returns (i: nat)
    requires Chain(bs, first, end) && first <= o < end
    ensures i < |bs| && Contains(bs[i], o)
    ensures forall j :: 0 <= j < |bs| && Contains(bs[j], o) ==> j == i
  {
    i := 0;
    while End(bs[i]) <= o
      invariant i < |bs| && First(bs[i]) <= o
      decreases |bs| - i
    {
      ChainAbove(bs, first, end, i);
      i := i + 1;
    }
    forall j | 0 <= j < |bs| && Contains(bs[j], o) ensures j == i {
      if j < i { ChainEnds(bs, first, end, j, i); }
      if i < j { ChainEnds(bs, first, end, i, j); }
    }
  }
}
