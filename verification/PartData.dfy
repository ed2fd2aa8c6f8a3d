/**
 The `partData` object of `pkg/kfake/data.go` and the handlers that read and
 change it: offset search, deletion of records, and the leader-epoch lookup.
 */
module PartData {
  import opened Wrappers
  import opened PartitionLog

  // ---------------------------------------------------------------------
  // Searching
  // ---------------------------------------------------------------------

  /** Go's `sort.Find`: the first index whose comparison is not positive. */
  method Find(n: nat, cmp: int -> int) returns (i: nat, found: bool)
    requires forall a, b :: 0 <= a < b < n && cmp(a) <= 0 ==> cmp(b) <= 0
    ensures i <= n && found == (i < n && cmp(i) == 0)
    ensures forall k :: 0 <= k < i ==> cmp(k) > 0
    ensures forall k :: i <= k < n ==> cmp(k) <= 0
  {
    i := 0;
    var j := n;
    while i < j
      invariant i <= j <= n
      invariant forall k :: 0 <= k < i ==> cmp(k) > 0
      invariant forall k :: j <= k < n ==> cmp(k) <= 0
    {
      var h := (i + j) / 2;
      if cmp(h) > 0 {
        forall k | 0 <= k <= h ensures cmp(k) > 0 {
          if k < h && cmp(k) <= 0 { assert false; }
        }
        i := h + 1;
      } else {
        j := h;
      }
    }
    found := i < n && cmp(i) == 0;
  }

  /** Below a batch, in it, or beyond it. */
  function Side(b: PartBatch, o: int): int {
    if o < First(b) then -1 else if o >= End(b) then 1 else 0
  }

  /** Found at an index, at the end of the log, or neither. */
  datatype Search = Found(index: nat) | AtEnd | Missing

  /**
   What a linear scan of the retained batches says. `AtEnd` needs a retained
   batch, or a log that never had one.
   */
  ghost predicate IsSearch(l: Log, o: int, s: Search) {
    match s
    case Found(i) => l.logStartOffset <= o && i < |l.batches| && Contains(l.batches[i], o) &&
      forall j :: 0 <= j < |l.batches| && Contains(l.batches[j], o) ==> j == i
    case AtEnd => o == l.highWatermark && (l.batches != [] || o == 0)
    case Missing => o < l.logStartOffset || o > l.highWatermark || (l.batches == [] && o == l.highWatermark > 0)
  }

  /** The index of the first batch that the offset is not beyond. */
  function FirstNotBeyond(bs: seq<PartBatch>, o: int): (i: nat)
    ensures i <= |bs|
  {
    if bs == [] || Side(bs[0], o) <= 0 then 0 else 1 + FirstNotBeyond(bs[1..], o)
  }

  /** A linear scan in place of the binary search. */
  function Scan(l: Log, o: int): Search {
    if o < l.logStartOffset || o > l.highWatermark then Missing
    else if l.batches == [] then (if o == 0 then AtEnd else Missing)
    else if End(l.batches[|l.batches| - 1]) == o then AtEnd
    else
      var i := FirstNotBeyond(l.batches, o);
      if i < |l.batches| && Side(l.batches[i], o) == 0 then Found(i) else Missing
  }

  /** What `sort.Find` asks of its comparison. */
  ghost predicate Searchable(l: Log, o: int) {
    forall a, b :: 0 <= a < b < |l.batches| && Side(l.batches[a], o) <= 0 ==> Side(l.batches[b], o) <= 0
  }

  lemma {:induction false} FirstNotBeyondIs(bs: seq<PartBatch>, o: int, i: nat)
    requires i <= |bs| && (forall k :: 0 <= k < i ==> Side(bs[k], o) > 0) && (i < |bs| ==> Side(bs[i], o) <= 0)
    ensures FirstNotBeyond(bs, o) == i
  {
    if i > 0 {
      assert Side(bs[0], o) > 0;
      forall k | 0 <= k < i - 1 ensures Side(bs[1..][k], o) > 0 {
        assert bs[1..][k] == bs[k + 1];
      }
      FirstNotBeyondIs(bs[1..], o, i - 1);
    }
  }

  /** In a good log the scan finds the one retained batch that holds the offset. */
  lemma ScanFinds(l: Log, history: seq<PartBatch>, o: int)
    requires LogInv(l, history)
    ensures IsSearch(l, o, Scan(l, o))
    ensures l.logStartOffset <= o < l.highWatermark ==> Scan(l, o).Found?
  {
    Retained(l, history);
    if l.batches != [] && l.logStartOffset <= o < l.highWatermark {
      var i := Covered(l.batches, First(l.batches[0]), l.highWatermark, o);
      forall k | 0 <= k < i ensures Side(l.batches[k], o) > 0 {
        ChainEnds(l.batches, First(l.batches[0]), l.highWatermark, k, i);
      }
      FirstNotBeyondIs(l.batches, o, i);
    }
  }

  lemma SideMonotone(l: Log, history: seq<PartBatch>, o: int)
    requires LogInv(l, history)
    ensures Searchable(l, o)
  {
    Retained(l, history);
    forall a, b | 0 <= a < b < |l.batches| && Side(l.batches[a], o) <= 0 ensures Side(l.batches[b], o) <= 0 {
      ChainEnds(l.batches, First(l.batches[0]), l.highWatermark, a, b);
    }
  }

  // ---------------------------------------------------------------------
  // Batches without records
  // ---------------------------------------------------------------------

  lemma {:induction false} FirstNotBeyondSplits(bs: seq<PartBatch>, o: int)
    ensures var i := FirstNotBeyond(bs, o);
      (forall k :: 0 <= k < i ==> Side(bs[k], o) > 0) && (i < |bs| ==> Side(bs[i], o) <= 0)
  {
    if bs != [] && Side(bs[0], o) > 0 {
      FirstNotBeyondSplits(bs[1..], o);
      var i := FirstNotBeyond(bs[1..], o);
      forall k | 0 <= k < i + 1 ensures Side(bs[k], o) > 0 {
        if k > 0 { assert bs[k] == bs[1..][k - 1]; }
      }
    }
  }

  lemma FoundBeforeLast(bs: seq<PartBatch>, b: PartBatch, o: int)
    requires FirstNotBeyond(bs, o) < |bs|
    ensures FirstNotBeyond(bs + [b], o) == FirstNotBeyond(bs, o)
  {
    FirstNotBeyondSplits(bs, o);
    var i := FirstNotBeyond(bs, o);
    forall k | 0 <= k < i ensures Side((bs + [b])[k], o) > 0 {
      assert (bs + [b])[k] == bs[k];
    }
    assert (bs + [b])[i] == bs[i];
    FirstNotBeyondIs(bs + [b], o, i);
  }

  /**
   The handler lets through any number of records. Whatever it is, a record
   that could be found before the append is found after it if and only if it is
   below the new high watermark.
   */
  lemma StillFound(l: Log, history: seq<PartBatch>, nbytes: nat, b: RecordBatch, o: int)
    requires LogInv(l, history) && b.lastOffsetDelta == b.numRecords - 1 && l.logStartOffset <= o < l.highWatermark
    ensures var l' := PartitionLog.PushBatch(l, nbytes, b);
      Scan(l, o).Found? && Searchable(l', o) && (Scan(l', o) == Scan(l, o) <==> o < l'.highWatermark)
  {
    ScanFinds(l, history, o);
    SideMonotone(l, history, o);
    FoundBeforeLast(l.batches, Stored(l, nbytes, b), o);
  }

  /** The first retained batch, if there is one, holds the log start. */
  predicate StartHeld(l: Log) { l.batches != [] ==> Contains(l.batches[0], l.logStartOffset) }

  /**
   What an append does for each number of records. Below zero it moves the high
   watermark back, and with it retained records are no longer found; at zero it
   leaves a batch in an empty log that does not hold the log start, and the end
   of that log is found although it was not before.
   */
  lemma AppendEffects(l: Log, history: seq<PartBatch>, nbytes: nat, b: RecordBatch)
    requires LogInv(l, history) && b.lastOffsetDelta == b.numRecords - 1
    ensures var l' := PartitionLog.PushBatch(l, nbytes, b);
      (l'.highWatermark >= l.highWatermark <==> b.numRecords >= 0) &&
      ((forall o :: l.logStartOffset <= o < l.highWatermark ==> Scan(l', o) == Scan(l, o)) <==>
        b.numRecords >= 0 || l.batches == []) &&
      (StartHeld(l') <==> b.numRecords >= 1 || l.batches != []) &&
      (b.numRecords == 0 ==> Scan(l', l.highWatermark) == AtEnd) &&
      (l.batches == [] && l.highWatermark > 0 ==> Scan(l, l.highWatermark) == Missing)
  {
    Retained(l, history);
    var l' := PartitionLog.PushBatch(l, nbytes, b);
    forall o | l.logStartOffset <= o < l.highWatermark ensures Scan(l', o) == Scan(l, o) <==> o < l'.highWatermark {
      StillFound(l, history, nbytes, b, o);
    }
    if b.numRecords < 0 && l.batches != [] {
      var o := l.highWatermark - 1;
      assert l.logStartOffset <= o < l.highWatermark && Scan(l', o) != Scan(l, o);
    }
  }

  /** The batch appended after it shares an offset with a retained one exactly when there were fewer than zero records. */
  lemma NextOverlaps(l: Log, history: seq<PartBatch>, nbytes: nat, b: RecordBatch, nbytes': nat, c: RecordBatch)
    requires LogInv(l, history) && b.lastOffsetDelta == b.numRecords - 1
    requires c.numRecords >= 1 && c.lastOffsetDelta == c.numRecords - 1
    ensures var next := Stored(PartitionLog.PushBatch(l, nbytes, b), nbytes', c);
      (exists i, o :: 0 <= i < |l.batches| && Contains(l.batches[i], o) && Contains(next, o)) <==>
      b.numRecords < 0 && l.batches != [] && First(l.batches[0]) < l.highWatermark + b.numRecords + c.numRecords
  {
    Retained(l, history);
    var next := Stored(PartitionLog.PushBatch(l, nbytes, b), nbytes', c);
    if i, o :| 0 <= i < |l.batches| && Contains(l.batches[i], o) && Contains(next, o) {
      ChainBounds(l.batches, First(l.batches[0]), l.highWatermark, i);
    } else if b.numRecords < 0 && l.batches != [] &&
        First(l.batches[0]) < l.highWatermark + b.numRecords + c.numRecords {
      var o := Max(First(l.batches[0]), l.highWatermark + b.numRecords);
      var i := Covered(l.batches, First(l.batches[0]), l.highWatermark, o);
      assert Contains(next, o);
    }
  }

  // ---------------------------------------------------------------------
  // Leader epochs
  // ---------------------------------------------------------------------

  datatype EpochReply = Fenced | UnknownEpoch | Epoch(leaderEpoch: int, endOffset: int)

  /** `int32` addition. */
  function Plus32(a: int, b: int): int {
    var u := (a + b) % 0x1_0000_0000;
    if u >= 0x8000_0000 then u - 0x1_0000_0000 else u
  }

  /** The epoch of the batch that holds offset `o`. */
  ghost predicate InEpoch(l: Log, o: int, e: int) {
    exists i :: 0 <= i < |l.batches| && Contains(l.batches[i], o) && l.batches[i].epoch == e
  }

  /** `end` splits the retained records: before it epochs up to `requested`, from it on greater ones. */
  ghost predicate SplitsAt(l: Log, requested: int, end: int) {
    forall o, e :: l.logStartOffset <= o < l.highWatermark && InEpoch(l, o, e) ==> (o < end <==> e <= requested)
  }

  class PartData {
    var batches: seq<PartBatch>
    var highWatermark: int
    var lastStableOffset: int
    var logStartOffset: int
    var epoch: int
    var maxTimestamp: int
    var nbytes: int
    ghost var history: seq<PartBatch>

    function L(): Log
      reads this
    {
      Log(batches, highWatermark, lastStableOffset, logStartOffset, epoch, maxTimestamp, nbytes)
    }

    ghost predicate Valid()
      reads this
    {
      LogInv(L(), history)
    }

    constructor ()
      ensures Valid() && L() == NewLog && history == []
    {
      batches, highWatermark, lastStableOffset, logStartOffset := [], 0, 0, 0;
      epoch, maxTimestamp, nbytes, history := 0, 0, 0, [];
    }

    method PushBatch(nbytes: nat, b: RecordBatch)
      modifies this
      ensures L() == PartitionLog.PushBatch(old(L()), nbytes, b)
      ensures history == old(history) + [Stored(old(L()), nbytes, b)]
      ensures old(Valid()) && b.numRecords >= 1 && b.lastOffsetDelta == b.numRecords - 1 ==> Valid()
    {
      if Valid() && b.numRecords >= 1 && b.lastOffsetDelta == b.numRecords - 1 { PushInv(L(), history, nbytes, b); }
      history := history + [Stored(L(), nbytes, b)];
      var maxEarlierTimestamp := b.firstTimestamp;
      if maxEarlierTimestamp < maxTimestamp {
        maxEarlierTimestamp := maxTimestamp;
      } else {
        maxTimestamp := maxEarlierTimestamp;
      }
      var stored := b.(firstOffset := highWatermark, partitionLeaderEpoch := epoch);
      batches := batches + [PartBatch(stored, nbytes, epoch, maxEarlierTimestamp)];
      highWatermark := highWatermark + b.numRecords;
      lastStableOffset := lastStableOffset + b.numRecords;
      this.nbytes := this.nbytes + nbytes;
    }

    method TrimLeft()
      modifies this`batches, this`nbytes
      ensures L() == PartitionLog.TrimLeft(old(L()))
    {
      while |batches| > 0
        invariant From(batches, logStartOffset) == From(old(batches), logStartOffset)
        invariant nbytes == old(nbytes) - (Bytes(old(batches)) - Bytes(batches))
        decreases |batches|
      {
        var b0 := batches[0];
        var finRec := b0.batch.firstOffset + b0.batch.lastOffsetDelta;
        if finRec >= logStartOffset { return; }
        batches := batches[1..];
        nbytes := nbytes - b0.nbytes;
      }
    }

    /** Whether the offset was in range; if so the log starts there and nothing below it is retained. */
    method DeleteRecords(offset: int) returns (ok: bool)
      requires Valid()
      modifies this`batches, this`nbytes, this`logStartOffset
      ensures Valid() && ok == PartitionLog.DeleteRecords(old(L()), offset).Some?
      ensures L() == if ok then PartitionLog.DeleteRecords(old(L()), offset).value else old(L())
      ensures ok ==> forall b :: b in batches ==> End(b) > logStartOffset
    {
      var to := offset;
      if to == -1 { to := highWatermark; }
      if to < logStartOffset || to > highWatermark { return false; }
      DeleteInv(L(), history, offset);
      logStartOffset := to;
      TrimLeft();
      Retained(L(), history);
      forall b | b in batches ensures End(b) > logStartOffset {
        var i :| 0 <= i < |batches| && batches[i] == b;
        if i > 0 { ChainEnds(batches, First(batches[0]), highWatermark, 0, i); }
      }
      ok := true;
    }

    method ChangeLeader()
      requires Valid()
      modifies this`epoch
      ensures Valid() && L() == PartitionLog.ChangeLeader(old(L())) && epoch == old(epoch) + 1
    {
      epoch := epoch + 1;
    }

    /** The binary search agrees with a linear scan wherever it can, and so for every offset of every good log. */
    method SearchOffset(o: int) returns (s: Search)
      requires Searchable(L(), o)
      ensures s == Scan(L(), o) && (Valid() ==> IsSearch(L(), o, s))
    {
      if Valid() { ScanFinds(L(), history, o); }
      if o < logStartOffset || o > highWatermark { return Missing; }
      if |batches| == 0 {
        if o == 0 { return AtEnd; }
      } else {
        if End(batches[|batches| - 1]) == o { return AtEnd; }
      }
      var bs := batches;
      var cmp := (i: int) => if 0 <= i < |bs| then Side(bs[i], o) else 0;
      var index, found := Find(|bs|, cmp);
      forall k | 0 <= k < index ensures Side(bs[k], o) > 0 {
        assert cmp(k) > 0;
      }
      assert index < |bs| ==> cmp(index) <= 0;
      FirstNotBeyondIs(bs, o, index);
      return if found then Found(index) else Missing;
    }

    method OffsetForLeaderEpoch(currentLeaderEpoch: int, requested: int) returns (r: EpochReply)
      requires Valid()
      ensures r.Fenced? <==> currentLeaderEpoch < epoch
      ensures r.UnknownEpoch? <==> currentLeaderEpoch > epoch
      ensures r == EpochSpec(L(), currentLeaderEpoch, requested)
    {
      if currentLeaderEpoch < epoch { return Fenced; }
      if currentLeaderEpoch > epoch { return UnknownEpoch; }
      if requested == epoch { return Epoch(epoch, highWatermark); }
      if |batches| == 0 {
        return if requested > epoch then Epoch(-1, -1) else Epoch(epoch, 0);
      }
      var nextEpoch := Plus32(requested, 1);
      var bs := batches;
      RetainedEpochs(L(), history);
      var cmp := (i: int) => if 0 <= i < |bs| && nextEpoch > bs[i].epoch then 1 else -1;
      var idx, _ := Find(|bs|, cmp);
      forall k | 0 <= k < idx ensures bs[k].epoch < nextEpoch {
        assert cmp(k) > 0;
      }
      assert idx < |bs| ==> cmp(idx) <= 0;
      FirstFromIs(bs, nextEpoch, idx);
      if idx == |bs| { return Epoch(-1, -1); }
      if idx == 0 { return Epoch(requested, logStartOffset); }
      r := Epoch(bs[idx - 1].epoch, First(bs[idx]));
    }
  }

  /** Epochs do not decrease along the retained batches. */
  lemma RetainedEpochs(l: Log, history: seq<PartBatch>)
    requires LogInv(l, history)
    ensures forall i, j :: 0 <= i < j < |l.batches| ==> l.batches[i].epoch <= l.batches[j].epoch
    ensures forall i :: 0 <= i < |l.batches| ==> l.batches[i].epoch <= l.epoch
  {
    var k := FromIsSuffix(history, l.logStartOffset);
    forall i | 0 <= i < |l.batches| ensures l.batches[i] == history[k + i] {
    }
  }

  /** The index of the first batch of epoch `e` or later. */
  function FirstFrom(bs: seq<PartBatch>, e: int): (i: nat)
    ensures i <= |bs|
  {
    if bs == [] || bs[0].epoch >= e then 0 else 1 + FirstFrom(bs[1..], e)
  }

  lemma {:induction false} FirstFromIs(bs: seq<PartBatch>, e: int, i: nat)
    requires i <= |bs| && forall k :: 0 <= k < i ==> bs[k].epoch < e
    requires i < |bs| ==> bs[i].epoch >= e
    ensures FirstFrom(bs, e) == i
  {
    if i > 0 { FirstFromIs(bs[1..], e, i - 1); }
  }

  /** The reply by linear scan. */
  function EpochSpec(l: Log, currentLeaderEpoch: int, requested: int): EpochReply {
    if currentLeaderEpoch < l.epoch then Fenced
    else if currentLeaderEpoch > l.epoch then UnknownEpoch
    else if requested == l.epoch then Epoch(l.epoch, l.highWatermark)
    else if l.batches == [] then if requested > l.epoch then Epoch(-1, -1) else Epoch(l.epoch, 0)
    else
      var idx := FirstFrom(l.batches, Plus32(requested, 1));
      if idx == |l.batches| then Epoch(-1, -1)
      else if idx == 0 then Epoch(requested, l.logStartOffset)
      else Epoch(l.batches[idx - 1].epoch, First(l.batches[idx]))
  }

  // ---------------------------------------------------------------------
  // What the leader-epoch reply means
  // ---------------------------------------------------------------------

  lemma {:induction false} FirstFromSplits(bs: seq<PartBatch>, e: int, k: nat)
    requires k < FirstFrom(bs, e)
    ensures bs[k].epoch < e
  {
    if k > 0 { FirstFromSplits(bs[1..], e, k - 1); }
  }

  lemma {:induction false} FirstFromReached(bs: seq<PartBatch>, e: int)
    ensures FirstFrom(bs, e) < |bs| ==> bs[FirstFrom(bs, e)].epoch >= e
  {
    if bs != [] && bs[0].epoch < e { FirstFromReached(bs[1..], e); }
  }

  ghost predicate IsInt32(i: int) { -0x8000_0000 <= i <= 0x7fff_ffff }

  lemma Plus32Exact(a: int)
    requires IsInt32(a)
    ensures Plus32(a, 1) == if a == 0x7fff_ffff then -0x8000_0000 else a + 1
  {
  }

  /** Batches before `i` lie below the first offset of batch `i`, and the others do not. */
  lemma BoundaryAt(l: Log, history: seq<PartBatch>, i: nat, j: nat, o: int)
    requires LogInv(l, history) && i < |l.batches| && j < |l.batches| && Contains(l.batches[j], o)
    ensures o < First(l.batches[i]) <==> j < i
  {
    Retained(l, history);
    if j < i { ChainEnds(l.batches, First(l.batches[0]), l.highWatermark, j, i); }
    if i < j { ChainEnds(l.batches, First(l.batches[0]), l.highWatermark, i, j); }
  }

  lemma SplitsAtBatch(l: Log, history: seq<PartBatch>, requested: int)
    requires LogInv(l, history) && l.batches != []
    ensures var idx := FirstFrom(l.batches, requested + 1);
      (idx == 0 ==> SplitsAt(l, requested, l.logStartOffset)) &&
      (0 < idx < |l.batches| ==> SplitsAt(l, requested, First(l.batches[idx])))
  {
    var idx := FirstFrom(l.batches, requested + 1);
    RetainedEpochs(l, history);
    FirstFromReached(l.batches, requested + 1);
    forall o, e | l.logStartOffset <= o < l.highWatermark && InEpoch(l, o, e) && idx < |l.batches|
      ensures e <= requested <==> o < if idx == 0 then l.logStartOffset else First(l.batches[idx])
    {
      var j :| 0 <= j < |l.batches| && Contains(l.batches[j], o) && l.batches[j].epoch == e;
      BoundaryAt(l, history, idx, j, o);
      if j < idx { FirstFromSplits(l.batches, requested + 1, j); }
    }
  }

  /**
   Whenever the reply has an end offset, every retained record below it is of
   an epoch up to the requested one and every retained record from it on is of
   a later one -- with one exception: asked about the largest 32-bit epoch, the
   search key wraps around, and a log that retains anything answers with its
   start although every retained record is of an earlier epoch.
   */
  lemma EpochReplySplits(l: Log, history: seq<PartBatch>, requested: int)
    requires LogInv(l, history) && IsInt32(requested) && IsInt32(l.epoch)
    requires forall i :: 0 <= i < |history| ==> IsInt32(history[i].epoch)
    ensures var r := EpochSpec(l, l.epoch, requested);
      r.endOffset != -1 ==>
        (SplitsAt(l, requested, r.endOffset) <==>
         !(requested == 0x7fff_ffff && l.epoch != 0x7fff_ffff && l.batches != []))
  {
    Plus32Exact(requested);
    RetainedEpochs(l, history);
    Retained(l, history);
    if l.batches == [] {
    } else if requested == l.epoch {
      forall o, e | l.logStartOffset <= o < l.highWatermark && InEpoch(l, o, e) ensures e <= requested {
      }
    } else if requested == 0x7fff_ffff {
      WrappedReply(l, history);
    } else {
      SplitsAtBatch(l, history, requested);
    }
  }

  /** The largest retained epoch up to `requested`. */
  ghost predicate LargestUpTo(l: Log, requested: int, e: int) {
    e <= requested && (exists i :: 0 <= i < |l.batches| && l.batches[i].epoch == e) &&
    forall i :: 0 <= i < |l.batches| && l.batches[i].epoch <= requested ==> l.batches[i].epoch <= e
  }

  /**
   The whole reply, by the retained batches. Nothing is known exactly if no
   retained batch is of a later epoch than the requested; if all are, the reply
   is the requested epoch and the log start; otherwise it is the largest
   retained epoch up to the requested, and where the next one starts.
   */
  lemma EpochReplyIs(l: Log, history: seq<PartBatch>, requested: int)
    requires LogInv(l, history) && IsInt32(requested)
    ensures var r := EpochSpec(l, l.epoch, requested);
      (requested == l.epoch ==> r == Epoch(l.epoch, l.highWatermark)) &&
      (requested != l.epoch && l.batches == [] ==> r == if requested < l.epoch then Epoch(l.epoch, 0) else Epoch(-1, -1)) &&
      (requested != l.epoch && l.batches != [] && requested < 0x7fff_ffff ==>
        (r == Epoch(-1, -1) <==> forall i :: 0 <= i < |l.batches| ==> l.batches[i].epoch <= requested) &&
        (r.endOffset == -1 <==> r == Epoch(-1, -1)) &&
        ((forall i :: 0 <= i < |l.batches| ==> l.batches[i].epoch > requested) ==> r == Epoch(requested, l.logStartOffset)) &&
        ((exists i :: 0 <= i < |l.batches| && l.batches[i].epoch <= requested) && r.endOffset != -1 ==>
          LargestUpTo(l, requested, r.leaderEpoch) && exists i :: StartsAfter(l, requested, i) && r.endOffset == First(l.batches[i])))
  {
    if requested != l.epoch && l.batches != [] && requested < 0x7fff_ffff { SearchedReply(l, history, requested); }
  }

  /** Batch `i` is the first of a later epoch than `requested`. */
  ghost predicate StartsAfter(l: Log, requested: int, i: int) {
    0 <= i < |l.batches| && l.batches[i].epoch > requested &&
    forall k :: 0 <= k < i ==> l.batches[k].epoch <= requested
  }

  lemma SearchedReply(l: Log, history: seq<PartBatch>, requested: int)
    requires LogInv(l, history) && IsInt32(requested) && requested != l.epoch && l.batches != [] && requested < 0x7fff_ffff
    ensures var r := EpochSpec(l, l.epoch, requested);
      (r == Epoch(-1, -1) <==> forall i :: 0 <= i < |l.batches| ==> l.batches[i].epoch <= requested) &&
      (r.endOffset == -1 <==> r == Epoch(-1, -1)) &&
      ((forall i :: 0 <= i < |l.batches| ==> l.batches[i].epoch > requested) ==> r == Epoch(requested, l.logStartOffset)) &&
      ((exists i :: 0 <= i < |l.batches| && l.batches[i].epoch <= requested) && r.endOffset != -1 ==>
        LargestUpTo(l, requested, r.leaderEpoch) && exists i :: StartsAfter(l, requested, i) && r.endOffset == First(l.batches[i]))
  {
    hide LogInv, FirstFrom, LargestUpTo, Plus32;
    Plus32Exact(requested);
    var idx := FirstFrom(l.batches, requested + 1);
    SplitOfEpochs(l, history, requested);
    if idx < |l.batches| { assert StartsAfter(l, requested, idx); }
  }

  lemma SplitOfEpochs(l: Log, history: seq<PartBatch>, requested: int)
    requires LogInv(l, history) && l.batches != []
    ensures var idx := FirstFrom(l.batches, requested + 1);
      l.logStartOffset >= 0 && (forall k :: 0 <= k < idx ==> l.batches[k].epoch <= requested) &&
      (forall k :: idx <= k < |l.batches| ==> l.batches[k].epoch > requested) &&
      (idx < |l.batches| ==> StartsAfter(l, requested, idx) && First(l.batches[idx]) >= 0) &&
      (idx > 0 ==> LargestUpTo(l, requested, l.batches[idx - 1].epoch))
  {
    RetainedEpochs(l, history);
    var idx := FirstFrom(l.batches, requested + 1);
    FirstFromReached(l.batches, requested + 1);
    forall k | 0 <= k < idx ensures l.batches[k].epoch <= requested {
      FirstFromSplits(l.batches, requested + 1, k);
    }
    if idx < |l.batches| { RetainedOffset(l, history, idx); }
  }

  lemma RetainedOffset(l: Log, history: seq<PartBatch>, i: nat)
    requires LogInv(l, history) && i < |l.batches|
    ensures First(l.batches[i]) >= 0
  {
    var k := FromIsSuffix(history, l.logStartOffset);
    ChainBelow(history, 0, l.highWatermark, k + i);
    assert l.batches[i] == history[k + i];
  }

  lemma WrappedReply(l: Log, history: seq<PartBatch>)
    requires LogInv(l, history) && l.batches != [] && IsInt32(l.epoch) && l.epoch != 0x7fff_ffff
    requires forall i :: 0 <= i < |history| ==> IsInt32(history[i].epoch)
    ensures EpochSpec(l, l.epoch, 0x7fff_ffff) == Epoch(0x7fff_ffff, l.logStartOffset)
    ensures !SplitsAt(l, 0x7fff_ffff, l.logStartOffset)
  {
    FirstInEpoch(l, history);
    RetainedEpochs(l, history);
  }

  lemma FirstInEpoch(l: Log, history: seq<PartBatch>)
    requires LogInv(l, history) && l.batches != []
    ensures l.batches[0] in history && l.logStartOffset < l.highWatermark
    ensures InEpoch(l, l.logStartOffset, l.batches[0].epoch)
  {
    Retained(l, history);
    var k := FromIsSuffix(history, l.logStartOffset);
    assert l.batches[0] == history[k];
    ChainAbove(l.batches, First(l.batches[0]), l.highWatermark, 0);
    assert Contains(l.batches[0], l.logStartOffset);
    assert InEpoch(l, l.logStartOffset, l.batches[0].epoch);
  }
}
