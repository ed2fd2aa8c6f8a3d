/**
 Building a fetch response in `pkg/kfake/01_fetch.go` under its two byte limits.
 */
module Fetch {
  import opened Wrappers
  import opened PartitionLog
  import opened PartData

  /** A partition of the request: its log if it exists, and whether this broker serves it. */
  datatype Wanted = Wanted(pd: PartData?, serves: bool, offset: int, maxBytes: int)

  datatype Part = UnknownPartition | NotLeader | OutOfRange | Data(batches: seq<PartBatch>)

  function BatchesOf(p: Part): seq<PartBatch> { if p.Data? then p.batches else [] }

  function Count(ps: seq<Part>): nat {
    if ps == [] then 0 else Count(ps[..|ps| - 1]) + |BatchesOf(ps[|ps| - 1])|
  }

  function Size(ps: seq<Part>): nat {
    if ps == [] then 0 else Size(ps[..|ps| - 1]) + Bytes(BatchesOf(ps[|ps| - 1]))
  }

  // ---------------------------------------------------------------------
  // One partition
  // ---------------------------------------------------------------------

  lemma TakeOne(bs: seq<PartBatch>, n: nat)
    requires n < |bs|
    ensures Bytes(bs[..n + 1]) == Bytes(bs[..n]) + bs[n].nbytes
  {
    assert bs[..n + 1] == bs[..n] + [bs[n]];
    BytesSnoc(bs[..n], bs[n]);
  }

  /** The loop over the batches of a partition; `nbytes` also counts batches that the partition's limit turned away. */
  method Take(bs: seq<PartBatch>, partMax: int, maxBytes: int, nbytes0: nat, added0: nat)
      returns (n: nat, nbytes: nat, full: bool)
    ensures n <= |bs| && nbytes == nbytes0 + Bytes(bs[..n]) + if n < |bs| then bs[n].nbytes else 0
    ensures added0 == 0 && bs != [] ==> n >= 1
    ensures Bytes(bs[..n]) <= partMax || n == 0 || (n == 1 && added0 == 0)
    ensures n >= 1 && added0 + n >= 2 ==> nbytes0 + Bytes(bs[..n]) <= maxBytes
    ensures full <==> n < |bs| && nbytes > maxBytes
    ensures n < |bs| ==> added0 + n >= 1
    ensures n < |bs| ==> nbytes0 + Bytes(bs[..n + 1]) > maxBytes || Bytes(bs[..n + 1]) > partMax
  {
    n, nbytes := 0, nbytes0;
    var pbytes := 0;
    while n < |bs|
      invariant n <= |bs| && pbytes == Bytes(bs[..n]) && nbytes == nbytes0 + pbytes
      invariant pbytes <= partMax || n == 0 || (n == 1 && added0 == 0)
      invariant n >= 1 && added0 + n >= 2 ==> nbytes <= maxBytes
    {
      TakeOne(bs, n);
      nbytes := nbytes + bs[n].nbytes;
      if nbytes > maxBytes && added0 + n > 0 { return n, nbytes, true; }
      pbytes := pbytes + bs[n].nbytes;
      if pbytes > partMax && added0 + n > 0 { return n, nbytes, false; }
      n := n + 1;
    }
    full := false;
  }

  // ---------------------------------------------------------------------
  // The response
  // ---------------------------------------------------------------------

  ghost predicate Servable(w: Wanted)
    reads w.pd
  {
    w.pd != null && w.serves && w.pd.Valid()
  }

  /** The partition has a record at the requested offset. */
  ghost predicate HasData(w: Wanted)
    reads w.pd
  {
    Servable(w) && w.pd.logStartOffset <= w.offset < w.pd.highWatermark
  }

  /**
   The part answers what was wanted: an error, nothing at the end of the log, or
   a run of batches from index `i` on, which holds the offset. `seen` bytes were
   counted before, and the run ends with the log or where one more batch would
   have exceeded a limit.
   */
  ghost predicate Answers(w: Wanted, p: Part, i: int, seen: nat, maxBytes: int)
    reads w.pd
  {
    match p
    case UnknownPartition => w.pd == null
    case NotLeader => w.pd != null && !w.serves
    case OutOfRange => Servable(w) && IsSearch(w.pd.L(), w.offset, Missing)
    case Data(bs) =>
      Servable(w) &&
      if i == -1 then bs == [] && IsSearch(w.pd.L(), w.offset, AtEnd)
      else RunFrom(w.pd.batches, i, bs, w.offset) && Longest(w.pd.batches, i, bs, seen, maxBytes, w.maxBytes)
  }

  /** `bs` is a run of the log's batches that starts at index `i`, where the offset is. */
  predicate RunFrom(batches: seq<PartBatch>, i: int, bs: seq<PartBatch>, offset: int) {
    0 <= i <= i + |bs| <= |batches| && bs == batches[i..i + |bs|] && i < |batches| && Contains(batches[i], offset)
  }

  /** No batch is left, or the next would have exceeded a limit. */
  predicate Longest(batches: seq<PartBatch>, i: int, bs: seq<PartBatch>, seen: nat, maxBytes: int, partMax: int)
    requires 0 <= i <= i + |bs| <= |batches|
  {
    i + |bs| < |batches| ==>
      var more := bs + [batches[i + |bs|]];
      seen + Bytes(more) > maxBytes || Bytes(more) > partMax
  }

  /** A batch follows those of the part in the log. */
  predicate TurnedAway(w: Wanted, p: Part, i: int)
    reads w.pd
  {
    w.pd != null && p.Data? && i >= 0 && i + |p.batches| < |w.pd.batches|
  }

  /** The request's limit turned away a batch of part `k`. */
  ghost predicate CutAt(wanted: seq<Wanted>, resp: seq<Part>, starts: seq<int>, k: nat, maxBytes: int)
    requires k < |resp| == |starts| <= |wanted|
    reads set w | w in wanted :: w.pd
  {
    TurnedAway(wanted[k], resp[k], starts[k]) && CountedAll(wanted, resp[..k + 1], starts[..k + 1]) > maxBytes
  }

  /** The bytes that a part adds to the count: its batches and the one that was turned away. */
  function Counted(w: Wanted, p: Part, i: int): nat
    reads w.pd
  {
    if w.pd == null || !p.Data? || i < 0 || i + |p.batches| > |w.pd.batches| then 0
    else Bytes(p.batches) + if i + |p.batches| < |w.pd.batches| then w.pd.batches[i + |p.batches|].nbytes else 0
  }

  function CountedAll(wanted: seq<Wanted>, resp: seq<Part>, starts: seq<int>): nat
    requires |resp| == |starts| <= |wanted|
    reads set w | w in wanted :: w.pd
    decreases |resp|
  {
    if resp == [] then 0 else
    var k := |resp| - 1;
    CountedAll(wanted, resp[..k], starts[..k]) + Counted(wanted[k], resp[k], starts[k])
  }

  /** Within its own limit, or the very first batch of the response alone. */
  ghost predicate Limited(w: Wanted, p: Part, before: seq<Part>) {
    Bytes(BatchesOf(p)) <= w.maxBytes || BatchesOf(p) == [] || (|BatchesOf(p)| == 1 && Count(before) == 0)
  }

  /** One partition of the response, added after the parts so far; its batches start at index `start` of the log. */
  method Serve(w: Wanted, maxBytes: int, nbytes0: nat, added0: nat)
      returns (p: Part, nbytes: nat, full: bool, ghost start: int)
    requires w.pd != null ==> w.pd.Valid()
    ensures Answers(w, p, start, nbytes0, maxBytes) && nbytes == nbytes0 + Counted(w, p, start)
    ensures added0 == 0 && HasData(w) ==> BatchesOf(p) != []
    ensures Bytes(BatchesOf(p)) <= w.maxBytes || BatchesOf(p) == [] || (|BatchesOf(p)| == 1 && added0 == 0)
    ensures BatchesOf(p) != [] && added0 + |BatchesOf(p)| >= 2 ==> nbytes0 + Bytes(BatchesOf(p)) <= maxBytes
    ensures full <==> TurnedAway(w, p, start) && nbytes > maxBytes
    ensures full ==> added0 + |BatchesOf(p)| >= 1
  {
    nbytes, full, start := nbytes0, false, -1;
    if w.pd == null { return UnknownPartition, nbytes, full, start; }
    if !w.serves { return NotLeader, nbytes, full, start; }
    SideMonotone(w.pd.L(), w.pd.history, w.offset);
    var s := w.pd.SearchOffset(w.offset);
    match s
    case AtEnd => p := Data([]);
    case Missing =>
      Retained(w.pd.L(), w.pd.history);
      p := OutOfRange;
    case Found(i) =>
      start := i;
      p, nbytes, full := ServeFrom(w, i, maxBytes, nbytes0, added0);
  }

  /** The batches from index `i` on, until the log ends or one more would exceed a limit. */
  method ServeFrom(w: Wanted, i: nat, maxBytes: int, nbytes0: nat, added0: nat) returns (p: Part, nbytes: nat, full: bool)
    requires Servable(w) && i < |w.pd.batches| && Contains(w.pd.batches[i], w.offset)
    ensures p.Data? && RunFrom(w.pd.batches, i, p.batches, w.offset) && nbytes == nbytes0 + Counted(w, p, i)
    ensures Longest(w.pd.batches, i, p.batches, nbytes0, maxBytes, w.maxBytes)
    ensures added0 == 0 ==> p.batches != []
    ensures Bytes(p.batches) <= w.maxBytes || p.batches == [] || (|p.batches| == 1 && added0 == 0)
    ensures p.batches != [] && added0 + |p.batches| >= 2 ==> nbytes0 + Bytes(p.batches) <= maxBytes
    ensures full <==> TurnedAway(w, p, i) && nbytes > maxBytes
    ensures full ==> added0 + |p.batches| >= 1
  {
    var bs := w.pd.batches[i..];
    var n;
    n, nbytes, full := Take(bs, w.maxBytes, maxBytes, nbytes0, added0);
    assert bs[..n] == w.pd.batches[i..i + n];
    if n < |bs| { assert bs[..n + 1] == bs[..n] + [w.pd.batches[i + n]]; }
    p := Data(bs[..n]);
  }

  /**
   The whole response. With two or more batches it is within the request's
   limit, each partition is within its own limit unless it holds the first
   batch alone, and if any partition has data at least one batch is returned.
   */
  method BuildResponse(wanted: seq<Wanted>, maxBytes: int) returns (resp: seq<Part>, ghost starts: seq<int>)
    requires forall k :: 0 <= k < |wanted| && wanted[k].pd != null ==> wanted[k].pd.Valid()
    ensures |starts| == |resp| <= |wanted|
    ensures forall k :: 0 <= k < |resp| ==> PartServed(wanted, resp, starts, k, maxBytes)
    ensures Count(resp) >= 2 ==> Size(resp) <= maxBytes
    ensures (exists k :: 0 <= k < |wanted| && HasData(wanted[k])) ==> Count(resp) >= 1
    ensures forall k :: 0 <= k < |resp| - 1 ==> !CutAt(wanted, resp, starts, k, maxBytes)
    ensures |resp| < |wanted| ==> Count(resp) >= 1 && CutAt(wanted, resp, starts, |resp| - 1, maxBytes)
  {
    hide PartServed, CutAt, Count, Size, CountedAll, HasData;
    NoParts(wanted);
    resp, starts := [], [];
    var nbytes, added, full := 0, 0, false;
    while |resp| < |wanted| && !full
      invariant |starts| == |resp| <= |wanted| && added == Count(resp) && Size(resp) <= nbytes
      invariant nbytes == CountedAll(wanted, resp, starts)
      invariant forall k :: 0 <= k < |resp| ==> PartServed(wanted, resp, starts, k, maxBytes)
      invariant Count(resp) >= 2 ==> Size(resp) <= maxBytes
      invariant full ==> added >= 1 && |resp| >= 1
      invariant forall k :: 0 <= k < |resp| ==> (CutAt(wanted, resp, starts, k, maxBytes) <==> full && k == |resp| - 1)
      invariant added == 0 ==> forall k :: 0 <= k < |resp| ==> !HasData(wanted[k])
      decreases |wanted| - |resp|, !full
    {
      var p;
      ghost var start;
      p, nbytes, full, start := ServeNext(wanted, maxBytes, nbytes, added, resp, starts);
      resp, starts := resp + [p], starts + [start];
      added := added + |BatchesOf(p)|;
    }
  }

  /** The next partition of the response. */
  method ServeNext(wanted: seq<Wanted>, maxBytes: int, nbytes0: nat, added0: nat, resp: seq<Part>, ghost starts: seq<int>)
      returns (p: Part, nbytes: nat, full: bool, ghost start: int)
    requires forall k :: 0 <= k < |wanted| && wanted[k].pd != null ==> wanted[k].pd.Valid()
    requires |starts| == |resp| < |wanted| && added0 == Count(resp) && Size(resp) <= nbytes0
    requires nbytes0 == CountedAll(wanted, resp, starts) && (Count(resp) >= 2 ==> Size(resp) <= maxBytes)
    requires forall k :: 0 <= k < |resp| ==> PartServed(wanted, resp, starts, k, maxBytes)
    ensures Count(resp + [p]) == added0 + |BatchesOf(p)| && Size(resp + [p]) <= nbytes
    ensures nbytes == CountedAll(wanted, resp + [p], starts + [start])
    ensures forall k :: 0 <= k <= |resp| ==> PartServed(wanted, resp + [p], starts + [start], k, maxBytes)
    ensures Count(resp + [p]) >= 2 ==> Size(resp + [p]) <= maxBytes
    ensures full ==> Count(resp + [p]) >= 1
    ensures full <==> CutAt(wanted, resp + [p], starts + [start], |resp|, maxBytes)
    ensures forall k :: 0 <= k < |resp| ==>
      (CutAt(wanted, resp + [p], starts + [start], k, maxBytes) <==> CutAt(wanted, resp, starts, k, maxBytes))
    ensures added0 == 0 && HasData(wanted[|resp|]) ==> Count(resp + [p]) >= 1
  {
    p, nbytes, full, start := Serve(wanted[|resp|], maxBytes, nbytes0, added0);
    SnocParts(resp, p);
    SnocCounted(wanted, resp, starts, p, start);
    ServedMore(wanted, resp, starts, p, start, maxBytes);
    CutMore(wanted, resp, starts, p, start, maxBytes);
  }

  lemma NoParts(wanted: seq<Wanted>)
    ensures Count([]) == 0 && Size([]) == 0 && CountedAll(wanted, [], []) == 0
  {
  }

  lemma CutMore(wanted: seq<Wanted>, resp: seq<Part>, starts: seq<int>, p: Part, start: int, maxBytes: int)
    requires |resp| == |starts| < |wanted|
    ensures forall k :: 0 <= k < |resp| ==>
      (CutAt(wanted, resp + [p], starts + [start], k, maxBytes) <==> CutAt(wanted, resp, starts, k, maxBytes))
    ensures CutAt(wanted, resp + [p], starts + [start], |resp|, maxBytes) <==>
      TurnedAway(wanted[|resp|], p, start) && CountedAll(wanted, resp + [p], starts + [start]) > maxBytes
  {
    var resp', starts' := resp + [p], starts + [start];
    forall k | 0 <= k < |resp|
      ensures CutAt(wanted, resp', starts', k, maxBytes) <==> CutAt(wanted, resp, starts, k, maxBytes)
    {
      assert resp'[..k + 1] == resp[..k + 1] && starts'[..k + 1] == starts[..k + 1];
    }
    assert resp'[..|resp| + 1] == resp' && starts'[..|resp| + 1] == starts';
  }

  /** Part `k` of the response answers what was wanted, within its limits, after the parts before it. */
  ghost predicate PartServed(wanted: seq<Wanted>, resp: seq<Part>, starts: seq<int>, k: nat, maxBytes: int)
    requires k < |resp| == |starts| <= |wanted|
    reads set w | w in wanted :: w.pd
  {
    Answers(wanted[k], resp[k], starts[k], CountedAll(wanted, resp[..k], starts[..k]), maxBytes) &&
    Limited(wanted[k], resp[k], resp[..k])
  }

  lemma ServedMore(wanted: seq<Wanted>, resp: seq<Part>, starts: seq<int>, p: Part, start: int, maxBytes: int)
    requires |resp| == |starts| < |wanted|
    requires forall k :: 0 <= k < |resp| ==> PartServed(wanted, resp, starts, k, maxBytes)
    requires Answers(wanted[|resp|], p, start, CountedAll(wanted, resp, starts), maxBytes)
    requires Limited(wanted[|resp|], p, resp)
    ensures forall k :: 0 <= k <= |resp| ==> PartServed(wanted, resp + [p], starts + [start], k, maxBytes)
  {
    forall k | 0 <= k <= |resp| ensures PartServed(wanted, resp + [p], starts + [start], k, maxBytes) {
      assert (resp + [p])[..k] == resp[..k] && (starts + [start])[..k] == starts[..k];
      if k < |resp| {
        assert PartServed(wanted, resp, starts, k, maxBytes);
      } else {
        assert resp[..k] == resp && starts[..k] == starts;
      }
    }
  }

  lemma SnocCounted(wanted: seq<Wanted>, resp: seq<Part>, starts: seq<int>, p: Part, start: int)
    requires |resp| == |starts| < |wanted|
    ensures CountedAll(wanted, resp + [p], starts + [start]) ==
            CountedAll(wanted, resp, starts) + Counted(wanted[|resp|], p, start)
  {
    assert (resp + [p])[..|resp|] == resp && (starts + [start])[..|starts|] == starts;
  }

  lemma SnocParts(ps: seq<Part>, p: Part)
    ensures Count(ps + [p]) == Count(ps) + |BatchesOf(p)| && Size(ps + [p]) == Size(ps) + Bytes(BatchesOf(p))
  {
    assert (ps + [p])[..|ps|] == ps;
  }
}
