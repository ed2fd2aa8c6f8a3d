/**
 Duplicate detection for idempotent producers in `pkg/kfake/pid.go`: a window of
 the five latest sequence boundaries stands for everything a producer ever sent.
 */
module Producers {
  import opened Wrappers

  /** `math.MaxInt32`: sequence numbers are counted modulo this. */
  const M: int := 0x7fff_ffff

  /** An accepted batch: its first sequence number and how many records it holds. */
  datatype Sent = Sent(first: int, count: int)

  datatype Window = Window(seqs: seq<int>, at: nat)

  const NewWindow := Window([0, 0, 0, 0, 0], 0)

  /** Go's `%`, which takes the sign of the dividend. */
  function Rem(a: int, b: int): int
    requires b > 0
  {
    if a >= 0 then a % b else -((-a) % b)
  }

  function NextSeq(first: int, count: int): int { Rem(first + count, M) }

  /** Sequence numbers go from 2147483646 to 0. */
  lemma NextSeqWraps(first: int, count: int)
    requires 0 <= first < 0x7fff_ffff && 0 <= count <= 0x7fff_ffff
    ensures NextSeq(first, count) == if first + count < 0x7fff_ffff then first + count else first + count - 0x7fff_ffff
  {
  }

  /** For any numbers: the remainder of the division that rounds toward zero. */
  lemma NextSeqTruncates(first: int, count: int)
    ensures var next := NextSeq(first, count);
      -0x7fff_ffff < next < 0x7fff_ffff && (first + count - next) % 0x7fff_ffff == 0 &&
      (first + count > 0 ==> next >= 0) && (first + count < 0 ==> next <= 0)
  {
    var sum := first + count;
    if sum < 0 {
      var q := (-sum) / M;
      assert sum - NextSeq(first, count) == -q * M;
      ModShift(0, -q);
    } else {
      assert sum - NextSeq(first, count) == sum / M * M;
      ModShift(0, sum / M);
    }
  }

  predicate Shaped(w: Window) { |w.seqs| == 5 && w.at < 5 }

  /** Slot `i` and the next one, around the end, hold the boundaries of the batch. */
  predicate PairAt(w: Window, i: nat, first: int, next: int)
    requires Shaped(w) && i < 5
  {
    w.seqs[i] == first && w.seqs[(i + 1) % 5] == next
  }

  predicate IsDuplicate(w: Window, first: int, count: int)
    requires Shaped(w)
  {
    exists i :: 0 <= i < 5 && PairAt(w, i, first, NextSeq(first, count))
  }

  /** The window after a batch that ends at `next`. */
  function Pushed(w: Window, next: int): Window
    requires Shaped(w)
  {
    Window(w.seqs[(w.at + 1) % 5 := next], (w.at + 1) % 5)
  }

  datatype Verdict = Duplicate | OutOfOrder | Accepted(w: Window)

  function Validate(w: Window, first: int, count: int): Verdict
    requires Shaped(w)
  {
    if IsDuplicate(w, first, count) then Duplicate
    else if w.seqs[w.at] != first then OutOfOrder
    else Accepted(Pushed(w, NextSeq(first, count)))
  }

  class PidSeqs {
    const seqs: array<int>
    var at: nat

    ghost predicate Valid()
      reads this, seqs
    {
      seqs.Length == 5 && at < 5
    }

    function W(): Window
      requires Valid()
      reads this, seqs
    {
      Window(seqs[..], at)
    }

    constructor ()
      ensures Valid() && fresh(seqs) && W() == NewWindow
    {
      seqs := new int[5](_ => 0);
      at := 0;
      new;
      assert seqs[..] == [0, 0, 0, 0, 0];
    }

    method PushAndValidate(first: int, count: int) returns (ok: bool, dup: bool)
      requires Valid()
      modifies this, seqs
      ensures Valid()
      ensures ok == !Validate(old(W()), first, count).OutOfOrder?
      ensures dup == Validate(old(W()), first, count).Duplicate?
      ensures match Validate(old(W()), first, count)
        case Accepted(w) => W() == w
        case _ => W() == old(W())
    {
      var next := NextSeq(first, count);
      var i := 0;
      while i < 5
        invariant i <= 5 && forall k :: 0 <= k < i ==> !PairAt(W(), k, first, next)
        invariant W() == old(W())
      {
        if seqs[i] == first && seqs[(i + 1) % 5] == next {
          assert PairAt(W(), i, first, next);
          return true, true;
        }
        i := i + 1;
      }
      if seqs[at] != first { return false, false; }
      at := (at + 1) % 5;
      seqs[at] := next;
      return true, false;
    }
  }

  // ---------------------------------------------------------------------
  // The window and the full history
  // ---------------------------------------------------------------------

  /** The records in the first `k` batches. */
  function Total(h: seq<Sent>, k: int): int
    requires k <= |h|
  {
    if k <= 0 then 0 else Total(h, k - 1) + h[k - 1].count
  }

  /** The sequence number after the first `k` batches; zero before the first. */
  function Boundary(h: seq<Sent>, k: int): int
    requires k <= |h|
  {
    Total(h, k) % M
  }

  /** Each batch starts where the one before it ended: nothing is skipped and nothing is repeated. */
  ghost predicate Gapless(h: seq<Sent>) {
    forall i :: 0 <= i < |h| ==> h[i].first == Boundary(h, i)
  }

  ghost predicate Counts(h: seq<Sent>) { forall i :: 0 <= i < |h| ==> 1 <= h[i].count <= M }

  /** The slot `j` before `at`, around the end. */
  function Back(at: nat, j: nat): (k: nat)
    requires at < 5 && j < 5
    ensures k < 5
  {
    if at >= j then at - j else at + 5 - j
  }

  /** Slot `j` of the window, counted back from the latest. */
  function Slot(w: Window, j: nat): int
    requires Shaped(w) && j < 5
  {
    w.seqs[Back(w.at, j)]
  }

  lemma Neighbours(at: nat, j: nat)
    requires at < 5 && j < 5
    ensures (Back(at, j) + 1) % 5 == Back(at, if j == 0 then 4 else j - 1)
    ensures Back(at, Back(at, j)) == j
    ensures j > 0 ==> Back((at + 1) % 5, j) == Back(at, j - 1) && Back(at, j - 1) != (at + 1) % 5
  {
  }

  ghost predicate Remembers(w: Window, h: seq<Sent>) {
    Shaped(w) && Gapless(h) && Counts(h) && forall j :: 0 <= j < 5 ==> Slot(w, j) == Boundary(h, |h| - j)
  }

  lemma {:induction false} TotalPrefix(h: seq<Sent>, x: Sent, k: int)
    requires k <= |h|
    ensures Total(h + [x], k) == Total(h, k)
  {
    if k > 0 { TotalPrefix(h, x, k - 1); }
  }

  lemma {:induction false} TotalGrows(h: seq<Sent>, i: int, j: int)
    requires Counts(h) && i <= j <= |h|
    ensures Total(h, i) <= Total(h, j)
    decreases j - i
  {
    if i < j { TotalGrows(h, i, j - 1); }
  }

  lemma AddMod(a: int, c: int)
    ensures (a % M + c) % M == (a + c) % M
  {
    var q := a / M;
    assert a == q * M + a % M;
    assert a + c == q * M + (a % M + c);
    ModShift(a % M + c, q);
  }

  lemma {:induction false} ModShift(x: int, q: int)
    ensures (q * M + x) % M == x % M
    decreases if q < 0 then -q else q
  {
    if q > 0 {
      ModShift(x, q - 1);
      ModOnce((q - 1) * M + x);
      assert q * M + x == (q - 1) * M + x + M;
    } else if q < 0 {
      ModShift(x, q + 1);
      ModOnce(q * M + x);
      assert (q + 1) * M + x == q * M + x + M;
    }
  }

  lemma ModOnce(x: int)
    ensures (x + M) % M == x % M
  {
  }

  /** The sequence number after `count` records from boundary `k` on. */
  lemma NextIs(h: seq<Sent>, k: int, count: int)
    requires k <= |h| && count >= 0
    ensures NextSeq(Boundary(h, k), count) == (Total(h, k) + count) % M
  {
    AddMod(Total(h, k), count);
  }

  lemma NextBoundary(h: seq<Sent>, first: int, count: int)
    requires Counts(h) && first == Boundary(h, |h|) && count >= 1
    ensures NextSeq(first, count) == Boundary(h + [Sent(first, count)], |h| + 1)
  {
    TotalPrefix(h, Sent(first, count), |h|);
    NextIs(h, |h|, count);
  }

  lemma NewRemembers()
    ensures Remembers(NewWindow, [])
  {
  }

  lemma GaplessSnoc(h: seq<Sent>, x: Sent)
    requires Gapless(h) && Counts(h) && x.first == Boundary(h, |h|) && 1 <= x.count <= M
    ensures Gapless(h + [x]) && Counts(h + [x])
  {
    forall i | 0 <= i < |h + [x]| ensures (h + [x])[i].first == Boundary(h + [x], i) {
      TotalPrefix(h, x, i);
    }
  }

  /** Each slot is now one further back, and the latest is the new boundary. */
  lemma SlotsShift(w: Window, next: int, j: nat)
    requires Shaped(w) && j < 5
    ensures Slot(Pushed(w, next), j) == if j == 0 then next else Slot(w, j - 1)
  {
    Neighbours(w.at, j);
  }

  /** An accepted batch continues the chain exactly, and the window keeps remembering it. */
  lemma AcceptedContinues(w: Window, h: seq<Sent>, first: int, count: int)
    requires Remembers(w, h) && 1 <= count <= M && Validate(w, first, count).Accepted?
    ensures first == Boundary(h, |h|)
    ensures Remembers(Validate(w, first, count).w, h + [Sent(first, count)])
  {
    assert Slot(w, 0) == Boundary(h, |h|);
    RemembersNext(w, h, first, count);
  }

  lemma RemembersNext(w: Window, h: seq<Sent>, first: int, count: int)
    requires Remembers(w, h) && 1 <= count <= M && first == Boundary(h, |h|)
    ensures Remembers(Pushed(w, NextSeq(first, count)), h + [Sent(first, count)])
  {
    hide NextSeq, Boundary, Slot, Gapless, Counts;
    GaplessSnoc(h, Sent(first, count));
    forall j | 0 <= j < 5
      ensures Slot(Pushed(w, NextSeq(first, count)), j) == Boundary(h + [Sent(first, count)], |h| + 1 - j)
    {
      SlotContinues(w, h, first, count, j);
    }
  }

  lemma SlotContinues(w: Window, h: seq<Sent>, first: int, count: int, j: nat)
    requires Remembers(w, h) && 1 <= count && first == Boundary(h, |h|) && j < 5
    ensures Slot(Pushed(w, NextSeq(first, count)), j) == Boundary(h + [Sent(first, count)], |h| + 1 - j)
  {
    SlotsShift(w, NextSeq(first, count), j);
    if j == 0 { NextBoundary(h, first, count); } else { TotalPrefix(h, Sent(first, count), |h| + 1 - j); }
  }

  // ---------------------------------------------------------------------
  // Any number of records
  // ---------------------------------------------------------------------

  /** Where the first `k` batches end, by the source's own arithmetic, whatever they claim to hold. */
  function EndOf(h: seq<Sent>, k: nat): int
    requires k <= |h|
  {
    if k == 0 then 0 else NextSeq(h[k - 1].first, h[k - 1].count)
  }

  /** Each batch starts where the one before it ended. */
  ghost predicate Chained(h: seq<Sent>) { forall i :: 0 <= i < |h| ==> h[i].first == EndOf(h, i) }

  /** The window knows where the history ends. */
  ghost predicate Follows(w: Window, h: seq<Sent>) {
    Shaped(w) && Chained(h) && w.seqs[w.at] == EndOf(h, |h|)
  }

  lemma AcceptedFollows(w: Window, h: seq<Sent>, first: int, count: int)
    requires Follows(w, h) && Validate(w, first, count).Accepted?
    ensures Follows(Validate(w, first, count).w, h + [Sent(first, count)])
  {
    var h' := h + [Sent(first, count)];
    forall i | 0 <= i < |h'| ensures h'[i].first == EndOf(h', i) {
      if i < |h| { assert h[i].first == EndOf(h, i); }
    }
  }

  /** With a record in every batch, such a chain is gapless. */
  lemma {:induction false} ChainedIsGapless(h: seq<Sent>, k: nat)
    requires Chained(h) && Counts(h) && k <= |h|
    ensures EndOf(h, k) == Boundary(h, k) && forall i :: 0 <= i < k ==> h[i].first == Boundary(h, i)
  {
    hide NextSeq, Boundary;
    if k > 0 {
      ChainedIsGapless(h, k - 1);
      assert h[k - 1].first == EndOf(h, k - 1);
      BoundaryAfter(h, k - 1);
    } else {
      BoundaryBefore(h);
    }
  }

  lemma BoundaryBefore(h: seq<Sent>)
    ensures Boundary(h, 0) == 0
  {
  }

  lemma BoundaryAfter(h: seq<Sent>, k: nat)
    requires k < |h| && h[k].count >= 0
    ensures NextSeq(Boundary(h, k), h[k].count) == Boundary(h, k + 1)
  {
    NextIs(h, k, h[k].count);
  }

  // ---------------------------------------------------------------------
  // Duplicates
  // ---------------------------------------------------------------------

  /** The index of the oldest batch whose two boundaries the window still holds. */
  function Oldest(h: seq<Sent>): nat { if |h| < 4 then 0 else |h| - 4 }

  /** The batch is one of the last four accepted. */
  ghost predicate Recent(h: seq<Sent>, x: Sent) {
    exists i :: Oldest(h) <= i < |h| && h[i] == x
  }

  /** Neighbouring slots, in terms of the history: four batches, and the pair of the latest and the oldest boundary. */
  lemma PairsAre(w: Window, h: seq<Sent>, i: nat) returns (j: nat)
    requires Remembers(w, h) && i < 5
    ensures j < 5 && w.seqs[i] == Boundary(h, |h| - j)
    ensures w.seqs[(i + 1) % 5] == if j == 0 then Boundary(h, |h| - 4) else Boundary(h, |h| - j + 1)
  {
    j := Back(w.at, i);
    Neighbours(w.at, i);
    Neighbours(w.at, j);
    assert Slot(w, j) == w.seqs[i];
    assert Slot(w, if j == 0 then 4 else j - 1) == w.seqs[(i + 1) % 5];
  }

  lemma {:induction false} ModDistinct(a: int, b: int)
    requires a % M == b % M && 0 <= b - a < M
    ensures a == b
  {
    var q, r := a / M, b / M;
    assert a == q * M + a % M && b == r * M + b % M;
    assert b - a == (r - q) * M;
    Multiples(r - q);
  }

  lemma Multiples(k: int)
    ensures k >= 1 ==> k * M >= M
    ensures k <= -1 ==> k * M <= -M
  {
  }

  /** Two batches with the same first sequence and the same next one hold equally many records. */
  lemma SameBoundaries(first: int, a: int, b: int)
    requires first >= 0 && 1 <= a <= M && 1 <= b <= M && NextSeq(first, a) == NextSeq(first, b)
    ensures a == b
  {
    if a < b { ModDistinct(first + a, first + b); } else { ModDistinct(first + b, first + a); }
  }

  /** A slot and the one after it, around the end. */
  lemma SlotPair(w: Window, j: nat)
    requires Shaped(w) && j < 5
    ensures PairAt(w, Back(w.at, j), Slot(w, j), Slot(w, if j == 0 then 4 else j - 1))
  {
    Neighbours(w.at, j);
  }

  lemma EndsAtBoundary(h: seq<Sent>, i: nat)
    requires Gapless(h) && Counts(h) && i < |h|
    ensures NextSeq(h[i].first, h[i].count) == Boundary(h, i + 1)
  {
    NextIs(h, i, h[i].count);
  }

  /** A batch that the window still remembers is always recognised. */
  lemma RecentIsDuplicate(w: Window, h: seq<Sent>, x: Sent)
    requires Remembers(w, h) && Recent(h, x)
    ensures Validate(w, x.first, x.count) == Duplicate
  {
    var i :| Oldest(h) <= i < |h| && h[i] == x;
    RememberedPair(w, h, i);
  }

  lemma RememberedPair(w: Window, h: seq<Sent>, i: nat)
    requires Remembers(w, h) && Oldest(h) <= i < |h|
    ensures IsDuplicate(w, h[i].first, h[i].count)
  {
    var j := |h| - i;
    SlotPair(w, j);
    EndsAtBoundary(h, i);
    assert Slot(w, j) == Boundary(h, |h| - j);
    assert Slot(w, j - 1) == Boundary(h, |h| - (j - 1));
  }

  /**
   If the last four batches and this one together hold fewer records than the
   sequence numbers have values, it is called a duplicate exactly when it is
   one of the last four.
   */
  lemma DuplicateIffRecent(w: Window, h: seq<Sent>, first: int, count: int)
    requires Remembers(w, h) && 1 <= count && Total(h, |h|) - Total(h, |h| - 4) + count < M
    ensures Validate(w, first, count).Duplicate? <==> Recent(h, Sent(first, count))
  {
    TotalGrows(h, |h| - 4, |h|);
    if Recent(h, Sent(first, count)) {
      RecentIsDuplicate(w, h, Sent(first, count));
    } else if IsDuplicate(w, first, count) {
      var i :| 0 <= i < 5 && PairAt(w, i, first, NextSeq(first, count));
      var j := PairsAre(w, h, i);
      NotAPair(h, first, count, j);
    }
  }

  lemma NotAPair(h: seq<Sent>, first: int, count: int, j: nat)
    requires Gapless(h) && Counts(h) && j < 5 && !Recent(h, Sent(first, count))
    requires 1 <= count && 0 <= Total(h, |h|) - Total(h, |h| - 4) && Total(h, |h|) - Total(h, |h| - 4) + count < M
    ensures !(first == Boundary(h, |h| - j) &&
              NextSeq(first, count) == if j == 0 then Boundary(h, |h| - 4) else Boundary(h, |h| - j + 1))
  {
    hide NextSeq, Total, Gapless;
    if first == Boundary(h, |h| - j) {
      NextIs(h, |h| - j, count);
      if j == 0 {
        if NextSeq(first, count) == Boundary(h, |h| - 4) { ModDistinct(Total(h, |h| - 4), Total(h, |h|) + count); }
      } else if j > |h| {
        BeforeFirst(h, |h| - j, |h| - j + 1);
        if NextSeq(first, count) == 0 { ModDistinct(0, count); }
      } else if NextSeq(first, count) == Boundary(h, |h| - j + 1) {
        SameAsOld(h, first, count, |h| - j);
      }
    }
  }

  lemma BeforeFirst(h: seq<Sent>, k: int, l: int)
    requires k <= l <= 0
    ensures Total(h, k) == Total(h, l) == Boundary(h, k) == Boundary(h, l) == 0
  {
  }

  lemma SameAsOld(h: seq<Sent>, first: int, count: int, i: nat)
    requires Gapless(h) && Counts(h) && i < |h| && 1 <= count <= M
    requires first == Boundary(h, i) && NextSeq(first, count) == Boundary(h, i + 1)
    ensures h[i] == Sent(first, count)
  {
    NextIs(h, i, h[i].count);
    SameBoundaries(first, count, h[i].count);
  }

  /** Under the same condition the next fresh batch is accepted, and nothing else but a recent duplicate gets through. */
  lemma FreshIsAccepted(w: Window, h: seq<Sent>, first: int, count: int)
    requires Remembers(w, h) && 1 <= count && Total(h, |h|) - Total(h, |h| - 4) + count < M
    ensures Validate(w, first, count).Accepted? <==> first == Boundary(h, |h|)
    ensures Validate(w, first, count).OutOfOrder? <==> first != Boundary(h, |h|) && !Recent(h, Sent(first, count))
  {
    DuplicateIffRecent(w, h, first, count);
    assert Slot(w, 0) == Boundary(h, |h|);
    if first == Boundary(h, |h|) && Recent(h, Sent(first, count)) {
      var i :| Oldest(h) <= i < |h| && h[i] == Sent(first, count);
      TotalGrows(h, |h| - 4, i);
      TotalGrows(h, i + 1, |h|);
      ModDistinct(Total(h, i), Total(h, |h|));
    }
  }

  lemma {:induction false} ModEqual(a: int, b: int)
    ensures a % M == b % M <==> (a - b) % M == 0
  {
    var q, r := a / M, b / M;
    assert a == q * M + a % M && b == r * M + b % M;
    assert a - b == (q - r) * M + (a % M - b % M);
    ModShift(a % M - b % M, q - r);
  }

  /** The records since boundary `k`, and the batch that followed it. */
  function Since(h: seq<Sent>, k: int): int
    requires k <= |h|
  {
    Total(h, |h|) - Total(h, k)
  }

  /**
   A slot and its neighbour hold the boundaries of the next batch: the sequence
   numbers have come full circle since the slot, and this batch ends where the
   one after the slot did.
   */
  ghost predicate FullCircle(h: seq<Sent>, count: int, j: nat) {
    if j == 0 then (Since(h, |h| - 4) + count) % M == 0
    else Since(h, |h| - j) % M == 0 && (Since(h, |h| - j + 1) + count) % M == 0
  }

  /** The exact condition: a fresh batch is taken for a duplicate if and only if the numbers have come full circle. */
  lemma FreshIsLostIff(w: Window, h: seq<Sent>, count: int)
    requires Remembers(w, h) && 1 <= count <= M
    ensures Validate(w, Boundary(h, |h|), count).Duplicate? <==> exists j :: 0 <= j < 5 && FullCircle(h, count, j)
    ensures !Validate(w, Boundary(h, |h|), count).Duplicate? ==> Validate(w, Boundary(h, |h|), count).Accepted?
  {
    var first := Boundary(h, |h|);
    assert Slot(w, 0) == first;
    if IsDuplicate(w, first, count) {
      PairIsCircle(w, h, count);
    } else {
      forall j | 0 <= j < 5 ensures !FullCircle(h, count, j) {
        if FullCircle(h, count, j) { CircleIsPair(w, h, count, j); }
      }
    }
  }

  lemma PairIsCircle(w: Window, h: seq<Sent>, count: int)
    requires Remembers(w, h) && count >= 0 && IsDuplicate(w, Boundary(h, |h|), count)
    ensures exists j :: 0 <= j < 5 && FullCircle(h, count, j)
  {
    var first := Boundary(h, |h|);
    var i :| 0 <= i < 5 && PairAt(w, i, first, NextSeq(first, count));
    var j := PairsAre(w, h, i);
    CircleIff(h, count, j);
  }

  lemma CircleIsPair(w: Window, h: seq<Sent>, count: int, j: nat)
    requires Remembers(w, h) && count >= 0 && j < 5 && FullCircle(h, count, j)
    ensures IsDuplicate(w, Boundary(h, |h|), count)
  {
    hide NextSeq, Boundary, FullCircle, Slot, Gapless, Counts;
    var first := Boundary(h, |h|);
    CircleIff(h, count, j);
    SlotPair(w, j);
    assert Slot(w, j) == Boundary(h, |h| - j);
    assert Slot(w, if j == 0 then 4 else j - 1) == if j == 0 then Boundary(h, |h| - 4) else Boundary(h, |h| - j + 1);
    assert PairAt(w, Back(w.at, j), first, NextSeq(first, count));
  }

  lemma CircleIff(h: seq<Sent>, count: int, j: nat)
    requires j < 5 && count >= 0
    ensures FullCircle(h, count, j) <==>
      Boundary(h, |h|) == Boundary(h, |h| - j) &&
      NextSeq(Boundary(h, |h|), count) == if j == 0 then Boundary(h, |h| - 4) else Boundary(h, |h| - j + 1)
  {
    NextIs(h, |h|, count);
    ModEqual(Total(h, |h|), Total(h, |h| - j));
    ModEqual(Total(h, |h|) + count, if j == 0 then Total(h, |h| - 4) else Total(h, |h| - j + 1));
  }

  /** Without the condition a fresh batch can be taken for a duplicate: the first batch of all, when it holds 2^31-1 records. */
  lemma FreshCanBeLost()
    ensures Remembers(NewWindow, []) && Boundary([], 0) == 0 && Validate(NewWindow, 0, 0x7fff_ffff) == Duplicate
  {
    NewRemembers();
    assert PairAt(NewWindow, 0, 0, NextSeq(0, M));
  }
}
