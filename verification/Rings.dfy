/**
 The ring of `pkg/kgo/ring.go`: eight slots, a slice for what does not fit, and
 the rule that an element is dropped only after it has been handled.
 */
module Rings {
  import opened Wrappers

  // ---------------------------------------------------------------------
  // The queue a ring stands for
  // ---------------------------------------------------------------------

  datatype Queue<T> = Queue(items: seq<T>, dead: bool)

  datatype Pushed<T> = Pushed(q: Queue<T>, first: bool, dead: bool)

  datatype Peeked<T> = Peeked(q: Queue<T>, next: Option<T>, dead: bool)

  /** A dead queue takes nothing; otherwise `first` says that the pusher must start a worker. */
  function Enqueue<T>(q: Queue<T>, x: T): Pushed<T> {
    if q.dead then Pushed(q, false, true) else Pushed(q.(items := q.items + [x]), q.items == [], false)
  }

  /** The worker is done with the front; what comes next, if anything. */
  function DropFront<T>(q: Queue<T>): Peeked<T>
    requires q.items != []
  {
    var rest := q.items[1..];
    Peeked(q.(items := rest), if rest == [] then None else Some(rest[0]), q.dead)
  }

  // ---------------------------------------------------------------------
  // The ring
  // ---------------------------------------------------------------------

  const Eight: nat := 8

  /** Masking with 7, for the sums of two slot numbers. */
  function Wrap(i: nat): (w: nat)
    requires i <= 2 * Eight
    ensures i < 2 * Eight ==> w == i % Eight
  {
    if i < Eight then i else i - Eight
  }

  /** The `n` slots from `head` on, around the end. */
  function Slots<T>(elems: seq<T>, head: nat, n: nat): (s: seq<T>)
    requires |elems| == Eight && head < Eight
    ensures |s| == n
    decreases n
  {
    if n == 0 then [] else [elems[head]] + Slots(elems, Wrap(head + 1), n - 1)
  }

  /** How far slot `k` is ahead of `head`. */
  function Ahead(head: nat, k: nat): nat
    requires head < Eight && k < Eight
  {
    if k >= head then k - head else k + Eight - head
  }

  /** The slots that hold no element hold the zero value, so that nothing dropped is kept alive. */
  ghost predicate Blank<T>(elems: seq<T>, head: nat, l: nat, zero: T)
    requires |elems| == Eight && head < Eight
  {
    forall k :: 0 <= k < Eight && Ahead(head, k) >= l ==> elems[k] == zero
  }

  class Ring<T> {
    const zero: T
    const elems: array<T>
    var head: nat
    var tail: nat
    var l: nat
    var dead: bool
    var overflow: seq<T>

    constructor (zero: T)
      ensures Valid() && fresh(elems) && Abs() == Queue([], false) && this.zero == zero
    {
      this.zero := zero;
      elems := new T[Eight](_ => zero);
      head, tail, l, dead, overflow := 0, 0, 0, false, [];
    }

    ghost predicate Valid()
      reads this, elems
    {
      elems.Length == Eight && head < Eight && l <= Eight && tail == Wrap(head + l) && Blank(elems[..], head, l, zero)
    }

    ghost function Abs(): Queue<T>
      requires Valid()
      reads this, elems
    {
      Queue(Slots(elems[..], head, l) + overflow, dead)
    }

    method Die()
      requires Valid()
      modifies this`dead
      ensures Valid() && Abs() == old(Abs()).(dead := true)
    {
      dead := true;
    }

    method Push(x: T) returns (first: bool, isDead: bool)
      requires Valid()
      modifies this`overflow, this`tail, this`l, elems
      ensures Valid() && Enqueue(old(Abs()), x) == Pushed(Abs(), first, isDead)
      ensures isDead == old(dead) && (first <==> !isDead && old(Abs().items) == [])
      ensures Abs().items == if isDead then old(Abs().items) else old(Abs().items) + [x]
    {
      if dead { return false, true; }
      if l == Eight || |overflow| > 0 {
        AppendLast(Slots(elems[..], head, l), overflow, x);
        overflow := overflow + [x];
        return false, false;
      }
      PushSlot(x);
      return l == 1, false;
    }

    method PushSlot(x: T)
      requires Valid() && l < Eight && overflow == []
      modifies this`tail, this`l, elems
      ensures Valid() && l == old(l) + 1 && Abs() == old(Abs()).(items := old(Abs()).items + [x])
    {
      hide Slots, Blank;
      SlotsPush(elems[..], head, l, x);
      BlankPush(elems[..], head, l, zero, x);
      ghost var pushed := elems[..][tail := x];
      elems[tail] := x;
      assert elems[..] == pushed;
      tail := Wrap(tail + 1);
      l := l + 1;
    }

    /** Called by the one worker, and only while an element is in its hands. */
    method DropPeek() returns (next: T, more: bool, isDead: bool)
      requires Valid() && Abs().items != []
      modifies this`overflow, this`head, this`l, elems
      ensures Valid()
      ensures DropFront(old(Abs())) == Peeked(Abs(), if more then Some(next) else None, isDead)
      ensures Abs().items == old(Abs().items[1..]) && isDead == dead == old(dead)
      ensures if more then Abs().items != [] && next == Abs().items[0] else Abs().items == [] && next == zero
    {
      if l > 0 { DropFirst(Slots(elems[..], head, l), overflow); }
      if l > 1 {
        DropSlot();
        return elems[head], true, dead;
      } else if l == 1 {
        DropSlot();
        if |overflow| == 0 { return zero, false, dead; }
        return overflow[0], true, dead;
      }
      overflow := overflow[1..];
      if |overflow| > 0 { return overflow[0], true, dead; }
      return zero, false, dead;
    }

    method DropSlot()
      requires Valid() && l > 0
      modifies this`head, this`l, elems
      ensures Valid() && l == old(l) - 1
      ensures Slots(elems[..], head, l) == Slots(old(elems[..]), old(head), old(l))[1..]
      ensures l > 0 ==> Slots(elems[..], head, l)[0] == elems[head]
    {
      SlotsDrop(elems[..], head, l, zero);
      BlankDrop(elems[..], head, l, zero);
      ghost var dropped := elems[..][head := zero];
      elems[head] := zero;
      assert elems[..] == dropped;
      head := Wrap(head + 1);
      l := l - 1;
    }
  }

  lemma AppendLast<T>(ring: seq<T>, overflow: seq<T>, x: T)
    ensures ring + (overflow + [x]) == ring + overflow + [x]
  {
  }

  lemma DropFirst<T>(ring: seq<T>, overflow: seq<T>)
    requires ring != []
    ensures (ring + overflow)[1..] == ring[1..] + overflow
  {
  }

  lemma {:induction false} SlotsUntouched<T>(elems: seq<T>, head: nat, n: nat, k: nat, x: T)
    requires |elems| == Eight && head < Eight && k < Eight && n <= Ahead(head, k)
    ensures Slots(elems[k := x], head, n) == Slots(elems, head, n)
    decreases n
  {
    if n > 0 { SlotsUntouched(elems, Wrap(head + 1), n - 1, k, x); }
  }

  lemma {:induction false} SlotsSnoc<T>(elems: seq<T>, head: nat, n: nat)
    requires |elems| == Eight && head < Eight && n < Eight
    ensures Slots(elems, head, n + 1) == Slots(elems, head, n) + [elems[Wrap(head + n)]]
    decreases n
  {
    if n > 0 { SlotsSnoc(elems, Wrap(head + 1), n - 1); }
  }

  lemma SlotsPush<T>(elems: seq<T>, head: nat, l: nat, x: T)
    requires |elems| == Eight && head < Eight && l < Eight
    ensures Slots(elems[Wrap(head + l) := x], head, l + 1) == Slots(elems, head, l) + [x]
  {
    SlotsUntouched(elems, head, l, Wrap(head + l), x);
    SlotsSnoc(elems[Wrap(head + l) := x], head, l);
  }

  lemma BlankPush<T>(elems: seq<T>, head: nat, l: nat, zero: T, x: T)
    requires |elems| == Eight && head < Eight && l < Eight && Blank(elems, head, l, zero)
    ensures Blank(elems[Wrap(head + l) := x], head, l + 1, zero)
  {
  }

  lemma BlankDrop<T>(elems: seq<T>, head: nat, l: nat, zero: T)
    requires |elems| == Eight && head < Eight && 0 < l <= Eight && Blank(elems, head, l, zero)
    ensures Blank(elems[head := zero], Wrap(head + 1), l - 1, zero)
  {
  }

  lemma SlotsDrop<T>(elems: seq<T>, head: nat, l: nat, zero: T)
    requires |elems| == Eight && head < Eight && 0 < l <= Eight
    ensures Slots(elems[head := zero], Wrap(head + 1), l - 1) == Slots(elems, head, l)[1..]
  {
    SlotsUntouched(elems, Wrap(head + 1), l - 1, head, zero);
  }
}
