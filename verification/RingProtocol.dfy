/**
 A ring together with the worker that drains it, as both are used by
 `pkg/kgo/broker.go`: whoever pushes the first element starts the worker, and the
 worker ends when a drop leaves nothing.
 */
module RingProtocol {
  import opened Wrappers
  import opened Rings

  /**
   Where the worker is: not running; handling the front, or failing it because
   it was told that the ring is dead; or done with the front and about to drop it.
   */
  datatype Phase = Idle | Live | Failing | Finished

  /**
   The queue, the worker, and what has happened so far: the elements accepted,
   the elements disposed of and whether each was handled live, and how many
   were handled live after the ring died.
   */
  datatype Drain<T> = Drain(
    queue: Queue<T>, phase: Phase, pushed: seq<T>, handled: seq<(T, bool)>, liveAfterDeath: nat)

  function NewDrain<T>(): Drain<T> { Drain(Queue([], false), Idle, [], [], 0) }

  /** The elements not yet disposed of: without the front once the worker is done with it. */
  function Outstanding<T>(d: Drain<T>): seq<T> {
    if d.phase == Finished && d.queue.items != [] then d.queue.items[1..] else d.queue.items
  }

  function Elements<T>(handled: seq<(T, bool)>): (s: seq<T>)
    ensures |s| == |handled|
  {
    seq(|handled|, i requires 0 <= i < |handled| => handled[i].0)
  }

  /**
   A worker runs exactly when the queue is not empty, elements are disposed of
   in the order they were accepted, first all that are handled live and then
   all that are failed, and at most one is handled live after the death.
   */
  ghost predicate DrainInv<T>(d: Drain<T>) {
    (d.phase == Idle <==> d.queue.items == []) &&
    Elements(d.handled) + Outstanding(d) == d.pushed &&
    (d.phase == Failing ==> d.queue.dead) &&
    (forall i :: 0 <= i < |d.handled| && !d.handled[i].1 ==> d.queue.dead && d.phase != Live) &&
    (forall i, j :: 0 <= i < j < |d.handled| && d.handled[j].1 ==> d.handled[i].1) &&
    d.liveAfterDeath <= 1 &&
    (!d.queue.dead || d.phase == Live ==> d.liveAfterDeath == 0)
  }

  // ---------------------------------------------------------------------
  // Steps
  // ---------------------------------------------------------------------

  /** A push, and the start of a worker if it was the first. */
  function PushStep<T>(d: Drain<T>, x: T): Drain<T> {
    var p := Enqueue(d.queue, x);
    if p.dead then d
    else d.(queue := p.q, pushed := d.pushed + [x], phase := if p.first then Live else d.phase)
  }

  function DieStep<T>(d: Drain<T>): Drain<T> { d.(queue := d.queue.(dead := true)) }

  /** The worker is done with the front. */
  function DisposeStep<T>(d: Drain<T>): Drain<T>
    requires (d.phase == Live || d.phase == Failing) && d.queue.items != []
  {
    d.(phase := Finished, handled := d.handled + [(d.queue.items[0], d.phase == Live)],
       liveAfterDeath := if d.phase == Live && d.queue.dead then d.liveAfterDeath + 1 else d.liveAfterDeath)
  }

  /** The worker drops the front, and goes on or ends. */
  function DropStep<T>(d: Drain<T>): Drain<T>
    requires d.phase == Finished && d.queue.items != []
  {
    var p := DropFront(d.queue);
    d.(queue := p.q, phase := if p.next.None? then Idle else if p.dead then Failing else Live)
  }

  // ---------------------------------------------------------------------
  // Every step keeps the invariant
  // ---------------------------------------------------------------------

  /** The first push finds no worker running, so that two never run. */
  lemma PushInv<T>(d: Drain<T>, x: T)
    requires DrainInv(d)
    ensures DrainInv(PushStep(d, x))
    ensures Enqueue(d.queue, x).first ==> d.phase == Idle
    ensures Outstanding(PushStep(d, x)) == if d.queue.dead then Outstanding(d) else Outstanding(d) + [x]
    ensures d.queue.dead ==> PushStep(d, x) == d
  {
    if !d.queue.dead {
      assert Outstanding(PushStep(d, x)) == Outstanding(d) + [x];
      assert Elements(d.handled) + (Outstanding(d) + [x]) == Elements(d.handled) + Outstanding(d) + [x];
    }
  }

  lemma DieInv<T>(d: Drain<T>)
    requires DrainInv(d)
    ensures DrainInv(DieStep(d)) && Outstanding(DieStep(d)) == Outstanding(d)
  {
  }

  lemma DisposeInv<T>(d: Drain<T>)
    requires DrainInv(d) && (d.phase == Live || d.phase == Failing)
    ensures d.queue.items != [] && DrainInv(DisposeStep(d))
    ensures Outstanding(d) == [d.queue.items[0]] + Outstanding(DisposeStep(d))
  {
    var x := d.queue.items[0];
    assert d.queue.items == [x] + d.queue.items[1..];
    assert Elements(d.handled + [(x, d.phase == Live)]) == Elements(d.handled) + [x];
    assert Elements(d.handled) + [x] + d.queue.items[1..] == Elements(d.handled) + ([x] + d.queue.items[1..]);
  }

  /** A drop always finds the element it drops. */
  lemma DropInv<T>(d: Drain<T>)
    requires DrainInv(d) && d.phase == Finished
    ensures d.queue.items != [] && DrainInv(DropStep(d)) && Outstanding(DropStep(d)) == Outstanding(d)
  {
  }

  /** After the death: nothing is accepted, and what was queued behind the element in hand is failed. */
  lemma DeadDrainsDead<T>(d: Drain<T>)
    requires DrainInv(d) && d.queue.dead && d.phase == Finished
    ensures DropStep(d).phase != Live
  {
    DropInv(d);
  }
}
