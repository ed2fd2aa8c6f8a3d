/**
 Appending produced batches in `pkg/kfake/00_produce.go`: what a batch must look
 like, how its producer is checked, and what runs of a partition leave in its log.
 */
module Produce {
  import opened Wrappers
  import opened PartitionLog
  import opened PartData
  import opened Producers

  /** What the handler reads of a batch. `crcOk` is the outcome of the checksum comparison. */
  datatype Incoming = Incoming(
    batch: RecordBatch, length: int, size: nat, magic: int, crcOk: bool, attributes: int, producerEpoch: int)

  datatype Code = NoError | CorruptMessage | FencedLeaderEpoch | UnknownLeaderEpoch | OutOfOrderSequenceNumber

  /** The checks of a batch by itself; `attributes` is an unsigned 16-bit number. */
  predicate WellFormedBatch(r: Incoming) {
    r.batch.firstOffset == 0 && r.length == r.size - 12 && r.batch.partitionLeaderEpoch == -1 && r.magic == 2 &&
    r.crcOk && r.attributes % 8 <= 4 && r.attributes / 16 == 0 && r.batch.lastOffsetDelta == r.batch.numRecords - 1
  }

  /** With the log-append-time bit the batch gets the broker's time. */
  function Timestamped(r: Incoming, now: int): RecordBatch {
    if r.attributes / 8 % 2 == 1 then r.batch.(firstTimestamp := now) else r.batch
  }

  /** Any of these makes a batch corrupt; the compression codec is the low three bits of the attributes. */
  predicate Corrupt(r: Incoming) {
    r.batch.firstOffset != 0 || r.length != r.size - 12 || r.batch.partitionLeaderEpoch != -1 || r.magic != 2 ||
    !r.crcOk || r.attributes % 8 in {5, 6, 7} || !(0 <= r.attributes < 16) ||
    r.batch.lastOffsetDelta + 1 != r.batch.numRecords
  }

  /** A batch as it is found in the log: only its offset, its leader epoch and perhaps its time have changed. */
  function StoredAs(r: Incoming, now: int, offset: int, epoch: int, maxTimestamp: int): PartBatch {
    var time := if r.attributes in {8, 9, 10, 11, 12} then now else r.batch.firstTimestamp;
    var batch := RecordBatch(offset, r.batch.lastOffsetDelta, r.batch.numRecords, time, epoch,
                             r.batch.producerId, r.batch.firstSequence);
    PartBatch(batch, r.size, epoch, if time < maxTimestamp then maxTimestamp else time)
  }

  lemma WellFormedIsNotCorrupt(r: Incoming)
    ensures WellFormedBatch(r) <==> !Corrupt(r)
  {
  }

  lemma StoredIs(l: Log, r: Incoming, now: int)
    requires !Corrupt(r)
    ensures Stored(l, r.size, Timestamped(r, now)) == StoredAs(r, now, l.highWatermark, l.epoch, l.maxTimestamp)
  {
  }

  /** A producer the cluster has given an ID to: its epoch and its window for this partition. */
  datatype Producer = Producer(epoch: int, window: Window)

  /** One partition, and the cluster's producers. */
  datatype Broker = Broker(log: Log, producers: map<int, Producer>)

  datatype Outcome = Outcome(b: Broker, code: Code, appended: bool)

  function Produce(b: Broker, r: Incoming, now: int): Outcome
    requires forall id :: id in b.producers ==> Shaped(b.producers[id].window)
  {
    if !WellFormedBatch(r) then Outcome(b, CorruptMessage, false) else
    var id := r.batch.producerId;
    var epoch := if id in b.producers then b.producers[id].epoch else 0;
    if r.producerEpoch != -1 && r.producerEpoch < epoch then Outcome(b, FencedLeaderEpoch, false)
    else if r.producerEpoch != -1 && r.producerEpoch > epoch then Outcome(b, UnknownLeaderEpoch, false)
    else if id !in b.producers then Append(b, r, now)
    else
      match Validate(b.producers[id].window, r.batch.firstSequence, r.batch.numRecords)
      case OutOfOrder => Outcome(b, OutOfOrderSequenceNumber, false)
      case Duplicate => Outcome(b, NoError, false)
      case Accepted(w) =>
        Append(b.(producers := b.producers[id := b.producers[id].(window := w)]), r, now)
  }

  function Append(b: Broker, r: Incoming, now: int): Outcome {
    Outcome(b.(log := PushBatch(b.log, r.size, Timestamped(r, now))), NoError, true)
  }

  /** `InitProducerID`: a new producer, or the next epoch of a known one, whose window stays. */
  function Create(b: Broker, id: int): Broker {
    if id in b.producers then b.(producers := b.producers[id := b.producers[id].(epoch := b.producers[id].epoch + 1)])
    else b.(producers := b.producers[id := Producer(0, NewWindow)])
  }

  /** A new producer starts at epoch 0 and sequence number 0; a known one keeps its window and every other producer. */
  lemma CreateIs(b: Broker, id: int)
    ensures var b' := Create(b, id);
      b'.log == b.log && b'.producers.Keys == b.producers.Keys + {id} &&
      (forall k :: k in b.producers && k != id ==> b'.producers[k] == b.producers[k]) &&
      (id in b.producers ==> b'.producers[id] == Producer(b.producers[id].epoch + 1, b.producers[id].window)) &&
      (id !in b.producers ==>
        b'.producers[id].epoch == 0 && Validate(b'.producers[id].window, 0, 1).Accepted? &&
        forall first :: first > 0 ==> Validate(b'.producers[id].window, first, 1).OutOfOrder?)
  {
  }

  /** The epoch the handler compares with: that of the producer, or 0 for one it does not know. */
  function EpochOf(b: Broker, id: int): int { if id in b.producers then b.producers[id].epoch else 0 }

  /** Every reply, by what the batch and the broker are, and what changes with it. */
  lemma Verdicts(b: Broker, r: Incoming, now: int)
    requires forall id :: id in b.producers ==> Shaped(b.producers[id].window)
    ensures var o, id, epoch := Produce(b, r, now), r.batch.producerId, EpochOf(b, r.batch.producerId);
      (o.code == CorruptMessage <==> Corrupt(r)) &&
      (o.code == FencedLeaderEpoch <==> !Corrupt(r) && r.producerEpoch != -1 && r.producerEpoch < epoch) &&
      (o.code == UnknownLeaderEpoch <==> !Corrupt(r) && r.producerEpoch != -1 && r.producerEpoch > epoch) &&
      (o.code != NoError ==> o.b == b && !o.appended) &&
      (o.appended <==>
        !Corrupt(r) && r.producerEpoch in {-1, epoch} &&
        (id in b.producers ==> Validate(b.producers[id].window, r.batch.firstSequence, r.batch.numRecords).Accepted?)) &&
      (!o.appended ==> o.b == b) &&
      (o.appended ==> o.b.log.batches == b.log.batches + [StoredAs(r, now, b.log.highWatermark, b.log.epoch, b.log.maxTimestamp)]) &&
      (forall k :: k in b.producers ==> k in o.b.producers && o.b.producers[k].epoch == b.producers[k].epoch)
  {
    WellFormedIsNotCorrupt(r);
    if !Corrupt(r) { StoredIs(b.log, r, now); }
  }

  /** What the handler knows of the producer of a batch: nothing, or its epoch and window. */
  function Known(id: int, epoch: int, seqs: Option<Window>): map<int, Producer> {
    if seqs.Some? then map[id := Producer(epoch, seqs.value)] else map[]
  }

  /**
   One partition of a produce request. An unknown producer has no window, and
   its epoch is read as 0. The reply carries the offset at which the batch was
   stored, the log start before it and the append time if the log sets it, and
   the defaults of the reply if nothing was stored.
   */
  method ProducePartition(pd: PartData, seqs: PidSeqs?, epoch: int, r: Incoming, now: int)
      returns (code: Code, baseOffset: int, logAppendTime: int, logStartOffset: int)
    requires (seqs != null ==> seqs.Valid()) && (seqs == null ==> epoch == 0)
    modifies pd, seqs, if seqs != null then {seqs.seqs} else {}
    ensures (old(pd.Valid()) && r.batch.numRecords >= 1 ==> pd.Valid()) && (seqs != null ==> seqs.Valid())
    ensures
      var known := Known(r.batch.producerId, epoch, if seqs == null then None else Some(old(seqs.W())));
      var o := Produce(Broker(old(pd.L()), known), r, now);
      code == o.code && pd.L() == o.b.log &&
      (seqs != null ==> o.b.producers == map[r.batch.producerId := Producer(epoch, seqs.W())]) &&
      (o.appended ==> baseOffset == old(pd.highWatermark) && logStartOffset == old(pd.logStartOffset)) &&
      (o.appended ==> logAppendTime == if r.attributes / 8 % 2 == 1 then now else -1) &&
      (!o.appended ==> baseOffset == 0 && logAppendTime == -1 && logStartOffset == -1) &&
      (o.appended ==> pd.batches != [] && First(pd.batches[|pd.batches| - 1]) == baseOffset)
    ensures code == CorruptMessage <==> Corrupt(r)
    ensures code == FencedLeaderEpoch <==> !Corrupt(r) && r.producerEpoch != -1 && r.producerEpoch < epoch
    ensures code == UnknownLeaderEpoch <==> !Corrupt(r) && r.producerEpoch != -1 && r.producerEpoch > epoch
    ensures code != NoError ==>
      pd.L() == old(pd.L()) && (seqs != null ==> seqs.W() == old(seqs.W())) &&
      baseOffset == 0 && logAppendTime == -1 && logStartOffset == -1
    ensures |pd.batches| == |old(pd.batches)| ||
      (code == NoError && pd.batches == old(pd.batches) + [StoredAs(r, now, old(pd.highWatermark), old(pd.epoch), old(pd.maxTimestamp))])
  {
    WellFormedIsNotCorrupt(r);
    if !Corrupt(r) { StoredIs(pd.L(), r, now); }
    baseOffset, logAppendTime, logStartOffset := 0, -1, -1;
    if !WellFormedBatch(r) { return CorruptMessage, baseOffset, logAppendTime, logStartOffset; }
    if r.producerEpoch != -1 {
      if r.producerEpoch < epoch { return FencedLeaderEpoch, baseOffset, logAppendTime, logStartOffset; }
      if r.producerEpoch > epoch { return UnknownLeaderEpoch, baseOffset, logAppendTime, logStartOffset; }
    }
    if seqs != null {
      var ok, dup := seqs.PushAndValidate(r.batch.firstSequence, r.batch.numRecords);
      if !ok { return OutOfOrderSequenceNumber, baseOffset, logAppendTime, logStartOffset; }
      if dup { return NoError, baseOffset, logAppendTime, logStartOffset; }
    }
    baseOffset, logStartOffset := pd.highWatermark, pd.logStartOffset;
    if r.attributes / 8 % 2 == 1 { logAppendTime := now; }
    pd.PushBatch(r.size, Timestamped(r, now));
    code := NoError;
  }

  // ---------------------------------------------------------------------
  // Runs
  // ---------------------------------------------------------------------

  datatype Event =
    | ProduceEvent(r: Incoming, now: int) | CreateEvent(id: int) | DeleteEvent(offset: int) | LeaderEvent

  /** A broker, everything ever appended, and for each known producer how much was there when it was created. */
  datatype World = World(b: Broker, history: seq<PartBatch>, since: map<int, nat>)

  const Start := World(Broker(NewLog, map[]), [], map[])

  predicate Countable(e: Event) {
    e.ProduceEvent? ==> 1 <= e.r.batch.numRecords <= M
  }

  ghost function Advance(w: World, e: Event): World
    requires forall id :: id in w.b.producers ==> Shaped(w.b.producers[id].window)
  {
    match e
    case ProduceEvent(r, now) =>
      var o := Produce(w.b, r, now);
      World(o.b, if o.appended then w.history + [Stored(w.b.log, r.size, Timestamped(r, now))] else w.history, w.since)
    case CreateEvent(id) =>
      World(Create(w.b, id), w.history, if id in w.since then w.since else w.since[id := |w.history|])
    case DeleteEvent(offset) =>
      var l := DeleteRecords(w.b.log, offset);
      if l.Some? then w.(b := w.b.(log := l.value)) else w
    case LeaderEvent => w.(b := w.b.(log := ChangeLeader(w.b.log)))
  }

  /** What a producer has in these batches, in order. */
  function Of(bs: seq<PartBatch>, id: int): seq<Sent> {
    if bs == [] then [] else
    var rest, last := bs[..|bs| - 1], bs[|bs| - 1];
    if last.batch.producerId == id then Of(rest, id) + [Sent(last.batch.firstSequence, last.batch.numRecords)]
    else Of(rest, id)
  }

  /** The batches of a producer since it has been known. */
  function SentBy(w: World, id: int): seq<Sent>
    requires id in w.since && w.since[id] <= |w.history|
  {
    Of(w.history[w.since[id]..], id)
  }

  ghost predicate ProducerInv(w: World, id: int) {
    id in w.since && id in w.b.producers && w.since[id] <= |w.history| &&
    Remembers(w.b.producers[id].window, SentBy(w, id))
  }

  ghost predicate Inv(w: World) {
    LogInv(w.b.log, w.history) && w.since.Keys == w.b.producers.Keys &&
    forall id :: id in w.b.producers ==> ProducerInv(w, id)
  }

  lemma OfSnoc(bs: seq<PartBatch>, b: PartBatch, id: int)
    ensures Of(bs + [b], id) ==
            if b.batch.producerId == id then Of(bs, id) + [Sent(b.batch.firstSequence, b.batch.numRecords)] else Of(bs, id)
  {
    assert (bs + [b])[..|bs + [b]| - 1] == bs;
  }

  lemma SinceSnoc(w: World, b: PartBatch, id: int)
    requires id in w.since && w.since[id] <= |w.history|
    ensures Of((w.history + [b])[w.since[id]..], id) ==
            if b.batch.producerId == id then SentBy(w, id) + [Sent(b.batch.firstSequence, b.batch.numRecords)]
            else SentBy(w, id)
  {
    assert (w.history + [b])[w.since[id]..] == w.history[w.since[id]..] + [b];
    OfSnoc(w.history[w.since[id]..], b, id);
  }

  lemma AppendKeeps(w: World, r: Incoming, now: int)
    requires Inv(w) && WellFormedBatch(r) && 1 <= r.batch.numRecords <= M && Produce(w.b, r, now).appended
    ensures Inv(Advance(w, ProduceEvent(r, now)))
  {
    hide LogInv;
    var b := Timestamped(r, now);
    var stored := Stored(w.b.log, r.size, b);
    var w' := Advance(w, ProduceEvent(r, now));
    PartitionLog.PushInv(w.b.log, w.history, r.size, b);
    forall id | id in w'.b.producers ensures ProducerInv(w', id) {
      assert ProducerInv(w, id);
      SinceSnoc(w, stored, id);
      if id == r.batch.producerId {
        AcceptedContinues(w.b.producers[id].window, SentBy(w, id), r.batch.firstSequence, r.batch.numRecords);
      }
    }
  }

  lemma StepInv(w: World, e: Event)
    requires Inv(w) && Countable(e)
    ensures Inv(Advance(w, e))
  {
    match e
    case ProduceEvent(r, now) =>
      if Produce(w.b, r, now).appended { AppendKeeps(w, r, now); }
    case CreateEvent(id) => CreateKeeps(w, id);
    case DeleteEvent(offset) =>
      if DeleteRecords(w.b.log, offset).Some? {
        DeleteInv(w.b.log, w.history, offset);
        SameProducers(w, Advance(w, e));
      }
    case LeaderEvent =>
      LeaderInv(w.b.log, w.history);
      SameProducers(w, Advance(w, e));
  }

  lemma SameProducers(w: World, w': World)
    requires Inv(w) && w'.b.producers == w.b.producers && w'.history == w.history && w'.since == w.since
    ensures forall id :: id in w'.b.producers ==> ProducerInv(w', id)
  {
    forall id | id in w'.b.producers ensures ProducerInv(w', id) {
      assert ProducerInv(w, id);
    }
  }

  lemma CreateKeeps(w: World, id: int)
    requires Inv(w)
    ensures Inv(Advance(w, CreateEvent(id)))
  {
    var w' := Advance(w, CreateEvent(id));
    forall k | k in w'.b.producers ensures ProducerInv(w', k) {
      if k in w.b.producers { assert ProducerInv(w, k); } else { NewRemembers(); }
    }
  }

  ghost predicate IsRun(ws: seq<World>, es: seq<Event>) {
    |ws| == |es| + 1 && ws[0] == Start &&
    forall i :: 0 <= i < |es| ==> Countable(es[i]) && Goes(ws[i], es[i], ws[i + 1])
  }

  ghost predicate Goes(w: World, e: Event, w': World) {
    (forall id :: id in w.b.producers ==> Shaped(w.b.producers[id].window)) && w' == Advance(w, e)
  }

  lemma {:induction false} RunInv(ws: seq<World>, es: seq<Event>, i: nat)
    requires IsRun(ws, es) && i < |ws|
    ensures Inv(ws[i])
  {
    if i > 0 {
      RunInv(ws, es, i - 1);
      assert Goes(ws[i - 1], es[i - 1], ws[i]);
      StepInv(ws[i - 1], es[i - 1]);
    }
  }

  // ---------------------------------------------------------------------
  // Runs with batches of any number of records
  // ---------------------------------------------------------------------

  ghost predicate AnyRun(ws: seq<World>, es: seq<Event>) {
    |ws| == |es| + 1 && ws[0] == Start && forall i :: 0 <= i < |es| ==> Goes(ws[i], es[i], ws[i + 1])
  }

  ghost predicate ChainInv(w: World, id: int) {
    id in w.since && id in w.b.producers && w.since[id] <= |w.history| &&
    Follows(w.b.producers[id].window, SentBy(w, id))
  }

  ghost predicate ChainsInv(w: World) {
    w.since.Keys == w.b.producers.Keys && forall id :: id in w.b.producers ==> ChainInv(w, id)
  }

  lemma ProduceChains(w: World, r: Incoming, now: int)
    requires ChainsInv(w) && Goes(w, ProduceEvent(r, now), Advance(w, ProduceEvent(r, now)))
    ensures ChainsInv(Advance(w, ProduceEvent(r, now)))
  {
    hide Follows, IsDuplicate, Of;
    var w' := Advance(w, ProduceEvent(r, now));
    forall id | id in w'.b.producers ensures ChainInv(w', id) {
      assert ChainInv(w, id);
      if Produce(w.b, r, now).appended {
        SinceSnoc(w, Stored(w.b.log, r.size, Timestamped(r, now)), id);
        if id == r.batch.producerId {
          AcceptedFollows(w.b.producers[id].window, SentBy(w, id), r.batch.firstSequence, r.batch.numRecords);
        }
      }
    }
  }

  lemma StepChains(w: World, e: Event, w': World)
    requires ChainsInv(w) && Goes(w, e, w')
    ensures ChainsInv(w')
  {
    match e
    case ProduceEvent(r, now) => ProduceChains(w, r, now);
    case CreateEvent(id) =>
      forall k | k in w'.b.producers ensures ChainInv(w', k) {
        if k in w.b.producers { assert ChainInv(w, k); }
      }
    case DeleteEvent(_) => SameChains(w, w');
    case LeaderEvent => SameChains(w, w');
  }

  lemma SameChains(w: World, w': World)
    requires ChainsInv(w) && w'.b.producers == w.b.producers && w'.history == w.history && w'.since == w.since
    ensures ChainsInv(w')
  {
    forall id | id in w'.b.producers ensures ChainInv(w', id) {
      assert ChainInv(w, id);
    }
  }

  lemma {:induction false} RunChains(ws: seq<World>, es: seq<Event>, i: nat)
    requires AnyRun(ws, es) && i < |ws|
    ensures ChainsInv(ws[i])
  {
    if i > 0 {
      RunChains(ws, es, i - 1);
      StepChains(ws[i - 1], es[i - 1], ws[i]);
    }
  }

  lemma EpochStep(w: World, e: Event, w': World, id: int)
    requires Goes(w, e, w') && id in w.b.producers
    ensures id in w'.b.producers && w'.b.producers[id].epoch == w.b.producers[id].epoch + if e == CreateEvent(id) then 1 else 0
  {
    if e.ProduceEvent? { Verdicts(w.b, e.r, e.now); }
  }

  lemma {:induction false} EpochsGrow(ws: seq<World>, es: seq<Event>, i: nat, j: nat, id: int)
    requires AnyRun(ws, es) && i <= j < |ws| && id in ws[i].b.producers
    ensures id in ws[j].b.producers && ws[j].b.producers[id].epoch >= ws[i].b.producers[id].epoch
  {
    if i < j {
      EpochsGrow(ws, es, i, j - 1, id);
      EpochStep(ws[j - 1], es[j - 1], ws[j], id);
    }
  }

  /** Once a known producer has been given its next epoch, nothing that carries an earlier one is ever appended. */
  lemma FencedForever(ws: seq<World>, es: seq<Event>, i: nat, j: nat, id: int)
    requires AnyRun(ws, es) && i < j < |es| && es[i] == CreateEvent(id) && id in ws[i].b.producers
    requires es[j].ProduceEvent? && es[j].r.batch.producerId == id && es[j].r.producerEpoch != -1
    requires es[j].r.producerEpoch <= ws[i].b.producers[id].epoch
    ensures ws[j + 1] == ws[j]
    ensures Goes(ws[j], es[j], ws[j + 1]) && Produce(ws[j].b, es[j].r, es[j].now).code in {CorruptMessage, FencedLeaderEpoch}
  {
    EpochStep(ws[i], es[i], ws[i + 1], id);
    EpochsGrow(ws, es, i + 1, j, id);
    assert Goes(ws[j], es[j], ws[j + 1]);
    Verdicts(ws[j].b, es[j].r, es[j].now);
  }

  /**
   In every run, with batches that claim any number of records, what the log was
   given by a producer since it is known is one chain: each batch starts where
   the one before it ended. It is gapless where every batch has a record.
   */
  lemma ChainedOnce(ws: seq<World>, es: seq<Event>, i: nat, id: int)
    requires AnyRun(ws, es) && i < |ws| && id in ws[i].since
    ensures ws[i].since[id] <= |ws[i].history| && Chained(SentBy(ws[i], id))
    ensures Counts(SentBy(ws[i], id)) ==> Gapless(SentBy(ws[i], id))
  {
    RunChains(ws, es, i);
    assert ChainInv(ws[i], id);
    var h := SentBy(ws[i], id);
    if Counts(h) { ChainedIsGapless(h, |h|); }
  }

  /**
   In every run, what the log was given by a producer since it is known is one
   gapless chain of sequence numbers: no batch is missing and none is there twice.
   */
  lemma ExactlyOnce(ws: seq<World>, es: seq<Event>, i: nat, id: int)
    requires IsRun(ws, es) && i < |ws| && id in ws[i].since
    ensures ws[i].since[id] <= |ws[i].history| && Gapless(SentBy(ws[i], id))
    ensures LogInv(ws[i].b.log, ws[i].history)
  {
    RunInv(ws, es, i);
    assert ProducerInv(ws[i], id);
  }

  /**
   A retry of one of the last four batches succeeds without appending, and the
   next fresh batch is appended, as long as five batches in a row hold fewer
   records than there are sequence numbers.
   */
  lemma RetriesAndProgress(ws: seq<World>, es: seq<Event>, i: nat, r: Incoming, now: int)
    requires IsRun(ws, es) && i < |ws| && WellFormedBatch(r) && r.batch.numRecords >= 1
    requires r.batch.producerId in ws[i].since && ws[i].since[r.batch.producerId] <= |ws[i].history|
    requires r.batch.producerId in ws[i].b.producers
    requires r.producerEpoch == -1 || r.producerEpoch == ws[i].b.producers[r.batch.producerId].epoch
    requires forall id :: id in ws[i].b.producers ==> Shaped(ws[i].b.producers[id].window)
    requires var h := SentBy(ws[i], r.batch.producerId);
      Total(h, |h|) - Total(h, |h| - 4) + r.batch.numRecords < M
    ensures
      var h, x := SentBy(ws[i], r.batch.producerId), Sent(r.batch.firstSequence, r.batch.numRecords);
      var o := Produce(ws[i].b, r, now);
      (o.code == NoError && !o.appended <==> Recent(h, x)) &&
      (o.appended <==> r.batch.firstSequence == Boundary(h, |h|))
  {
    RunInv(ws, es, i);
    var id := r.batch.producerId;
    assert ProducerInv(ws[i], id);
    var h := SentBy(ws[i], id);
    DuplicateIffRecent(ws[i].b.producers[id].window, h, r.batch.firstSequence, r.batch.numRecords);
    FreshIsAccepted(ws[i].b.producers[id].window, h, r.batch.firstSequence, r.batch.numRecords);
  }

  /**
   The handler does not check that a batch has records: one that claims fewer
   than none passes every check and moves the high watermark back.
   */
  lemma NegativeBatchPasses(l: Log, now: int)
    ensures
      var r := Incoming(RecordBatch(0, -2, -1, 0, -1, -1, -1), 49, 61, 2, true, 0, -1);
      var o := Produce(Broker(l, map[]), r, now);
      o.appended && o.b.log.highWatermark == l.highWatermark - 1
  {
  }
}
