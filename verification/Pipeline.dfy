/**
 The request pipeline of `pkg/kgo/broker.go`: a ring of requests drained by one
 worker that writes to connections, and for each connection a ring of awaited
 responses drained by a worker of its own.

 A step is one mutex section, one atomic operation or one call of a promise, and
 steps of different goroutines interleave freely.
 */
module Pipeline {
  import opened Wrappers
  import opened Rings
  import opened RingProtocol

  /** A written request that awaits its response. */
  datatype Pending = Pending(id: nat, corr: int)

  /** How far the request worker is with a request it handles live. */
  datatype Stage = Start | Loaded(conn: nat) | Written(conn: nat, corr: int) | TurnedAway

  /**
   A connection. `wire` holds the correlation IDs of the responses that the
   broker will send, in the order of the requests it got. `dying` is the atomic
   flag that every caller of `die` swaps; the one who swapped it first closes
   the connection and then marks the ring dead, and all others return at once.
   Of the connection's own worker, `killing` says that it is about to call
   `die`, and `finishing` that it was first and has not returned yet.
   `writeFailed` and `readFailed` record what has happened, and `lost` that a
   `die` of the worker's was not the first while the ring was still alive.
   */
  datatype Conn = Conn(
    drain: Drain<Pending>, nextCorr: int, wire: seq<int>, dying: bool, closed: bool, killing: bool, finishing: bool,
    writeFailed: bool, readFailed: bool, lost: bool)

  /** Who still has to call a request's promise. */
  datatype Place = AtPusher | InRequests | InResponses(conn: nat) | Answered

  /**
   `refused` are the pushers that were told that the ring is dead, `called` the
   promises called so far, `killing` is the connection that the request worker
   is about to kill, and `finishing` the one it is killing. `place` only records
   where every request is.
   */
  datatype Sys = Sys(
    reqs: Drain<nat>, stage: Stage, killing: Option<nat>, finishing: Option<nat>, conns: map<nat, Conn>,
    refused: set<nat>, called: seq<nat>, place: map<nat, Place>)

  const Boot := Sys(NewDrain(), Start, None, None, map[], {}, [], map[])

  datatype Action =
    | Do(id: nat) | PusherFails(id: nat) | BrokerDies
    | RequestFails | DeadRequestFails | Load(conn: nat) | Connect(conn: nat, corr: int)
    | WriteFails(delivered: bool) | WriteWithoutReply | Write | AwaitResponse | TurnedAwayFails | KillAfterWrite | NextRequest
    | Mark(conn: nat) | Close(conn: nat) | RingDies(conn: nat)
    | Receive(conn: nat) | Mismatch(conn: nat) | ReadFails(conn: nat, wire: seq<int>) | DeadResponseFails(conn: nat)
    | KillAfterRead(conn: nat) | NextResponse(conn: nat)

  function NextCorr(corr: int): int { if corr == 0x7fff_ffff then 0 else corr + 1 }

  /** The connection's worker is reading the response of its front element. */
  predicate Reading(s: Sys, c: nat) {
    c in s.conns && s.conns[c].drain.phase == Live && s.conns[c].drain.queue.items != []
  }

  predicate Enabled(s: Sys, a: Action) {
    var live := s.reqs.phase == Live && s.reqs.queue.items != [];
    match a
    case Do(id) => id !in s.place
    case PusherFails(id) => id in s.refused
    case BrokerDies => true
    case RequestFails => live && (s.stage == Start || s.stage.Loaded?)
    case DeadRequestFails => s.reqs.phase == Failing && s.reqs.queue.items != []
    case Load(c) => live && s.stage == Start && c in s.conns && !s.conns[c].dying
    case Connect(c, corr) => live && s.stage == Start && c !in s.conns
    case WriteFails(delivered) =>
      live && s.stage.Loaded? && s.stage.conn in s.conns && (delivered ==> !s.conns[s.stage.conn].closed)
    case WriteWithoutReply => live && s.stage.Loaded? && s.stage.conn in s.conns && !s.conns[s.stage.conn].closed
    case Write => live && s.stage.Loaded? && s.stage.conn in s.conns && !s.conns[s.stage.conn].closed
    case AwaitResponse => live && s.stage.Written? && s.stage.conn in s.conns
    case TurnedAwayFails => live && s.stage == TurnedAway
    case KillAfterWrite => s.killing.Some? && s.killing.value in s.conns
    case NextRequest =>
      s.reqs.phase == Finished && s.reqs.queue.items != [] && s.killing.None? && s.finishing.None?
    case Mark(c) => c in s.conns && !s.conns[c].dying
    case Close(c) => c in s.conns && s.conns[c].dying && !s.conns[c].closed
    case RingDies(c) => c in s.conns && s.conns[c].closed && !s.conns[c].drain.queue.dead
    case Receive(c) =>
      Reading(s, c) && !s.conns[c].closed && s.conns[c].wire != [] && s.conns[c].wire[0] == s.conns[c].drain.queue.items[0].corr
    case Mismatch(c) =>
      Reading(s, c) && !s.conns[c].closed && s.conns[c].wire != [] && s.conns[c].wire[0] != s.conns[c].drain.queue.items[0].corr
    case ReadFails(c, _) => Reading(s, c)
    case DeadResponseFails(c) =>
      c in s.conns && s.conns[c].drain.phase == Failing && s.conns[c].drain.queue.items != []
    case KillAfterRead(c) => c in s.conns && s.conns[c].killing
    case NextResponse(c) =>
      c in s.conns && s.conns[c].drain.phase == Finished && s.conns[c].drain.queue.items != [] &&
      !s.conns[c].killing && !s.conns[c].finishing
  }

  function NewConn(corr: int): Conn { Conn(NewDrain(), corr, [], false, false, false, false, false, false, false) }

  function SetConn(s: Sys, c: nat, conn: Conn): Sys { s.(conns := s.conns[c := conn]) }

  /** The front request's promise is called, and the request worker is done with it. */
  function AnswerRequest(s: Sys): Sys
    requires (s.reqs.phase == Live || s.reqs.phase == Failing) && s.reqs.queue.items != []
  {
    var id := s.reqs.queue.items[0];
    s.(reqs := DisposeStep(s.reqs), stage := Start, called := s.called + [id], place := s.place[id := Answered])
  }

  function AnswerResponse(s: Sys, c: nat, conn: Conn): Sys
    requires (conn.drain.phase == Live || conn.drain.phase == Failing) && conn.drain.queue.items != []
  {
    var id := conn.drain.queue.items[0].id;
    SetConn(s, c, conn.(drain := DisposeStep(conn.drain)))
      .(called := s.called + [id], place := s.place[id := Answered])
  }

  function Step(s: Sys, a: Action): Sys
    requires Enabled(s, a)
  {
    match a
    case Do(id) =>
      if s.reqs.queue.dead then s.(refused := s.refused + {id}, place := s.place[id := AtPusher])
      else s.(reqs := PushStep(s.reqs, id), place := s.place[id := InRequests])
    case PusherFails(id) =>
      s.(refused := s.refused - {id}, called := s.called + [id], place := s.place[id := Answered])
    case BrokerDies => s.(reqs := DieStep(s.reqs))
    case RequestFails => AnswerRequest(s)
    case DeadRequestFails => AnswerRequest(s)
    case Load(c) => s.(stage := Loaded(c))
    case Connect(c, corr) => SetConn(s, c, NewConn(corr)).(stage := Loaded(c))
    case WriteFails(delivered) =>
      var conn := s.conns[s.stage.conn];
      var wire := if delivered then conn.wire + [conn.nextCorr] else conn.wire;
      SetConn(AnswerRequest(s), s.stage.conn, conn.(wire := wire, writeFailed := true))
        .(killing := Some(s.stage.conn))
    case WriteWithoutReply =>
      var conn := s.conns[s.stage.conn];
      SetConn(AnswerRequest(s), s.stage.conn, conn.(nextCorr := NextCorr(conn.nextCorr)))
    case Write =>
      var conn := s.conns[s.stage.conn];
      SetConn(s, s.stage.conn, conn.(nextCorr := NextCorr(conn.nextCorr), wire := conn.wire + [conn.nextCorr]))
        .(stage := Written(s.stage.conn, conn.nextCorr))
    case AwaitResponse => Await(s)
    case TurnedAwayFails => AnswerRequest(s)
    case KillAfterWrite =>
      var c := s.killing.value;
      SetConn(s, c, s.conns[c].(dying := true))
        .(killing := None, finishing := if s.conns[c].dying then s.finishing else Some(c))
    case NextRequest => s.(reqs := DropStep(s.reqs))
    case Mark(c) => SetConn(s, c, s.conns[c].(dying := true))
    case Close(c) => SetConn(s, c, s.conns[c].(closed := true))
    case RingDies(c) =>
      SetConn(s, c, s.conns[c].(drain := DieStep(s.conns[c].drain), finishing := false))
        .(finishing := if s.finishing == Some(c) then None else s.finishing)
    case Receive(c) => AnswerResponse(s, c, s.conns[c].(wire := s.conns[c].wire[1..]))
    case Mismatch(c) => AnswerResponse(s, c, s.conns[c].(wire := s.conns[c].wire[1..], readFailed := true, killing := true))
    case ReadFails(c, wire) => AnswerResponse(s, c, s.conns[c].(wire := wire, readFailed := true, killing := true))
    case DeadResponseFails(c) => AnswerResponse(s, c, s.conns[c])
    case KillAfterRead(c) => SetConn(s, c, Swapped(s.conns[c]))
    case NextResponse(c) => SetConn(s, c, s.conns[c].(drain := DropStep(s.conns[c].drain)))
  }

  /** The connection's worker swaps the flag: it is the first and goes on to close, or it returns. */
  function Swapped(conn: Conn): Conn {
    if conn.dying then conn.(killing := false, lost := conn.lost || !conn.drain.queue.dead)
    else conn.(dying := true, killing := false, finishing := true)
  }

  /** A written request joins its connection's ring and the request worker is done with it, or it is turned away. */
  function Await(s: Sys): Sys
    requires s.reqs.phase == Live && s.reqs.queue.items != [] && s.stage.Written? && s.stage.conn in s.conns
  {
    var c, conn := s.stage.conn, s.conns[s.stage.conn];
    var id := s.reqs.queue.items[0];
    if conn.drain.queue.dead then s.(stage := TurnedAway)
    else SetConn(s, c, conn.(drain := PushStep(conn.drain, Pending(id, s.stage.corr))))
      .(reqs := DisposeStep(s.reqs), stage := Start, place := s.place[id := InResponses(c)])
  }

  ghost predicate IsRun(ss: seq<Sys>, actions: seq<Action>) {
    |ss| == |actions| + 1 && ss[0] == Boot &&
    forall i :: 0 <= i < |actions| ==> Enabled(ss[i], actions[i]) && ss[i + 1] == Step(ss[i], actions[i])
  }

  // ---------------------------------------------------------------------
  // The invariant
  // ---------------------------------------------------------------------

  ghost predicate NoRepeats(xs: seq<nat>) { forall i, j :: 0 <= i < j < |xs| ==> xs[i] != xs[j] }

  /** `xs` lists the requests that are at `p`, each once. */
  ghost predicate Lists(xs: seq<nat>, place: map<nat, Place>, p: Place) {
    NoRepeats(xs) && forall id :: id in xs <==> id in place && place[id] == p
  }

  function Ids(ps: seq<Pending>): (ids: seq<nat>)
    ensures |ids| == |ps|
  {
    seq(|ps|, i requires 0 <= i < |ps| => ps[i].id)
  }

  function Corrs(ps: seq<Pending>): (cs: seq<int>)
    ensures |cs| == |ps|
  {
    seq(|ps|, i requires 0 <= i < |ps| => ps[i].corr)
  }

  ghost predicate Located(s: Sys) {
    (forall id :: id in s.refused <==> id in s.place && s.place[id] == AtPusher) &&
    Lists(Outstanding(s.reqs), s.place, InRequests) &&
    ConnsList(s.conns, s.place) &&
    Lists(s.called, s.place, Answered) &&
    AtConns(s.place, s.conns.Keys)
  }

  /** Requests only wait for responses of connections that exist. */
  ghost predicate AtConns(place: map<nat, Place>, conns: set<nat>) {
    forall id :: id in place && place[id].InResponses? ==> place[id].conn in conns
  }

  /** The correlation IDs of requests written to `c` that have not reached its ring: at most one. */
  function InFlight(s: Sys, c: nat): seq<int> {
    if s.stage.Written? && s.stage.conn == c then [s.stage.corr] else []
  }

  /**
   As long as no read has failed, the responses to come begin with those that
   the ring awaits, in its order; once the ring is dead this matters for its
   front only. Nothing else is to come unless a failed write arrived after all.
   */
  ghost predicate Matched(conn: Conn, inFlight: seq<int>) {
    var awaited := Corrs(Outstanding(conn.drain)) + inFlight;
    !conn.readFailed ==>
      (!conn.drain.queue.dead ==> awaited <= conn.wire && (!conn.writeFailed ==> awaited == conn.wire)) &&
      (conn.drain.queue.dead && conn.drain.phase == Live && conn.drain.queue.items != [] ==>
        conn.wire != [] && conn.wire[0] == conn.drain.queue.items[0].corr)
  }

  /** The request worker has loaded, or written to, connection `c`. */
  predicate Using(s: Sys, c: nat) { (s.stage.Loaded? || s.stage.Written?) && s.stage.conn == c }

  /** A connection whose write failed is not written to again. */
  ghost predicate Retired(s: Sys, c: nat)
    requires c in s.conns
  {
    s.conns[c].writeFailed ==> (s.conns[c].dying || s.killing == Some(c)) && !Using(s, c)
  }

  /**
   The order of a death: first the flag, then the connection, then the ring. A
   worker whose read failed is on its way through `die`, or has seen to it that
   the ring is dead and reads no more, or was not the first with the ring alive.
   */
  ghost predicate KillInv(conn: Conn) {
    (conn.closed ==> conn.dying) && (conn.drain.queue.dead ==> conn.closed) &&
    (conn.killing || conn.finishing ==> conn.drain.phase == Finished) &&
    (conn.finishing ==> conn.dying && !conn.drain.queue.dead && !conn.killing) &&
    (conn.readFailed ==>
      conn.lost || conn.killing || conn.finishing || (conn.drain.queue.dead && conn.drain.phase != Live))
  }

  ghost predicate ConnInv(s: Sys, c: nat)
    requires c in s.conns
  {
    DrainInv(s.conns[c].drain) && Matched(s.conns[c], InFlight(s, c)) && Retired(s, c) && KillInv(s.conns[c])
  }

  ghost predicate Inv(s: Sys) {
    DrainInv(s.reqs) && (s.reqs.phase != Live ==> s.stage == Start) &&
    (s.stage.Loaded? || s.stage.Written? ==> s.stage.conn in s.conns) &&
    (s.killing.Some? ==> s.killing.value in s.conns && s.reqs.phase == Finished) &&
    (s.finishing.Some? ==> s.reqs.phase == Finished) &&
    Located(s) && forall c :: c in s.conns ==> ConnInv(s, c)
  }

  // ---------------------------------------------------------------------
  // Moving a request
  // ---------------------------------------------------------------------

  lemma ListsArrive(xs: seq<nat>, place: map<nat, Place>, id: nat, p: Place)
    requires Lists(xs, place, p) && id !in xs
    ensures Lists(xs + [id], place[id := p], p)
  {
  }

  lemma ListsElsewhere(xs: seq<nat>, place: map<nat, Place>, id: nat, p: Place, q: Place)
    requires Lists(xs, place, p) && id !in xs && q != p
    ensures Lists(xs, place[id := q], p)
  {
  }

  lemma ListsLeave(xs: seq<nat>, place: map<nat, Place>, id: nat, p: Place, q: Place, rest: seq<nat>)
    requires Lists(xs, place, p) && xs == [id] + rest && q != p
    ensures Lists(rest, place[id := q], p) && place[id] == p
  {
    assert xs[0] == id && id in xs;
    assert xs[1..] == rest;
    forall i | 0 <= i < |rest| ensures rest[i] == xs[i + 1] != id {
    }
    forall x | x in xs && x != id ensures x in rest {
      var i :| 0 <= i < |xs| && xs[i] == x;
      assert rest[i - 1] == x;
    }
    assert forall x :: x in rest <==> x in xs && x != id;
  }

  ghost predicate ConnsList(conns: map<nat, Conn>, place: map<nat, Place>) {
    forall c :: c in conns ==> Lists(Ids(Outstanding(conns[c].drain)), place, InResponses(c))
  }

  ghost predicate OthersList(conns: map<nat, Conn>, place: map<nat, Place>, c: nat) {
    forall k :: k in conns && k != c ==> Lists(Ids(Outstanding(conns[k].drain)), place, InResponses(k))
  }

  lemma OneConnLists(conns: map<nat, Conn>, place: map<nat, Place>, c: nat, conn: Conn)
    requires c in conns && Lists(Ids(Outstanding(conn.drain)), place, InResponses(c)) && OthersList(conns, place, c)
    ensures ConnsList(conns[c := conn], place) && conns[c := conn].Keys == conns.Keys
  {
  }

  /** A move that concerns no connection, or only `c`. */
  lemma ConnsUnmoved(conns: map<nat, Conn>, place: map<nat, Place>, id: nat, to: Place, c: nat)
    requires ConnsList(conns, place) && (id in place ==> place[id].InResponses? ==> place[id] == InResponses(c))
    requires to.InResponses? ==> to == InResponses(c)
    ensures OthersList(conns, place[id := to], c)
    ensures !to.InResponses? && !(id in place && place[id].InResponses?) ==> ConnsList(conns, place[id := to])
  {
    forall k | k in conns && to != InResponses(k) && !(id in place && place[id] == InResponses(k))
      ensures Lists(Ids(Outstanding(conns[k].drain)), place[id := to], InResponses(k))
    {
      ListsElsewhere(Ids(Outstanding(conns[k].drain)), place, id, InResponses(k), to);
    }
  }

  /** The other lists that a move does not concern. */
  lemma OthersStay(s: Sys, id: nat, from: Option<Place>, to: Place)
    requires Located(s) && (if from.None? then id !in s.place else id in s.place && s.place[id] == from.value)
    requires to.InResponses? ==> to.conn in s.conns
    ensures from != Some(InRequests) && to != InRequests ==> Lists(Outstanding(s.reqs), s.place[id := to], InRequests)
    ensures from != Some(Answered) && to != Answered ==> Lists(s.called, s.place[id := to], Answered)
    ensures AtConns(s.place[id := to], s.conns.Keys)
  {
    if from != Some(InRequests) && to != InRequests {
      ListsElsewhere(Outstanding(s.reqs), s.place, id, InRequests, to);
    }
    if from != Some(Answered) && to != Answered { ListsElsewhere(s.called, s.place, id, Answered, to); }
  }

  lemma DoInv(s: Sys, id: nat)
    requires Inv(s) && id !in s.place
    ensures Inv(Step(s, Do(id)))
  {
    PushInv(s.reqs, id);
    if s.reqs.queue.dead { DoRefused(s, id); } else { DoAccepted(s, id); }
    SameConns(s, Step(s, Do(id)));
  }

  lemma DoRefused(s: Sys, id: nat)
    requires Located(s) && id !in s.place
    ensures Located(s.(refused := s.refused + {id}, place := s.place[id := AtPusher]))
  {
    ConnsUnmoved(s.conns, s.place, id, AtPusher, 0);
    OthersStay(s, id, None, AtPusher);
  }

  lemma DoAccepted(s: Sys, id: nat)
    requires Located(s) && DrainInv(s.reqs) && !s.reqs.queue.dead && id !in s.place
    ensures Located(s.(reqs := PushStep(s.reqs, id), place := s.place[id := InRequests]))
  {
    PushInv(s.reqs, id);
    ConnsUnmoved(s.conns, s.place, id, InRequests, 0);
    OthersStay(s, id, None, InRequests);
    ListsArrive(Outstanding(s.reqs), s.place, id, InRequests);
  }

  /** Connections do not notice a step that leaves them and the request worker's use of them alone. */
  lemma SameConns(s: Sys, s': Sys)
    requires forall c :: c in s.conns ==> ConnInv(s, c)
    requires s'.conns == s.conns && s'.stage == s.stage && s'.killing == s.killing
    ensures forall c :: c in s'.conns ==> ConnInv(s', c)
  {
    forall c | c in s'.conns ensures ConnInv(s', c) {
      assert ConnInv(s, c);
    }
  }

  lemma PusherFailsInv(s: Sys, id: nat)
    requires Inv(s) && id in s.refused
    ensures Inv(Step(s, PusherFails(id)))
  {
    OthersStay(s, id, Some(AtPusher), Answered);
    ConnsUnmoved(s.conns, s.place, id, Answered, 0);
    ListsArrive(s.called, s.place, id, Answered);
    SameConns(s, Step(s, PusherFails(id)));
  }

  lemma AnswerRequestLocated(s: Sys)
    requires DrainInv(s.reqs) && Located(s) && (s.reqs.phase == Live || s.reqs.phase == Failing)
    ensures s.reqs.queue.items != []
    ensures DrainInv(AnswerRequest(s).reqs) && Located(AnswerRequest(s))
  {
    DisposeInv(s.reqs);
    var id := s.reqs.queue.items[0];
    ListsLeave(Outstanding(s.reqs), s.place, id, InRequests, Answered, Outstanding(DisposeStep(s.reqs)));
    OthersStay(s, id, Some(InRequests), Answered);
    ConnsUnmoved(s.conns, s.place, id, Answered, 0);
    ListsArrive(s.called, s.place, id, Answered);
  }

  // ---------------------------------------------------------------------
  // The request worker
  // ---------------------------------------------------------------------

  /** The request worker lets go of a connection it has not written to. */
  lemma ReleasedConns(s: Sys, s': Sys)
    requires forall c :: c in s.conns ==> ConnInv(s, c)
    requires s'.conns == s.conns && s'.stage == Start && !s.stage.Written? && s'.killing == s.killing
    ensures forall c :: c in s'.conns ==> ConnInv(s', c)
  {
    forall c | c in s'.conns ensures ConnInv(s', c) {
      assert ConnInv(s, c) && InFlight(s, c) == InFlight(s', c) == [];
    }
  }

  lemma AnswerRequestInv(s: Sys)
    requires Inv(s) && (s.reqs.phase == Live || s.reqs.phase == Failing) && !s.stage.Written?
    ensures s.reqs.queue.items != [] && Inv(AnswerRequest(s))
  {
    AnswerRequestLocated(s);
    ReleasedConns(s, AnswerRequest(s));
  }

  /** One connection changes and stays good; the others are not affected. */
  lemma OneConn(s: Sys, c: nat, conn: Conn, s': Sys)
    requires forall k :: k in s.conns ==> ConnInv(s, k)
    requires s'.conns == s.conns[c := conn] && ConnInv(s', c)
    requires forall k :: k in s.conns && k != c ==> InFlight(s', k) == InFlight(s, k) && (Using(s', k) ==> Using(s, k))
    requires forall k :: k in s.conns && k != c && s.killing == Some(k) ==> s'.killing == Some(k)
    ensures forall k :: k in s'.conns ==> ConnInv(s', k)
  {
    forall k | k in s'.conns ensures ConnInv(s', k) {
      if k != c { assert ConnInv(s, k); }
    }
  }

  /** A connection's outstanding requests are what it lists, so a change elsewhere in it does not matter. */
  lemma SameOutstanding(s: Sys, s': Sys, c: nat, conn: Conn)
    requires Located(s) && c in s.conns && Outstanding(conn.drain) == Outstanding(s.conns[c].drain)
    requires s' == SetConn(s, c, conn).(stage := s'.stage, killing := s'.killing, finishing := s'.finishing)
    ensures Located(s')
  {
    forall k | k in s'.conns ensures Lists(Ids(Outstanding(s'.conns[k].drain)), s'.place, InResponses(k)) {
      if k == c { assert Ids(Outstanding(conn.drain)) == Ids(Outstanding(s.conns[c].drain)); }
    }
    assert s'.conns.Keys == s.conns.Keys;
  }

  lemma LoadInv(s: Sys, c: nat)
    requires Inv(s) && Enabled(s, Load(c))
    ensures Inv(Step(s, Load(c)))
  {
    var s' := Step(s, Load(c));
    forall k | k in s'.conns ensures ConnInv(s', k) {
      assert ConnInv(s, k) && InFlight(s', k) == InFlight(s, k);
    }
  }

  lemma NobodyAt(place: map<nat, Place>, conns: set<nat>, c: nat)
    requires AtConns(place, conns) && c !in conns
    ensures Lists([], place, InResponses(c))
  {
  }

  lemma ConnectLocated(s: Sys, c: nat, conn: Conn, s': Sys)
    requires Located(s) && c !in s.conns && conn.drain == NewDrain()
    requires s' == SetConn(s, c, conn).(stage := s'.stage)
    ensures Located(s')
  {
    NobodyAt(s.place, s.conns.Keys, c);
    assert Ids(Outstanding(conn.drain)) == [];
  }

  lemma ConnectInv(s: Sys, c: nat, corr: int)
    requires Inv(s) && Enabled(s, Connect(c, corr))
    ensures Inv(Step(s, Connect(c, corr)))
  {
    var s' := Step(s, Connect(c, corr));
    var conn := s'.conns[c];
    assert InFlight(s', c) == [] && Corrs(Outstanding(conn.drain)) == [];
    OneConn(s, c, conn, s');
    ConnectLocated(s, c, conn, s');
  }

  lemma WriteConn(conn: Conn)
    requires Matched(conn, []) && !conn.writeFailed
    ensures Matched(conn.(nextCorr := NextCorr(conn.nextCorr), wire := conn.wire + [conn.nextCorr]), [conn.nextCorr])
    ensures Matched(conn.(wire := conn.wire + [conn.nextCorr], writeFailed := true), [])
    ensures Matched(conn.(writeFailed := true), []) && Matched(conn.(nextCorr := NextCorr(conn.nextCorr)), [])
  {
    assert Corrs(Outstanding(conn.drain)) + [] == Corrs(Outstanding(conn.drain));
  }

  lemma WriteInv(s: Sys)
    requires Inv(s) && Enabled(s, Write)
    ensures Inv(Step(s, Write))
  {
    var c := s.stage.conn;
    var s' := Step(s, Write);
    assert ConnInv(s, c) && InFlight(s, c) == [];
    WriteConn(s.conns[c]);
    OneConn(s, c, s'.conns[c], s');
    SameOutstanding(s, s', c, s'.conns[c]);
  }

  lemma WriteEndsInv(s: Sys, a: Action)
    requires Inv(s) && Enabled(s, a) && (a.WriteFails? || a.WriteWithoutReply?)
    ensures Inv(Step(s, a))
  {
    var c := s.stage.conn;
    var s1 := AnswerRequest(s);
    AnswerRequestInv(s);
    assert ConnInv(s, c) && ConnInv(s1, c) && InFlight(s1, c) == [];
    WriteConn(s.conns[c]);
    var s' := Step(s, a);
    OneConn(s1, c, s'.conns[c], s');
    SameOutstanding(s1, s', c, s'.conns[c]);
  }

  lemma AwaitConn(conn: Conn, p: Pending)
    requires DrainInv(conn.drain) && Matched(conn, [p.corr]) && !conn.drain.queue.dead
    ensures Matched(conn.(drain := PushStep(conn.drain, p)), [])
    ensures Ids(Outstanding(PushStep(conn.drain, p))) == Ids(Outstanding(conn.drain)) + [p.id]
  {
    PushInv(conn.drain, p);
    assert Corrs(Outstanding(conn.drain) + [p]) == Corrs(Outstanding(conn.drain)) + [p.corr];
    assert Corrs(Outstanding(conn.drain) + [p]) + [] == Corrs(Outstanding(conn.drain) + [p]);
  }

  lemma AwaitInv(s: Sys)
    requires Inv(s) && Enabled(s, AwaitResponse) && !s.conns[s.stage.conn].drain.queue.dead
    ensures Inv(Await(s))
  {
    var c, conn := s.stage.conn, s.conns[s.stage.conn];
    var id := s.reqs.queue.items[0];
    var p := Pending(id, s.stage.corr);
    assert ConnInv(s, c) && InFlight(s, c) == [s.stage.corr];
    AwaitConn(conn, p);
    PushInv(conn.drain, p);
    var s' := Await(s);
    OneConn(s, c, s'.conns[c], s');
    AwaitLocated(s);
  }

  lemma AwaitIds(d: Drain<Pending>, p: Pending)
    requires DrainInv(d) && !d.queue.dead
    ensures Ids(Outstanding(PushStep(d, p))) == Ids(Outstanding(d)) + [p.id]
  {
    PushInv(d, p);
  }

  lemma AwaitLocated(s: Sys)
    requires Located(s) && DrainInv(s.reqs) && s.reqs.phase == Live && s.reqs.queue.items != []
    requires s.stage.Written? && s.stage.conn in s.conns
    requires DrainInv(s.conns[s.stage.conn].drain) && !s.conns[s.stage.conn].drain.queue.dead
    ensures Located(Await(s)) && DrainInv(Await(s).reqs)
  {
    var c, conn := s.stage.conn, s.conns[s.stage.conn];
    var id := s.reqs.queue.items[0];
    var p := Pending(id, s.stage.corr);
    DisposeInv(s.reqs);
    ListsLeave(Outstanding(s.reqs), s.place, id, InRequests, InResponses(c), Outstanding(DisposeStep(s.reqs)));
    OthersStay(s, id, Some(InRequests), InResponses(c));
    ConnsUnmoved(s.conns, s.place, id, InResponses(c), c);
    ListsArrive(Ids(Outstanding(conn.drain)), s.place, id, InResponses(c));
    AwaitIds(conn.drain, p);
    OneConnLists(s.conns, s.place[id := InResponses(c)], c, conn.(drain := PushStep(conn.drain, p)));
  }

  lemma TurnAwayInv(s: Sys)
    requires Inv(s) && Enabled(s, AwaitResponse) && s.conns[s.stage.conn].drain.queue.dead
    ensures Inv(Await(s))
  {
    var s' := Await(s);
    forall k | k in s'.conns ensures ConnInv(s', k) {
      assert ConnInv(s, k);
    }
  }

  lemma KillAfterWriteInv(s: Sys)
    requires Inv(s) && Enabled(s, KillAfterWrite)
    ensures Inv(Step(s, KillAfterWrite))
  {
    var c := s.killing.value;
    var s' := Step(s, KillAfterWrite);
    assert ConnInv(s, c);
    OneConn(s, c, s'.conns[c], s');
    SameOutstanding(s, s', c, s'.conns[c]);
  }

  lemma RequestRingInv(s: Sys, a: Action)
    requires Inv(s) && Enabled(s, a) && (a.BrokerDies? || a.NextRequest?)
    ensures Inv(Step(s, a))
  {
    DieInv(s.reqs);
    if a.NextRequest? { DropInv(s.reqs); }
    SameConns(s, Step(s, a));
  }

  // ---------------------------------------------------------------------
  // The connections
  // ---------------------------------------------------------------------

  /** Any change to one connection that keeps it good and moves no request. */
  lemma ConnChangeInv(s: Sys, c: nat, conn: Conn, s': Sys)
    requires Inv(s) && c in s.conns && DrainInv(conn.drain) && Matched(conn, InFlight(s, c))
    requires Outstanding(conn.drain) == Outstanding(s.conns[c].drain)
    requires conn.writeFailed == s.conns[c].writeFailed && (s.conns[c].dying ==> conn.dying) && KillInv(conn)
    requires s' == SetConn(s, c, conn).(finishing := s'.finishing) && (s'.finishing.Some? ==> s.finishing.Some?)
    ensures Inv(s')
  {
    assert ConnInv(s, c);
    OneConn(s, c, conn, s');
    SameOutstanding(s, s', c, conn);
  }

  /** A step of a death that leaves the ring alone. */
  lemma FlagsInv(s: Sys, c: nat, a: Action)
    requires Inv(s) && Enabled(s, a) && (a == Mark(c) || a == Close(c) || a == KillAfterRead(c))
    ensures Inv(Step(s, a))
  {
    assert ConnInv(s, c);
    var conn, conn' := s.conns[c], Step(s, a).conns[c];
    KillsOn(conn, conn', a);
    ConnChangeInv(s, c, conn', Step(s, a));
  }

  lemma RingDiesInv(s: Sys, c: nat)
    requires Inv(s) && Enabled(s, RingDies(c))
    ensures Inv(Step(s, RingDies(c)))
  {
    assert ConnInv(s, c);
    var conn, conn' := s.conns[c], Step(s, RingDies(c)).conns[c];
    KillsOn(conn, conn', RingDies(c));
    RingDiesConn(conn, conn', InFlight(s, c));
    ConnChangeInv(s, c, conn', Step(s, RingDies(c)));
  }

  lemma NextResponseInv(s: Sys, c: nat)
    requires Inv(s) && Enabled(s, NextResponse(c))
    ensures Inv(Step(s, NextResponse(c)))
  {
    assert ConnInv(s, c);
    var conn, conn' := s.conns[c], Step(s, NextResponse(c)).conns[c];
    KillsOn(conn, conn', NextResponse(c));
    DropInv(conn.drain);
    ConnChangeInv(s, c, conn', Step(s, NextResponse(c)));
  }

  lemma RingDiesConn(conn: Conn, conn': Conn, inFlight: seq<int>)
    requires DrainInv(conn.drain) && Matched(conn, inFlight)
    requires conn' == conn.(drain := DieStep(conn.drain), finishing := false)
    ensures DrainInv(conn'.drain) && Matched(conn', inFlight) && Outstanding(conn'.drain) == Outstanding(conn.drain)
  {
    DieInv(conn.drain);
    DyingMatched(conn, inFlight);
  }

  lemma KillsOn(conn: Conn, conn': Conn, a: Action)
    requires DrainInv(conn.drain) && KillInv(conn)
    requires
      (a.Mark? && conn' == conn.(dying := true)) ||
      (a.Close? && conn.dying && conn' == conn.(closed := true)) ||
      (a.RingDies? && conn.closed && conn' == conn.(drain := DieStep(conn.drain), finishing := false)) ||
      (a.KillAfterRead? && conn.killing && conn' == Swapped(conn)) ||
      (a.NextResponse? && conn.drain.phase == Finished && conn.drain.queue.items != [] && !conn.killing &&
       !conn.finishing && conn' == conn.(drain := DropStep(conn.drain)))
    ensures KillInv(conn')
  {
  }

  lemma DyingMatched(conn: Conn, inFlight: seq<int>)
    requires DrainInv(conn.drain) && Matched(conn, inFlight)
    ensures Matched(conn.(drain := DieStep(conn.drain)), inFlight)
  {
    var awaited := Corrs(Outstanding(conn.drain)) + inFlight;
    if !conn.readFailed && !conn.drain.queue.dead && conn.drain.phase == Live {
      assert awaited[0] == conn.drain.queue.items[0].corr;
    }
  }

  /** What a connection is after its worker has called the front's promise. */
  lemma DisposedConn(conn: Conn, conn': Conn, inFlight: seq<int>)
    requires DrainInv(conn.drain) && (conn.drain.phase == Live || conn.drain.phase == Failing)
    requires conn'.drain == conn.drain && Matched(conn, inFlight) && conn'.writeFailed == conn.writeFailed
    requires conn'.readFailed ||
      (conn.drain.phase == Failing && conn'.wire == conn.wire && conn'.readFailed == conn.readFailed) ||
      (conn.wire != [] && conn'.wire == conn.wire[1..] && conn'.readFailed == conn.readFailed)
    ensures conn.drain.queue.items != []
    ensures Matched(conn'.(drain := DisposeStep(conn.drain)), inFlight)
  {
    DisposeInv(conn.drain);
    var x, rest := conn.drain.queue.items[0], Outstanding(DisposeStep(conn.drain));
    AwaitedTail(x, rest, inFlight, conn.wire);
  }

  lemma AwaitedTail(x: Pending, rest: seq<Pending>, inFlight: seq<int>, wire: seq<int>)
    ensures Corrs([x] + rest) + inFlight <= wire ==> wire != [] && Corrs(rest) + inFlight <= wire[1..]
    ensures Corrs([x] + rest) + inFlight == wire ==> wire != [] && Corrs(rest) + inFlight == wire[1..]
  {
    assert Corrs([x] + rest) == [x.corr] + Corrs(rest);
    assert Corrs([x] + rest) + inFlight == [x.corr] + (Corrs(rest) + inFlight);
  }

  lemma AnswerResponseInv(s: Sys, c: nat, conn: Conn)
    requires Inv(s) && c in s.conns
    requires conn.drain == s.conns[c].drain && (conn.drain.phase == Live || conn.drain.phase == Failing)
    requires conn.drain.queue.items != [] && Matched(conn.(drain := DisposeStep(conn.drain)), InFlight(s, c))
    requires conn.writeFailed == s.conns[c].writeFailed && (s.conns[c].dying ==> conn.dying)
    requires KillInv(conn.(drain := DisposeStep(conn.drain)))
    ensures Inv(AnswerResponse(s, c, conn))
  {
    var s' := AnswerResponse(s, c, conn);
    assert ConnInv(s, c);
    DisposeInv(conn.drain);
    OneConn(s, c, s'.conns[c], s');
    AnswerResponseLocated(s, c, conn);
  }

  lemma DisposeIds(d: Drain<Pending>)
    requires DrainInv(d) && (d.phase == Live || d.phase == Failing)
    ensures d.queue.items != [] && DrainInv(DisposeStep(d))
    ensures Ids(Outstanding(d)) == [d.queue.items[0].id] + Ids(Outstanding(DisposeStep(d)))
  {
    DisposeInv(d);
    var x, rest := d.queue.items[0], Outstanding(DisposeStep(d));
    assert Ids([x] + rest) == [x.id] + Ids(rest);
  }

  lemma AnswerResponseLocated(s: Sys, c: nat, conn: Conn)
    requires Located(s) && c in s.conns && DrainInv(conn.drain)
    requires conn.drain == s.conns[c].drain && (conn.drain.phase == Live || conn.drain.phase == Failing)
    ensures conn.drain.queue.items != [] && Located(AnswerResponse(s, c, conn))
  {
    ResponseLeaves(s, c, conn);
    var id := conn.drain.queue.items[0].id;
    OneConnLists(s.conns, s.place[id := Answered], c, conn.(drain := DisposeStep(conn.drain)));
    AnsweredLocated(s, AnswerResponse(s, c, conn), id, c);
  }

  /** A request that a connection listed has been answered. */
  lemma AnsweredLocated(s: Sys, s': Sys, id: nat, c: nat)
    requires Located(s) && id in s.place && s.place[id] == InResponses(c)
    requires s' == s.(conns := s'.conns, called := s.called + [id], place := s.place[id := Answered])
    requires ConnsList(s'.conns, s'.place) && s'.conns.Keys == s.conns.Keys
    ensures Located(s')
  {
    OthersStay(s, id, Some(InResponses(c)), Answered);
    ListsArrive(s.called, s.place, id, Answered);
  }

  /** The front of a connection's ring is no longer among what the connections list. */
  lemma ResponseLeaves(s: Sys, c: nat, conn: Conn)
    requires Located(s) && c in s.conns && DrainInv(conn.drain)
    requires conn.drain == s.conns[c].drain && (conn.drain.phase == Live || conn.drain.phase == Failing)
    ensures conn.drain.queue.items != []
    ensures var id := conn.drain.queue.items[0].id;
      id in s.place && s.place[id] == InResponses(c) && OthersList(s.conns, s.place[id := Answered], c) &&
      Lists(Ids(Outstanding(DisposeStep(conn.drain))), s.place[id := Answered], InResponses(c))
  {
    DisposeIds(conn.drain);
    var x, rest := conn.drain.queue.items[0], Outstanding(DisposeStep(conn.drain));
    ListsLeave(Ids(Outstanding(conn.drain)), s.place, x.id, InResponses(c), Answered, Ids(rest));
    ConnsUnmoved(s.conns, s.place, x.id, Answered, c);
  }

  lemma ResponseInv(s: Sys, c: nat, a: Action)
    requires Inv(s) && Enabled(s, a)
    requires a == Receive(c) || a == Mismatch(c) || a == DeadResponseFails(c) || (a.ReadFails? && a.conn == c)
    ensures Inv(Step(s, a))
  {
    assert ConnInv(s, c);
    var conn := s.conns[c];
    var conn' :=
      if a.Receive? then conn.(wire := conn.wire[1..])
      else if a.Mismatch? then conn.(wire := conn.wire[1..], readFailed := true, killing := true)
      else if a.ReadFails? then conn.(wire := a.wire, readFailed := true, killing := true)
      else conn;
    DisposedConn(conn, conn', InFlight(s, c));
    AnswerResponseInv(s, c, conn');
  }

  // ---------------------------------------------------------------------
  // Theorems about runs
  // ---------------------------------------------------------------------

  /** The steps of pushers, of the request worker and of whoever kills the broker. */
  predicate OfRequests(a: Action) {
    a.Do? || a.PusherFails? || a.BrokerDies? || a.RequestFails? || a.DeadRequestFails? || a.Load? || a.Connect? ||
    a.TurnedAwayFails? || a.NextRequest?
  }

  predicate OfWrites(a: Action) {
    a.WriteFails? || a.WriteWithoutReply? || a.Write? || a.AwaitResponse? || a.KillAfterWrite?
  }

  lemma RequestStepInv(s: Sys, a: Action)
    requires Inv(s) && Enabled(s, a) && OfRequests(a)
    ensures Inv(Step(s, a))
  {
    match a
    case Do(id) => DoInv(s, id);
    case PusherFails(id) => PusherFailsInv(s, id);
    case BrokerDies => RequestRingInv(s, a);
    case RequestFails => AnswerRequestInv(s);
    case DeadRequestFails => AnswerRequestInv(s);
    case Load(c) => LoadInv(s, c);
    case Connect(c, corr) => ConnectInv(s, c, corr);
    case TurnedAwayFails => AnswerRequestInv(s);
    case NextRequest => RequestRingInv(s, a);
  }

  lemma WriteStepInv(s: Sys, a: Action)
    requires Inv(s) && Enabled(s, a) && OfWrites(a)
    ensures Inv(Step(s, a))
  {
    match a
    case WriteFails(_) => WriteEndsInv(s, a);
    case WriteWithoutReply => WriteEndsInv(s, a);
    case Write => WriteInv(s);
    case AwaitResponse => if s.conns[s.stage.conn].drain.queue.dead { TurnAwayInv(s); } else { AwaitInv(s); }
    case KillAfterWrite => KillAfterWriteInv(s);
  }

  predicate OfReads(a: Action) { a.Receive? || a.Mismatch? || a.ReadFails? || a.DeadResponseFails? }

  lemma ConnStepInv(s: Sys, a: Action)
    requires Inv(s) && Enabled(s, a) && !OfRequests(a) && !OfWrites(a) && !OfReads(a)
    ensures Inv(Step(s, a))
  {
    match a
    case Mark(c) => FlagsInv(s, c, a);
    case Close(c) => FlagsInv(s, c, a);
    case RingDies(c) => RingDiesInv(s, c);
    case KillAfterRead(c) => FlagsInv(s, c, a);
    case NextResponse(c) => NextResponseInv(s, c);
  }

  /** Every step of every goroutine keeps the invariant. */
  lemma StepInv(s: Sys, a: Action)
    requires Inv(s) && Enabled(s, a)
    ensures Inv(Step(s, a))
  {
    if OfRequests(a) {
      RequestStepInv(s, a);
    } else if OfWrites(a) {
      WriteStepInv(s, a);
    } else if OfReads(a) {
      ResponseInv(s, a.conn, a);
    } else {
      ConnStepInv(s, a);
    }
  }

  lemma {:induction false} RunInv(ss: seq<Sys>, actions: seq<Action>, i: nat)
    requires IsRun(ss, actions) && i < |ss|
    ensures Inv(ss[i])
  {
    if i > 0 {
      RunInv(ss, actions, i - 1);
      NextInv(ss, actions, i - 1);
    }
  }

  lemma NextInv(ss: seq<Sys>, actions: seq<Action>, i: nat)
    requires IsRun(ss, actions) && i < |actions| && Inv(ss[i])
    ensures Inv(ss[i + 1])
  {
    StepInv(ss[i], actions[i]);
  }

  /** No promise is ever called twice, whatever pushers, workers and deaths do. */
  lemma PromisesAtMostOnce(ss: seq<Sys>, actions: seq<Action>, i: nat)
    requires IsRun(ss, actions) && i < |ss|
    ensures NoRepeats(ss[i].called)
  {
    RunInv(ss, actions, i);
  }

  predicate Quiescent(s: Sys) {
    s.reqs.queue.items == [] && s.refused == {} && forall c :: c in s.conns ==> s.conns[c].drain.queue.items == []
  }

  /** Whenever all rings are drained and all pushers have returned, every promise has been called, once. */
  lemma PromisesExactlyOnce(ss: seq<Sys>, actions: seq<Action>, i: nat)
    requires IsRun(ss, actions) && i < |ss| && Quiescent(ss[i])
    ensures NoRepeats(ss[i].called) && forall id :: id in ss[i].called <==> id in ss[i].place
  {
    RunInv(ss, actions, i);
    AllAnswered(ss[i]);
  }

  lemma AllAnswered(s: Sys)
    requires Located(s) && Quiescent(s)
    ensures forall id :: id in s.place ==> s.place[id] == Answered
  {
    forall id | id in s.place ensures s.place[id] == Answered {
      if s.place[id] == AtPusher || s.place[id] == InRequests || s.place[id].InResponses? {
        assert false;
      }
    }
  }

  // ---------------------------------------------------------------------
  // Responses with the wrong correlation ID
  // ---------------------------------------------------------------------

  /** A read of connection `c` fails. */
  predicate FailsRead(a: Action, c: nat) { (a.ReadFails? && a.conn == c) || a == Mismatch(c) }

  /** Somebody other than the connection's worker is the first to swap the flag. */
  predicate OthersSwap(s: Sys, a: Action, c: nat) {
    c in s.conns && !s.conns[c].dying && (a == Mark(c) || (a == KillAfterWrite && s.killing == Some(c)))
  }

  /** The connection's worker swaps the flag too late, before the connection has been closed. */
  predicate LosesSwap(s: Sys, a: Action, c: nat) {
    a == KillAfterRead(c) && c in s.conns && s.conns[c].dying && !s.conns[c].closed && !s.conns[c].drain.queue.dead
  }

  predicate SwappedByOthers(s: Sys, c: nat) {
    c in s.conns && s.conns[c].dying && !s.conns[c].finishing && !s.conns[c].drain.queue.dead
  }

  lemma StepSwapped(s: Sys, a: Action, c: nat)
    requires Enabled(s, a) && SwappedByOthers(Step(s, a), c)
    ensures SwappedByOthers(s, c) || OthersSwap(s, a, c)
  {
  }

  /** The connection's worker is about to call `die`. */
  predicate Killing(s: Sys, c: nat) { c in s.conns && s.conns[c].killing }

  /** A `die` of the connection's worker came too late, and the connection is still open. */
  predicate LostOpen(s: Sys, c: nat) { c in s.conns && s.conns[c].lost && !s.conns[c].closed }

  lemma StepKilling(s: Sys, a: Action, c: nat)
    requires Enabled(s, a) && Killing(Step(s, a), c)
    ensures Killing(s, c) || FailsRead(a, c)
  {
    hide DisposeStep, PushStep, DropStep, DieStep, NextCorr;
  }

  lemma StepOpen(s: Sys, a: Action, c: nat)
    requires Enabled(s, a) && c in s.conns && c in Step(s, a).conns && !Step(s, a).conns[c].closed
    ensures !s.conns[c].closed
  {
    hide DisposeStep, PushStep, DropStep, DieStep, NextCorr;
  }

  lemma StepLost(s: Sys, a: Action, c: nat)
    requires Enabled(s, a) && c in Step(s, a).conns && Step(s, a).conns[c].lost
    ensures (c in s.conns && s.conns[c].lost) ||
            (a == KillAfterRead(c) && c in s.conns && s.conns[c].dying && !s.conns[c].drain.queue.dead)
  {
    hide DisposeStep, PushStep, DropStep, DieStep, NextCorr;
  }

  /** What holds now, did not hold at first and begins to hold only with a cause, has had one. */
  lemma {:induction false} Cause(holds: seq<bool>, causes: seq<bool>, i: nat) returns (k: nat)
    requires i < |holds| == |causes| + 1 && !holds[0] && holds[i]
    requires forall j :: 0 <= j < |causes| && holds[j + 1] ==> holds[j] || causes[j]
    ensures k < i && causes[k]
  {
    k := i - 1;
    if !causes[k] { k := Cause(holds, causes, k); }
  }

  lemma SwappedStep(ss: seq<Sys>, actions: seq<Action>, j: nat, c: nat)
    requires IsRun(ss, actions) && j < |actions| && SwappedByOthers(ss[j + 1], c)
    ensures SwappedByOthers(ss[j], c) || OthersSwap(ss[j], actions[j], c)
  {
    StepSwapped(ss[j], actions[j], c);
  }

  lemma SwappedBefore(ss: seq<Sys>, actions: seq<Action>, i: nat, c: nat) returns (k: nat)
    requires IsRun(ss, actions) && i < |ss| && SwappedByOthers(ss[i], c)
    ensures k < i && OthersSwap(ss[k], actions[k], c)
  {
    var holds := seq(|ss|, j requires 0 <= j < |ss| => SwappedByOthers(ss[j], c));
    var causes := seq(|actions|, j requires 0 <= j < |actions| < |ss| => OthersSwap(ss[j], actions[j], c));
    forall j | 0 <= j < |causes| && holds[j + 1] ensures holds[j] || causes[j] {
      SwappedStep(ss, actions, j, c);
    }
    k := Cause(holds, causes, i);
  }

  lemma FailedStep(ss: seq<Sys>, actions: seq<Action>, j: nat, c: nat)
    requires IsRun(ss, actions) && j < |actions| && Killing(ss[j + 1], c)
    ensures Killing(ss[j], c) || FailsRead(actions[j], c)
  {
    StepKilling(ss[j], actions[j], c);
  }

  lemma FailedBefore(ss: seq<Sys>, actions: seq<Action>, i: nat, c: nat) returns (k: nat)
    requires IsRun(ss, actions) && i < |ss| && Killing(ss[i], c)
    ensures k < i && FailsRead(actions[k], c)
  {
    var holds := seq(|ss|, j requires 0 <= j < |ss| => Killing(ss[j], c));
    var causes := seq(|actions|, j requires 0 <= j < |actions| => FailsRead(actions[j], c));
    forall j | 0 <= j < |causes| && holds[j + 1] ensures holds[j] || causes[j] {
      FailedStep(ss, actions, j, c);
    }
    k := Cause(holds, causes, i);
  }

  lemma LostStep(ss: seq<Sys>, actions: seq<Action>, j: nat, c: nat)
    requires IsRun(ss, actions) && j < |actions| && LostOpen(ss[j + 1], c)
    ensures LostOpen(ss[j], c) || LosesSwap(ss[j], actions[j], c)
  {
    StepLost(ss[j], actions[j], c);
    StepOpen(ss[j], actions[j], c);
  }

  lemma LostBefore(ss: seq<Sys>, actions: seq<Action>, i: nat, c: nat) returns (k: nat)
    requires IsRun(ss, actions) && i < |ss| && LostOpen(ss[i], c)
    ensures k < i && LosesSwap(ss[k], actions[k], c)
  {
    var holds := seq(|ss|, j requires 0 <= j < |ss| => LostOpen(ss[j], c));
    var causes := seq(|actions|, j requires 0 <= j < |actions| < |ss| => LosesSwap(ss[j], actions[j], c));
    forall j | 0 <= j < |causes| && holds[j + 1] ensures holds[j] || causes[j] {
      LostStep(ss, actions, j, c);
    }
    k := Cause(holds, causes, i);
  }

  /**
   With a broker that answers in order, a response with the wrong correlation
   ID comes only after a read failed and the worker's `die` did not get to close
   the connection: somebody else had swapped the flag and has not closed it yet.
   */
  lemma MismatchNeedsLostSwap(ss: seq<Sys>, actions: seq<Action>, i: nat, c: nat)
      returns (failed: nat, swapped: nat, lost: nat)
    requires IsRun(ss, actions) && i < |ss| && Enabled(ss[i], Mismatch(c))
    ensures failed < lost < i && swapped < lost
    ensures FailsRead(actions[failed], c)
    ensures OthersSwap(ss[swapped], actions[swapped], c)
    ensures LosesSwap(ss[lost], actions[lost], c) && !ss[i].conns[c].closed
  {
    RunInv(ss, actions, i);
    MismatchIsLost(ss[i], c);
    lost := LostBefore(ss, actions, i, c);
    failed, swapped := BeforeLostSwap(ss, actions, lost, c);
  }

  lemma BeforeLostSwap(ss: seq<Sys>, actions: seq<Action>, i: nat, c: nat) returns (failed: nat, swapped: nat)
    requires IsRun(ss, actions) && i < |actions| && LosesSwap(ss[i], actions[i], c)
    ensures failed < i && FailsRead(actions[failed], c)
    ensures swapped < i && OthersSwap(ss[swapped], actions[swapped], c)
  {
    assert Enabled(ss[i], actions[i]);
    failed := FailedBefore(ss, actions, i, c);
    RunInv(ss, actions, i);
    NotFinishing(ss[i], c);
    swapped := SwappedBefore(ss, actions, i, c);
  }

  lemma MismatchIsLost(s: Sys, c: nat)
    requires Inv(s) && Enabled(s, Mismatch(c))
    ensures s.conns[c].lost
  {
    assert ConnInv(s, c);
    FrontMatches(s.conns[c], InFlight(s, c));
  }

  lemma NotFinishing(s: Sys, c: nat)
    requires Inv(s) && c in s.conns && s.conns[c].killing
    ensures !s.conns[c].finishing
  {
    assert ConnInv(s, c);
  }

  lemma FrontMatches(conn: Conn, inFlight: seq<int>)
    requires DrainInv(conn.drain) && Matched(conn, inFlight) && conn.drain.phase == Live && conn.drain.queue.items != []
    ensures conn.readFailed || (conn.wire != [] && conn.wire[0] == conn.drain.queue.items[0].corr)
  {
    if !conn.drain.queue.dead {
      assert (Corrs(Outstanding(conn.drain)) + inFlight)[0] == conn.drain.queue.items[0].corr;
    }
  }

  /**
   And then it does come: once somebody else has swapped the flag, a read that
   fails before the connection is closed lets the worker go on to the next
   element, which gets the wrong response exactly when the stream does not
   continue with its own.
   */
  lemma MismatchAfterLostSwap(s: Sys, c: nat, wire: seq<int>)
    requires Inv(s) && Reading(s, c) && s.conns[c].dying
    ensures
      var items := s.conns[c].drain.queue.items;
      var s1 := Step(s, ReadFails(c, wire));
      Enabled(s1, KillAfterRead(c)) &&
      var s2 := Step(s1, KillAfterRead(c));
      Enabled(s2, NextResponse(c)) &&
      var s3 := Step(s2, NextResponse(c));
      Enabled(s3, Mismatch(c)) <==>
        !s.conns[c].closed && |items| > 1 && wire != [] && wire[0] != items[1].corr
  {
    assert ConnInv(s, c);
    GoesOn(Step(s, ReadFails(c, wire)), c, s.conns[c], wire);
  }

  /** A connection whose worker's read has failed. */
  function Disposed(conn: Conn, wire: seq<int>): Conn
    requires conn.drain.phase == Live && conn.drain.queue.items != []
  {
    conn.(drain := DisposeStep(conn.drain), wire := wire, readFailed := true, killing := true)
  }

  lemma GoesOn(s: Sys, c: nat, conn: Conn, wire: seq<int>)
    requires KillInv(conn) && conn.dying && conn.drain.phase == Live && conn.drain.queue.items != []
    requires c in s.conns && s.conns[c] == Disposed(conn, wire)
    ensures
      Enabled(s, KillAfterRead(c)) &&
      var s2 := Step(s, KillAfterRead(c));
      Enabled(s2, NextResponse(c)) &&
      (Enabled(Step(s2, NextResponse(c)), Mismatch(c)) <==>
        !conn.closed && |conn.drain.queue.items| > 1 && wire != [] && wire[0] != conn.drain.queue.items[1].corr)
  {
    ReadsNext(Step(s, KillAfterRead(c)), c, conn.drain.queue, wire);
  }

  lemma ReadsNext(s: Sys, c: nat, q: Queue<Pending>, wire: seq<int>)
    requires c in s.conns && s.conns[c].drain.phase == Finished && s.conns[c].drain.queue == q && q.items != []
    requires !s.conns[c].killing && !s.conns[c].finishing && s.conns[c].wire == wire && (q.dead ==> s.conns[c].closed)
    ensures
      Enabled(s, NextResponse(c)) &&
      (Enabled(Step(s, NextResponse(c)), Mismatch(c)) <==>
        !s.conns[c].closed && |q.items| > 1 && wire != [] && wire[0] != q.items[1].corr)
  {
    DropsTo(s.conns[c].drain);
  }

  lemma DropsTo<T>(d: Drain<T>)
    requires d.phase == Finished && d.queue.items != []
    ensures var d' := DropStep(d);
      if |d.queue.items| == 1 then d'.phase == Idle
      else d'.phase == (if d.queue.dead then Failing else Live) && d'.queue.items != [] &&
           d'.queue.items[0] == d.queue.items[1]
  {
    assert |d.queue.items[1..]| == |d.queue.items| - 1;
  }

  ghost predicate Reachable(s: Sys) {
    exists ss, actions :: IsRun(ss, actions) && ss[|actions|] == s
  }

  lemma ReachStep(s: Sys, a: Action)
    requires Reachable(s) && Enabled(s, a)
    ensures Reachable(Step(s, a))
  {
    var ss, actions :| IsRun(ss, actions) && ss[|actions|] == s;
    assert IsRun(ss + [Step(s, a)], actions + [a]);
  }

  lemma ReachableInv(s: Sys)
    requires Reachable(s)
    ensures Inv(s)
  {
    var ss, actions :| IsRun(ss, actions) && ss[|actions|] == s;
    RunInv(ss, actions, |actions|);
  }

  /** Requests 0 and 1 are in the ring, and the worker starts with the first. */
  ghost predicate TwoPushed(s: Sys) {
    s.reqs.queue == Queue([0, 1], false) && s.reqs.phase == Live && s.stage == Start && s.conns == map[] &&
    s.killing.None? && s.finishing.None?
  }

  /** Request 0 has been written to connection 0. */
  ghost predicate FirstWrite(s: Sys) {
    s.reqs.queue == Queue([0, 1], false) && s.reqs.phase == Live && s.stage == Written(0, 0) &&
    s.killing.None? && s.finishing.None? && 0 in s.conns && s.conns[0] == NewConn(0).(nextCorr := 1, wire := [0])
  }

  /** Request 0 awaits its response on connection 0, and the worker starts with request 1. */
  ghost predicate OneWritten(s: Sys) {
    s.reqs.queue == Queue([1], false) && s.reqs.phase == Live && s.stage == Start && s.killing.None? && 0 in s.conns &&
    s.conns[0].drain.queue == Queue([Pending(0, 0)], false) && s.conns[0].drain.phase == Live &&
    s.conns[0].wire == [0] && s.conns[0].nextCorr == 1 && !s.conns[0].dying && !s.conns[0].closed
  }

  /** Both await their responses. */
  ghost predicate TwoWritten(s: Sys) {
    0 in s.conns && s.conns[0].drain.queue == Queue([Pending(0, 0), Pending(1, 1)], false) &&
    s.conns[0].drain.phase == Live && s.conns[0].wire == [0, 1] && !s.conns[0].dying && !s.conns[0].closed
  }

  lemma ReachTwoPushed() returns (s: Sys)
    ensures Reachable(s) && TwoPushed(s)
  {
    assert IsRun([Boot], []);
    var s1 := Step(Boot, Do(0));
    ReachStep(Boot, Do(0));
    ReachStep(s1, Do(1));
    s := Step(s1, Do(1));
  }

  lemma ReachFirstWrite() returns (s: Sys)
    ensures Reachable(s) && FirstWrite(s)
  {
    var s0 := ReachTwoPushed();
    ReachStep(s0, Connect(0, 0));
    var s1 := Step(s0, Connect(0, 0));
    ReachStep(s1, Write);
    s := Step(s1, Write);
  }

  lemma ReachOneWritten() returns (s: Sys)
    ensures Reachable(s) && OneWritten(s)
  {
    var s0 := ReachFirstWrite();
    ReachStep(s0, AwaitResponse);
    var s1 := Step(s0, AwaitResponse);
    ReachStep(s1, NextRequest);
    s := Step(s1, NextRequest);
    assert [0, 1][1..] == [1];
  }

  lemma ReachTwoWritten() returns (s: Sys)
    ensures Reachable(s) && TwoWritten(s)
  {
    var s0 := ReachOneWritten();
    ReachStep(s0, Load(0));
    var s1 := Step(s0, Load(0));
    ReachStep(s1, Write);
    var s2 := Step(s1, Write);
    ReachStep(s2, AwaitResponse);
    s := Step(s2, AwaitResponse);
  }

  /** The wrong response does come in a run that starts from nothing, pushes two requests and loses one read. */
  lemma MismatchIsReachable() returns (s: Sys)
    ensures Reachable(s) && Enabled(s, Mismatch(0))
  {
    var s0 := ReachTwoWritten();
    ReachStep(s0, Mark(0));
    var s1 := Step(s0, Mark(0));
    ReachableInv(s1);
    MismatchAfterLostSwap(s1, 0, s1.conns[0].wire);
    ReachStep(s1, ReadFails(0, s1.conns[0].wire));
    var s2 := Step(s1, ReadFails(0, s1.conns[0].wire));
    ReachStep(s2, KillAfterRead(0));
    var s3 := Step(s2, KillAfterRead(0));
    ReachStep(s3, NextResponse(0));
    s := Step(s3, NextResponse(0));
  }

  /**
   In every run, for every ring: a worker runs exactly when the queue is not
   empty, elements are disposed of in the order they were accepted, and after
   its death at most one more is handled live.
   */
  lemma RingsDrain(ss: seq<Sys>, actions: seq<Action>, i: nat)
    requires IsRun(ss, actions) && i < |ss|
    ensures DrainInv(ss[i].reqs) && forall c :: c in ss[i].conns ==> DrainInv(ss[i].conns[c].drain)
  {
    RunInv(ss, actions, i);
    forall c | c in ss[i].conns ensures DrainInv(ss[i].conns[c].drain) {
      assert ConnInv(ss[i], c);
    }
  }
}
