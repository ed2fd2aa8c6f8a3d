/**
 The writing side of a connection in `pkg/kfake/client_conn.go`: responses arrive in
 any order and go out in the order of their requests.
 */
module ResponseWriter {

  /** A response, with the number of its request on this connection; `failed` means that handling returned an error. */
  datatype Response = Response(number: nat, corr: int, failed: bool)

  ghost predicate Differ(rs: seq<Response>, i: int, j: int) {
    0 <= i < j < |rs| ==> rs[i].number != rs[j].number
  }

  ghost predicate Distinct(rs: seq<Response>) { forall i, j :: Differ(rs, i, j) }

  ghost predicate Arrived(rs: seq<Response>, number: nat) {
    exists i :: 0 <= i < |rs| && rs[i].number == number
  }

  ghost predicate AllArrived(rs: seq<Response>, next: nat) { forall n :: 0 <= n < next ==> Arrived(rs, n) }

  /** Every response received so far has been written, or is held until its turn. */
  ghost predicate Waits(r: Response, next: nat, held: map<nat, Response>) {
    r.number < next || (r.number in held && held[r.number] == r)
  }

  ghost predicate WellHeld(rs: seq<Response>, next: nat, held: map<nat, Response>) {
    forall s :: s in held ==> s >= next && held[s].number == s && held[s] in rs
  }

  ghost predicate Kept(received: seq<Response>, next: nat, held: map<nat, Response>) {
    next + |held| == |received| && AllArrived(received, next) && WellHeld(received, next, held) &&
    forall i {:trigger Waits(received[i], next, held)} :: 0 <= i < |received| ==> Waits(received[i], next, held)
  }

  /** Numbers are `uint32`. */
  function Next(number: nat): nat { (number + 1) % 0x1_0000_0000 }

  /** The responses 0, 1, 2, ..., none of them failed. */
  ghost predicate InTurn(written: seq<Response>, arrivals: seq<Response>) {
    forall k :: 0 <= k < |written| ==> written[k].number == k && written[k] in arrivals && !written[k].failed
  }

  /**
   What goes out is the responses 0, 1, 2, ... without gap or repetition. It
   ends at the first number that has not arrived, or at the first that failed.
   */
  method Write(arrivals: seq<Response>) returns (written: seq<Response>, closed: bool)
    requires Distinct(arrivals) && |arrivals| < 0x1_0000_0000
    ensures InTurn(written, arrivals)
    ensures !closed ==> !Arrived(arrivals, |written|)
    ensures closed ==> exists r :: r in arrivals && r.number == |written| && r.failed
  {
    written := [];
    var next, i := 0, 0;
    var held: map<nat, Response> := map[];
    while true
      invariant i <= |arrivals| && next == |written| && Kept(arrivals[..i], next, held) && InTurn(written, arrivals)
      decreases |arrivals| - next
    {
      var found, resp;
      found, resp, i, held := Take(arrivals, i, next, held);
      if !found { return written, false; }
      if resp.failed { return written, true; }
      InTurnNext(written, arrivals, resp);
      written := written + [resp];
      next := Next(next);
    }
  }

  lemma InTurnNext(written: seq<Response>, arrivals: seq<Response>, r: Response)
    requires InTurn(written, arrivals) && r.number == |written| && r in arrivals && !r.failed
    ensures InTurn(written + [r], arrivals)
  {
  }

  /** Receives until the response whose turn it is has come; the others are held. */
  method Take(arrivals: seq<Response>, i0: nat, next: nat, held0: map<nat, Response>)
      returns (found: bool, resp: Response, i: nat, held: map<nat, Response>)
    requires Distinct(arrivals) && i0 <= |arrivals| && Kept(arrivals[..i0], next, held0)
    ensures i0 <= i <= |arrivals|
    ensures found ==> resp.number == next < |arrivals| && resp in arrivals && Kept(arrivals[..i], next + 1, held)
    ensures !found ==> !Arrived(arrivals, next)
  {
    i, held := i0, held0;
    while next !in held
      invariant i0 <= i <= |arrivals| && Kept(arrivals[..i], next, held)
      decreases |arrivals| - i
    {
      if i == |arrivals| {
        NotArrived(arrivals, next, held);
        return false, Response(0, 0, false), i, held;
      }
      found, resp, held := Accept(arrivals, i, next, held);
      i := i + 1;
      if found { return; }
    }
    Release(arrivals, i, next, held);
    return true, held[next], i, held - {next};
  }

  /** One response from the channel: the awaited one, or one to hold. */
  method Accept(arrivals: seq<Response>, i: nat, next: nat, held0: map<nat, Response>)
      returns (awaited: bool, resp: Response, held: map<nat, Response>)
    requires Distinct(arrivals) && i < |arrivals| && Kept(arrivals[..i], next, held0) && next !in held0
    ensures resp in arrivals && awaited == (resp.number == next) && (awaited ==> next < |arrivals|)
    ensures Kept(arrivals[..i + 1], if awaited then next + 1 else next, held)
  {
    resp, held := arrivals[i], held0;
    Receive(arrivals, i, next, held);
    awaited := resp.number == next;
    if !awaited { held := held[resp.number := resp]; }
  }

  lemma Release(arrivals: seq<Response>, i: nat, next: nat, held: map<nat, Response>)
    requires i <= |arrivals| && Kept(arrivals[..i], next, held) && next in held
    ensures held[next].number == next < |arrivals| && held[next] in arrivals
    ensures Kept(arrivals[..i], next + 1, held - {next})
  {
    HeldWritten(arrivals[..i], next, held);
  }

  lemma NotArrived(arrivals: seq<Response>, next: nat, held: map<nat, Response>)
    requires Kept(arrivals[..|arrivals|], next, held) && next !in held
    ensures !Arrived(arrivals, next)
  {
    assert arrivals[..|arrivals|] == arrivals;
    forall i | 0 <= i < |arrivals| ensures arrivals[i].number != next {
      assert Waits(arrivals[i], next, held);
    }
  }

  lemma HeldWritten(received: seq<Response>, next: nat, held: map<nat, Response>)
    requires Kept(received, next, held) && next in held
    ensures Kept(received, next + 1, held - {next}) && next < |received|
    ensures held[next].number == next && held[next] in received
  {
    assert (held - {next}).Keys == held.Keys - {next};
    assert |held.Keys| == |held| && |(held - {next}).Keys| == |held - {next}|;
    assert Arrived(received, next);
    forall i | 0 <= i < |received| ensures Waits(received[i], next + 1, held - {next}) {
      assert Waits(received[i], next, held);
    }
  }

  lemma ArrivedMore(received: seq<Response>, r: Response, n: nat)
    ensures Arrived(received, n) ==> Arrived(received + [r], n)
    ensures Arrived(received + [r], r.number)
  {
    assert (received + [r])[|received|] == r;
    if Arrived(received, n) {
      var k :| 0 <= k < |received| && received[k].number == n;
      assert (received + [r])[k] == received[k];
    }
  }

  /** The next arrival is new: neither written nor held. */
  lemma IsNew(arrivals: seq<Response>, i: nat, n: nat)
    requires Distinct(arrivals) && i < |arrivals| && Arrived(arrivals[..i], n)
    ensures n != arrivals[i].number
  {
    var k :| 0 <= k < i && arrivals[..i][k].number == n;
    assert Differ(arrivals, k, i);
  }

  lemma Receive(arrivals: seq<Response>, i: nat, next: nat, held: map<nat, Response>)
    requires Distinct(arrivals) && i < |arrivals| && Kept(arrivals[..i], next, held) && next !in held
    ensures next < |arrivals|
    ensures var r := arrivals[i];
      if r.number == next then Kept(arrivals[..i + 1], next + 1, held)
      else Kept(arrivals[..i + 1], next, held[r.number := r])
  {
    var r, received := arrivals[i], arrivals[..i];
    assert arrivals[..i + 1] == received + [r];
    forall n | 0 <= n < next ensures Arrived(received + [r], n) && n != r.number {
      assert Arrived(received, n);
      ArrivedMore(received, r, n);
      IsNew(arrivals, i, n);
    }
    ArrivedMore(received, r, 0);
    forall s | s in held ensures s != r.number {
      var k :| 0 <= k < |received| && received[k] == held[s];
      assert Arrived(received, s);
      IsNew(arrivals, i, s);
    }
    if r.number == next {
      KeptNext(received, r, next, held);
    } else {
      KeptHeld(received, r, next, held);
    }
  }

  lemma KeptNext(received: seq<Response>, r: Response, next: nat, held: map<nat, Response>)
    requires Kept(received, next, held) && r.number == next && next !in held && AllArrived(received + [r], next)
    requires Arrived(received + [r], next)
    ensures Kept(received + [r], next + 1, held)
  {
    forall i | 0 <= i < |received + [r]| ensures Waits((received + [r])[i], next + 1, held) {
      if i < |received| { assert Waits(received[i], next, held); }
    }
  }

  lemma KeptHeld(received: seq<Response>, r: Response, next: nat, held: map<nat, Response>)
    requires Kept(received, next, held) && r.number > next && r.number !in held && AllArrived(received + [r], next)
    ensures Kept(received + [r], next, held[r.number := r])
  {
    var held' := held[r.number := r];
    assert held'.Keys == held.Keys + {r.number};
    assert |held'| == |held'.Keys| && |held| == |held.Keys|;
    forall i | 0 <= i < |received + [r]| ensures Waits((received + [r])[i], next, held') {
      if i < |received| { assert Waits(received[i], next, held); }
    }
  }
}
