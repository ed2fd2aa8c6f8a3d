/**
 What every run of the request pipeline does with correlation IDs and deaths.
 */
module Correlation {
  import opened Wrappers
  import opened Rings
  import opened RingProtocol
  import opened Pipeline

  // ---------------------------------------------------------------------
  // Correlation IDs
  // ---------------------------------------------------------------------

  /** A write to connection `c` that the client takes for a success. */
  predicate WritesTo(s: Sys, a: Action, c: nat) {
    (a == Write || a == WriteWithoutReply) && s.stage.Loaded? && s.stage.conn == c
  }

  /** The successful writes to `c` from step `j` to step `i`. */
  function Writes(ss: seq<Sys>, actions: seq<Action>, c: nat, j: nat, i: nat): nat
    requires j <= i <= |actions| <= |ss|
  {
    if i == j then 0 else Writes(ss, actions, c, j, i - 1) + if WritesTo(ss[i - 1], actions[i - 1], c) then 1 else 0
  }

  lemma CorrStep(s: Sys, a: Action, c: nat)
    requires Enabled(s, a) && c in s.conns
    ensures c in Step(s, a).conns
    ensures Step(s, a).conns[c].nextCorr ==
      if WritesTo(s, a, c) then NextCorr(s.conns[c].nextCorr) else s.conns[c].nextCorr
  {
    hide NextCorr, Step, Enabled;
    if IsWrite(a) { CorrWrite(s, a, c); } else { CorrOther(s, a, c); }
  }

  lemma CorrWrite(s: Sys, a: Action, c: nat)
    requires Enabled(s, a) && c in s.conns && IsWrite(a)
    ensures c in Step(s, a).conns
    ensures Step(s, a).conns[c].nextCorr ==
      if WritesTo(s, a, c) then NextCorr(s.conns[c].nextCorr) else s.conns[c].nextCorr
  {
    hide NextCorr, DisposeStep;
  }

  lemma CorrOther(s: Sys, a: Action, c: nat)
    requires Enabled(s, a) && c in s.conns && !IsWrite(a)
    ensures c in Step(s, a).conns && Step(s, a).conns[c].nextCorr == s.conns[c].nextCorr
  {
    hide NextCorr, DieStep, DropStep, DisposeStep, PushStep;
  }

  /**
   What a step does to the responses that a connection will get: a write that
   arrives adds the one with its correlation ID at the end, and only reads take.
   */
  lemma WireStep(s: Sys, a: Action, c: nat)
    requires Enabled(s, a) && c in s.conns
    ensures c in Step(s, a).conns
    ensures var wire, wire' := s.conns[c].wire, Step(s, a).conns[c].wire;
      (a in {Write, WriteFails(true)} && s.stage.conn == c ==> wire' == wire + [s.conns[c].nextCorr]) &&
      (a in {Receive(c), Mismatch(c)} ==> [wire[0]] + wire' == wire) &&
      (a.ReadFails? && a.conn == c ==> wire' == a.wire) &&
      (wire' != wire ==> a in {Write, WriteFails(true), Receive(c), Mismatch(c)} || (a.ReadFails? && a.conn == c))
  {
    hide NextCorr, DieStep, DropStep, DisposeStep, PushStep;
  }

  /** The correlation ID `k` after `corr`: after the greatest int32 comes 0. */
  function IdAfter(corr: int, k: nat): int { (corr + k) % 0x8000_0000 }

  lemma Successor(corr: int, k: nat)
    requires 0 <= corr < 0x8000_0000
    ensures IdAfter(corr, 0) == corr && NextCorr(IdAfter(corr, k)) == IdAfter(corr, k + 1)
  {
  }

  /** IDs fewer than 2^31 apart differ. */
  lemma DistinctIds(corr: int, k: nat, n: nat)
    requires 0 <= corr < 0x8000_0000 && 0 < n < 0x8000_0000
    ensures IdAfter(corr, k) != IdAfter(corr, k + n)
  {
    var m := 0x8000_0000;
    assert (corr + k) == (corr + k) / m * m + (corr + k) % m;
    assert (corr + k + n) == (corr + k + n) / m * m + (corr + k + n) % m;
    var q := (corr + k + n) / m - (corr + k) / m;
    assert n == q * m + IdAfter(corr, k + n) - IdAfter(corr, k);
  }

  /**
   A connection that starts with correlation ID `corr` has after `k` successful
   writes the ID `k` further on.
   */
  lemma {:induction false} CorrelationIds(ss: seq<Sys>, actions: seq<Action>, c: nat, corr: int, j: nat, i: nat)
    requires IsRun(ss, actions) && j < i <= |actions| && actions[j] == Connect(c, corr) && 0 <= corr < 0x8000_0000
    ensures c in ss[i].conns
    ensures ss[i].conns[c].nextCorr == IdAfter(corr, Writes(ss, actions, c, j + 1, i))
  {
    hide NextCorr, Step, Enabled, IdAfter, WritesTo, IsRun;
    RunLength(ss, actions);
    OneStep(ss, actions, i - 1);
    if i == j + 1 {
      Connects(ss[j], c, corr);
      Successor(corr, 0);
    } else {
      CorrelationIds(ss, actions, c, corr, j, i - 1);
      CorrStep(ss[i - 1], actions[i - 1], c);
      Successor(corr, Writes(ss, actions, c, j + 1, i - 1));
    }
  }

  lemma RunLength(ss: seq<Sys>, actions: seq<Action>)
    requires IsRun(ss, actions)
    ensures |ss| == |actions| + 1
  {
  }

  lemma OneStep(ss: seq<Sys>, actions: seq<Action>, i: nat)
    requires IsRun(ss, actions) && i < |actions|
    ensures Enabled(ss[i], actions[i]) && ss[i + 1] == Step(ss[i], actions[i])
  {
  }

  lemma Connects(s: Sys, c: nat, corr: int)
    requires Enabled(s, Connect(c, corr))
    ensures var s' := Step(s, Connect(c, corr)); c in s'.conns && s'.conns[c].nextCorr == corr
  {
  }

  // ---------------------------------------------------------------------
  // No request is written twice
  // ---------------------------------------------------------------------

  predicate IsWrite(a: Action) { a == Write || a == WriteWithoutReply || a.WriteFails? }

  /** The request at the front of the request worker's ring, if there is one. */
  function Front(s: Sys): Option<nat> { if s.reqs.queue.items == [] then None else Some(s.reqs.queue.items[0]) }

  /** The request has been written, or answered without: it is not written again. */
  predicate Spent(s: Sys, id: nat) {
    id in s.place && (s.place[id] != InRequests || (Front(s) == Some(id) && (s.stage.Written? || s.stage == TurnedAway)))
  }

  lemma FrontIsInRequests(s: Sys)
    requires Located(s) && s.reqs.phase == Live && s.reqs.queue.items != []
    ensures s.reqs.queue.items[0] in s.place && s.place[s.reqs.queue.items[0]] == InRequests
  {
    assert s.reqs.queue.items[0] in Outstanding(s.reqs);
  }

  lemma WriteSpends(s: Sys, a: Action)
    requires Inv(s) && Enabled(s, a) && IsWrite(a)
    ensures Front(s).Some? && !Spent(s, Front(s).value) && Spent(Step(s, a), Front(s).value)
  {
    hide ConnInv, DrainInv, Located;
    FrontIsInRequests(s);
  }

  lemma SpentStays(s: Sys, a: Action, id: nat)
    requires Inv(s) && Enabled(s, a) && Spent(s, id)
    ensures Spent(Step(s, a), id)
  {
    hide ConnInv, DrainInv, Located;
    if s.reqs.phase == Live && s.reqs.queue.items != [] { FrontIsInRequests(s); }
  }

  lemma {:induction false} StillSpent(ss: seq<Sys>, actions: seq<Action>, i: nat, j: nat, id: nat)
    requires IsRun(ss, actions) && i <= j < |ss| && Spent(ss[i], id)
    ensures Spent(ss[j], id)
  {
    hide Spent, Step, Enabled, Inv;
    if i < j {
      StillSpent(ss, actions, i, j - 1, id);
      RunInv(ss, actions, j - 1);
      OneStep(ss, actions, j - 1);
      SpentStays(ss[j - 1], actions[j - 1], id);
    }
  }

  /** In no run is a request written twice, not even one whose write failed or whose connection turned it away. */
  lemma WrittenAtMostOnce(ss: seq<Sys>, actions: seq<Action>, i: nat, j: nat)
    requires IsRun(ss, actions) && i < j < |actions| && IsWrite(actions[i]) && IsWrite(actions[j])
    ensures Front(ss[i]).Some? && Front(ss[j]).Some? && Front(ss[i]) != Front(ss[j])
  {
    hide Spent, Step, Enabled, Inv;
    RunInv(ss, actions, i);
    OneStep(ss, actions, i);
    WriteSpends(ss[i], actions[i]);
    StillSpent(ss, actions, i + 1, j, Front(ss[i]).value);
    RunInv(ss, actions, j);
    OneStep(ss, actions, j);
    WriteSpends(ss[j], actions[j]);
  }

  // ---------------------------------------------------------------------
  // Deaths
  // ---------------------------------------------------------------------

  /** `s'` is no less dead than `s`. */
  ghost predicate NoRevival(s: Sys, s': Sys) {
    (s.reqs.queue.dead ==> s'.reqs.queue.dead) &&
    forall c :: c in s.conns ==> c in s'.conns && NoRevivalOf(s.conns[c], s'.conns[c])
  }

  predicate NoRevivalOf(conn: Conn, conn': Conn) {
    (conn.dying ==> conn'.dying) && (conn.closed ==> conn'.closed) && (conn.drain.queue.dead ==> conn'.drain.queue.dead)
  }

  lemma StepNoRevival(s: Sys, a: Action)
    requires Enabled(s, a)
    ensures NoRevival(s, Step(s, a))
  {
    forall c | c in s.conns ensures c in Step(s, a).conns && NoRevivalOf(s.conns[c], Step(s, a).conns[c]) {
    }
  }

  lemma {:induction false} RunNoRevival(ss: seq<Sys>, actions: seq<Action>, i: nat, j: nat)
    requires IsRun(ss, actions) && i <= j < |ss|
    ensures NoRevival(ss[i], ss[j])
  {
    if i < j {
      hide Step, Enabled, NoRevival, IsRun;
      RunNoRevival(ss, actions, i, j - 1);
      RunLength(ss, actions);
      OneStep(ss, actions, j - 1);
      StepNoRevival(ss[j - 1], actions[j - 1]);
      NoRevivalChains(ss[i], ss[j - 1], ss[j]);
    }
  }

  lemma NoRevivalChains(s: Sys, s': Sys, s'': Sys)
    requires NoRevival(s, s') && NoRevival(s', s'')
    ensures NoRevival(s, s'')
  {
  }

  /**
   Once the broker has died every later request is refused at once, and once a
   connection's ring has died every later response to it is turned away: neither
   ring takes anything more.
   */
  lemma DeadTakesNothing(ss: seq<Sys>, actions: seq<Action>, i: nat, j: nat)
    requires IsRun(ss, actions) && i < j < |actions|
    ensures actions[i] == BrokerDies ==>
      ss[j].reqs.queue.dead && ss[j + 1].reqs.pushed == ss[j].reqs.pushed &&
      (actions[j].Do? ==> actions[j].id in ss[j + 1].refused && ss[j + 1].reqs == ss[j].reqs)
    ensures actions[i].RingDies? ==>
      var c := actions[i].conn;
      c in ss[j].conns && c in ss[j + 1].conns && ss[j].conns[c].drain.queue.dead &&
      ss[j + 1].conns[c].drain.pushed == ss[j].conns[c].drain.pushed &&
      (actions[j] == AwaitResponse && ss[j].stage.conn == c ==>
        ss[j + 1].stage == TurnedAway && ss[j + 1].reqs == ss[j].reqs)
  {
    OneStep(ss, actions, i);
    OneStep(ss, actions, j);
    RunNoRevival(ss, actions, i + 1, j);
    if actions[i].RingDies? {
      var c := actions[i].conn;
      RingIsDead(ss[i], c);
      assert NoRevivalOf(ss[i + 1].conns[c], ss[j].conns[c]);
      DeadRingStep(ss[j], actions[j], c);
    }
  }

  lemma RingIsDead(s: Sys, c: nat)
    requires Enabled(s, RingDies(c))
    ensures c in Step(s, RingDies(c)).conns && Step(s, RingDies(c)).conns[c].drain.queue.dead
  {
  }

  lemma DeadRingStep(s: Sys, a: Action, c: nat)
    requires Enabled(s, a) && c in s.conns && s.conns[c].drain.queue.dead
    ensures c in Step(s, a).conns && Step(s, a).conns[c].drain.pushed == s.conns[c].drain.pushed
    ensures a == AwaitResponse && s.stage.conn == c ==> Step(s, a).stage == TurnedAway && Step(s, a).reqs == s.reqs
  {
    hide NextCorr, PushStep;
    DeadPush(s.conns[c].drain);
  }

  lemma DeadPush(d: Drain<Pending>)
    requires d.queue.dead
    ensures forall p :: PushStep(d, p) == d
  {
  }
}
