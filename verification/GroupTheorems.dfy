/**
 What holds in every run of a group, and where the coordinator falls short.
 */
module GroupTheorems {
  import opened Wrappers
  import opened Varints
  import opened Groups
  import opened GroupInvariant
  import opened GroupRuns

  // ---------------------------------------------------------------------
  // Assignments
  // ---------------------------------------------------------------------

  /**
   Until the generation counter wraps, a generation has at most one installed
   assignment, and every successful sync reply for it has the last entry of that
   assignment that names the member, or nothing if none does: nothing stale leaks.
   */
  lemma OneAssignmentPerGeneration(ws: seq<World>, es: seq<Event>, i: nat)
    requires IsRun(ws, es) && i < |ws| && Unwrapped(ws[i])
    ensures var installs := ws[i].installs;
      (forall a, b :: 0 <= a < |installs| && 0 <= b < |installs| && installs[a].generation == installs[b].generation ==>
        a == b) &&
      (forall r :: r in ws[i].replies && r.SyncOk? ==>
        (exists a :: 0 <= a < |installs| && installs[a].generation == r.generation) &&
        (forall a :: 0 <= a < |installs| && installs[a].generation == r.generation ==>
          AssignedTo(installs[a].entries, r.member, r.assignment)))
  {
    RunIsGood(ws, es, i);
    var installs := ws[i].installs;
    forall r | r in ws[i].replies && r.SyncOk?
      ensures (exists a :: 0 <= a < |installs| && installs[a].generation == r.generation)
      ensures forall a :: 0 <= a < |installs| && installs[a].generation == r.generation ==>
        AssignedTo(installs[a].entries, r.member, r.assignment)
    {
      hide Assigned, AssignedTo;
      assert Backed(r, installs);
      var a :| 0 <= a < |installs| && Carries(r, installs[a].generation, installs[a].entries);
      AssignedIsLast(installs[a].entries, r.member, r.assignment);
    }
  }

  /** In no run does a request get two replies, not even one that was parked and overtaken. */
  lemma RepliesAtMostOnce(ws: seq<World>, es: seq<Event>, i: nat)
    requires IsRun(ws, es) && i < |ws|
    ensures forall a, b :: 0 <= a < b < |ws[i].replies| ==> ws[i].replies[a].id != ws[i].replies[b].id
  {
    RunIsGood(ws, es, i);
  }

  /** In every run: which requests are parked in which state, exact counters, and a leader who is a member. */
  lemma ReachableStates(ws: seq<World>, es: seq<Event>, i: nat)
    requires IsRun(ws, es) && i < |ws|
    ensures Inv(ws[i].g)
  {
    RunIsGood(ws, es, i);
  }

  // ---------------------------------------------------------------------
  // Panics
  // ---------------------------------------------------------------------

  ghost predicate Shares(members: map<Id, Member>, p: string) {
    forall m :: m in members ==> p in Names(members[m].join)
  }

  lemma SharedIsCandidate(g: Group, p: string)
    requires Counted(g) && Shares(g.members, p) && g.members != map[]
    ensures HasCandidate(g.protocols, |g.members|)
  {
    assert Supporters(g.members, p) == g.members.Keys;
    assert |g.members.Keys| == |g.members|;
    assert Count(g.protocols, p) == |Supporters(g.members, p)|;
    var m :| m in g.members;
    assert |g.members| > 0;
    assert p in g.protocols && g.protocols[p] == |g.members|;
  }

  lemma SharedCompletes(g: Group, pick: Pick, p: string)
    requires BeforeRebalance(g) && g.state == PreparingRebalance && OnlyJoinsWait(g.members)
    requires Enumerates(pick.joins, g.members.Keys) && Shares(g.members, p)
    ensures var o := CompleteRebalance(g, pick); o.Next? && Shares(o.g.members, p)
  {
    CompleteInv(g, pick);
    DropCounted(g);
    var members := Staying(g.members);
    var counts := Drop(g.protocols, Leaving(g.members));
    if members != map[] {
      var g1 := g.(timer := false, nJoining := 0, members := members, protocols := counts,
                   generation := NextGeneration(g.generation));
      SharedIsCandidate(g1, p);
      ChosenProtocol(g1, pick);
      AnswerJoinsEffect(g1.(state := CompletingRebalance, protocol := Candidate(counts, |members|, pick.protocol)),
                        g.leader in members, pick.joins);
    }
  }

  lemma SharedRebalances(g: Group, pick: Pick, p: string)
    requires BeforeRebalance(g) && Enumerates(pick.joins, g.members.Keys) && Shares(g.members, p)
    ensures var o := Rebalance(g, pick); o.Next? && Shares(o.g.members, p)
  {
    ClearCounted(g);
    assert JoinWaiters(ClearSyncs(g.members)) == JoinWaiters(g.members);
    var members := if g.state == CompletingRebalance then ClearSyncs(g.members) else g.members;
    var g1 := g.(members := members, state := PreparingRebalance);
    if g1.nJoining >= |g1.members| { SharedCompletes(g1, pick, p); }
  }

  lemma SharedAdd(g: Group, m: Id, join: Join, id: nat, pick: Pick, p: string)
    requires Inv(g) && g.state != Dead && m in g.pending && m != "" && join.memberId == m && ValidPick(g, pick)
    requires Shares(g.members, p) && p in Names(join)
    ensures var o := AddMember(g, m, join, id, pick); o.Next? && Shares(o.g.members, p)
  {
    hide Inv, BeforeRebalance, ValidPick, Shares, Enumerates, Rebalance, Added;
    AddedReady(g, m, join, id);
    AddedShares(g, m, join, id, pick, p);
    SharedRebalances(Added(g, m, join, id), pick, p);
  }

  lemma AddedShares(g: Group, m: Id, join: Join, id: nat, pick: Pick, p: string)
    requires m in g.pending && ValidPick(g, pick) && Shares(g.members, p) && p in Names(join)
    ensures var g1 := Added(g, m, join, id); Enumerates(pick.joins, g1.members.Keys) && Shares(g1.members, p)
  {
    hide Bump, Names;
  }

  lemma UpdatedShares(g: Group, m: Id, join: Join, id: nat, pick: Pick, p: string)
    requires m in g.members && ValidPick(g, pick) && Shares(g.members, p) && p in Names(join)
    ensures var g1 := Updated(g, m, join, id); Enumerates(pick.joins, g1.members.Keys) && Shares(g1.members, p)
  {
    hide Bump, Names;
  }

  lemma SharedUpdate(g: Group, m: Id, join: Join, id: nat, pick: Pick, p: string)
    requires Inv(g) && g.state != Dead && m in g.members && join.memberId == m && ValidPick(g, pick)
    requires Shares(g.members, p) && p in Names(join)
    ensures var o := UpdateMember(g, m, join, id, pick); o.Next? && Shares(o.g.members, p)
  {
    hide Inv, BeforeRebalance, ValidPick, Shares, Enumerates, Rebalance, Updated;
    UpdatedReady(g, m, join, id);
    UpdatedShares(g, m, join, id, pick, p);
    SharedRebalances(Updated(g, m, join, id), pick, p);
  }

  lemma SharedRemove(g: Group, m: Id, pick: Pick, p: string)
    requires Inv(g) && g.state != Dead && m in g.members && ValidPick(g, pick) && Shares(g.members, p)
    ensures var o := RemoveMember(g, m, pick); o.Next? && Shares(o.g.members, p)
  {
    hide Inv, BeforeRebalance, ValidPick, Shares, Enumerates, Rebalance, Removed;
    RemovedReady(g, m);
    RemovedShares(g, m, pick, p);
    SharedRebalances(Removed(g, m), pick, p);
  }

  lemma RemovedShares(g: Group, m: Id, pick: Pick, p: string)
    requires m in g.members && ValidPick(g, pick) && Shares(g.members, p)
    ensures var g1 := Removed(g, m); Enumerates(pick.joins, g1.members.Keys) && Shares(g1.members, p)
  {
    hide Bump, Names;
  }

  lemma SharedJoin(g: Group, id: nat, join: Join, newId: Id, pick: Pick, p: string)
    requires Inv(g) && g.state != Dead && ValidPick(g, pick)
    requires Shares(g.members, p) && p in Names(join)
    ensures var o := HandleJoin(g, id, join, newId, pick); o.Next? && Shares(o.g.members, p)
  {
    JoinCases(g, id, join, newId, pick);
    SharedCase(g, g.(protocolType := ProtocolsMatch(g, join).1), id, join, pick, HandleJoin(g, id, join, newId, pick), p);
  }

  lemma SharedCase(g: Group, g1: Group, id: nat, join: Join, pick: Pick, o: Outcome, p: string)
    requires Inv(g) && g.state != Dead && ValidPick(g, pick) && Shares(g.members, p) && p in Names(join)
    requires g1 == g.(protocolType := g1.protocolType) && JoinCase(g, g1, id, join, pick, o)
    ensures o.Next? && Shares(o.g.members, p)
  {
    var m := join.memberId;
    TypedInv(g, g1.protocolType);
    if Quiet(g, id, o) {
    } else if m in g.pending && o == AddMember(g1, m, join, id, pick) {
      SharedAdd(g1, m, join, id, pick, p);
    } else if m in g.members && o == UpdateMember(g1, m, join, id, pick) {
      SharedUpdate(g1, m, join, id, pick, p);
    } else {
      AnswerJoinInv(g1, id, m);
    }
  }

  lemma SharedSync(g: Group, id: nat, req: SyncRequest, pick: Pick, p: string)
    requires Inv(g) && g.state != Dead && Shares(g.members, p)
    ensures var o := HandleSync(g, id, req, pick); o.Next? && Shares(o.g.members, p)
  {
    hide Inv, SyncReplies, Names;
    SyncInv(g, id, req, pick);
  }

  lemma SharedSimple(g: Group, e: Event, p: string)
    requires Shares(g.members, p)
    requires e.Quit? || e.PendingTimeout? || e.HeartbeatEvent? || e.CommitEvent? || e.LeaveReply? || e.Rejected?
    ensures var o := Handle(g, e);
      if o.Next? then Shares(o.g.members, p) else e.CommitEvent? && o.reason == NoMembersButNotEmpty
  {
  }

  /** While all joins list `p`, the only step that can panic is an offset commit. */
  lemma SharedStep(w: World, e: Event, p: string)
    requires Inv(w.g) && Possible(w, e) && Shares(w.g.members, p) && (e.JoinEvent? ==> p in Names(e.join))
    ensures var o := Handle(w.g, e);
      if o.Next? then Shares(o.g.members, p) else e.CommitEvent? && o.reason == NoMembersButNotEmpty
  {
    match e
    case JoinEvent(id, join, newId, pick) => SharedJoin(w.g, id, join, newId, pick, p);
    case SyncEvent(id, req, pick) => SharedSync(w.g, id, req, pick, p);
    case LeaveOne(m, _, pick) => if m in w.g.members { SharedRemove(w.g, m, pick, p); }
    case SessionTimeout(m, pick) => SharedRemove(w.g, m, pick, p);
    case RebalanceTimeout(pick) => SharedCompletes(w.g, pick, p);
    case Quit => SharedSimple(w.g, e, p);
    case PendingTimeout(_) => SharedSimple(w.g, e, p);
    case HeartbeatEvent(_, _, _) => SharedSimple(w.g, e, p);
    case CommitEvent(_, _, _) => SharedSimple(w.g, e, p);
    case LeaveReply(_) => SharedSimple(w.g, e, p);
    case Rejected(_, _) => SharedSimple(w.g, e, p);
  }

  /** Every join of the run lists `p`. */
  ghost predicate AllJoinsList(es: seq<Event>, p: string) {
    forall j :: 0 <= j < |es| && es[j].JoinEvent? ==> p in Names(es[j].join)
  }

  lemma SharedNext(ws: seq<World>, es: seq<Event>, i: nat, p: string)
    requires IsRun(ws, es) && i < |es| && AllJoinsList(es, p) && Inv(ws[i].g) && Shares(ws[i].g.members, p)
    ensures Shares(ws[i + 1].g.members, p)
  {
    RunStep(ws, es, i);
    SharedStep(ws[i], es[i], p);
  }

  lemma {:induction false} SharedAlong(ws: seq<World>, es: seq<Event>, i: nat, p: string)
    requires IsRun(ws, es) && i < |ws| && AllJoinsList(es, p)
    ensures Shares(ws[i].g.members, p)
  {
    if i > 0 {
      SharedAlong(ws, es, i - 1, p);
      RunIsGood(ws, es, i - 1);
      SharedNext(ws, es, i - 1, p);
    }
  }

  /**
   In any run a sync never meets a parked join and the roster of a leader is
   never incomplete: only an offset commit, or the lack of a common protocol,
   can panic.
   */
  lemma OnlyTwoPanics(ws: seq<World>, es: seq<Event>, i: nat, e: Event)
    requires IsRun(ws, es) && i < |ws| && Possible(ws[i], e)
    ensures var o := Handle(ws[i].g, e);
      o.Panic? ==> o.reason == NoCommonProtocol || (e.CommitEvent? && o.reason == NoMembersButNotEmpty)
  {
    RunIsGood(ws, es, i);
    StepInv(ws[i], e);
  }

  /** No protocol is listed by all of some members. */
  ghost predicate Divided(members: map<Id, Member>) {
    members != map[] && forall p :: !Shares(members, p)
  }

  lemma CandidateIffShared(g: Group, pick: Pick)
    requires Counted(g) && g.members != map[]
    ensures HasCandidate(g.protocols, |g.members|) <==> !Divided(g.members)
  {
    if HasCandidate(g.protocols, |g.members|) {
      ChosenProtocol(g, pick);
      assert Shares(g.members, Candidate(g.protocols, |g.members|, pick.protocol));
    } else {
      forall p ensures !Shares(g.members, p) {
        if Shares(g.members, p) { SharedIsCandidate(g, p); }
      }
    }
  }

  /** A completed rebalance panics if and only if the members that stay have no protocol in common. */
  lemma CompletePanics(g: Group, pick: Pick)
    requires BeforeRebalance(g) && g.state == PreparingRebalance && OnlyJoinsWait(g.members)
    requires Enumerates(pick.joins, Staying(g.members).Keys)
    ensures CompleteRebalance(g, pick) == Panic(NoCommonProtocol) <==> Divided(Staying(g.members))
  {
    DropCounted(g);
    var g1 := Evicted(g);
    if g1.members != map[] {
      CandidateIffShared(g1, pick);
      if HasCandidate(g1.protocols, |g1.members|) {
        ChosenProtocol(g1, pick);
        AnswerJoinsEffect(
          g1.(state := CompletingRebalance, protocol := Candidate(g1.protocols, |g1.members|, pick.protocol)),
          g.leader in Staying(g.members), pick.joins);
      }
    }
  }

  lemma SameJoinsDivided(a: map<Id, Member>, b: map<Id, Member>)
    requires a.Keys == b.Keys && forall m :: m in a ==> a[m].join == b[m].join
    ensures Divided(a) <==> Divided(b)
  {
    forall p ensures Shares(a, p) <==> Shares(b, p) {
    }
  }

  /** A rebalance panics if and only if it completes at once and its members have no protocol in common. */
  lemma RebalancePanics(g: Group, pick: Pick)
    requires BeforeRebalance(g) && Enumerates(pick.joins, g.members.Keys)
    ensures Rebalance(g, pick) == Panic(NoCommonProtocol) <==> g.nJoining >= |g.members| && Divided(g.members)
  {
    PreparedReady(g);
    var g1 := Prepared(g);
    SameJoinsDivided(g.members, g1.members);
    if g1.nJoining >= |g1.members| {
      CountEvictsNobody(g1);
      CompletePanics(g1, pick);
    }
  }

  /** A member leaves or times out. */
  lemma RemovePanics(g: Group, m: Id, pick: Pick)
    requires Inv(g) && g.state != Dead && m in g.members && ValidPick(g, pick)
    ensures RemoveMember(g, m, pick) == Panic(NoCommonProtocol) <==>
      var left := Removed(g, m); left.nJoining >= |left.members| && Divided(left.members)
  {
    RemovedReady(g, m);
    RebalancePanics(Removed(g, m), pick);
  }

  /** A member joins again. */
  lemma UpdatePanics(g: Group, m: Id, join: Join, id: nat, pick: Pick)
    requires Inv(g) && g.state != Dead && m in g.members && join.memberId == m && ValidPick(g, pick)
    ensures UpdateMember(g, m, join, id, pick) == Panic(NoCommonProtocol) <==>
      var g1 := Updated(g, m, join, id); g1.nJoining >= |g.members| && Divided(g1.members)
  {
    UpdatedReady(g, m, join, id);
    UpdatedKeys(g, m, join, id, pick);
    RebalancePanics(Updated(g, m, join, id), pick);
  }

  /** A member enters. */
  lemma AddPanics(g: Group, m: Id, join: Join, id: nat, pick: Pick)
    requires Inv(g) && g.state != Dead && m in g.pending && m != "" && join.memberId == m && ValidPick(g, pick)
    ensures AddMember(g, m, join, id, pick) == Panic(NoCommonProtocol) <==>
      var g1 := Added(g, m, join, id); g1.nJoining >= |g1.members| && Divided(g1.members)
  {
    AddedReady(g, m, join, id);
    RebalancePanics(Added(g, m, join, id), pick);
  }

  /** The timer of a rebalance fires. */
  lemma TimerPanics(g: Group, pick: Pick)
    requires Inv(g) && g.state == PreparingRebalance && ValidPick(g, pick)
    ensures CompleteRebalance(g, pick) == Panic(NoCommonProtocol) <==> Divided(Staying(g.members))
  {
    CompletePanics(g, pick);
  }

  /** If all joins of a run list a common protocol, the coordinator never fails to find one. */
  lemma CommonProtocolIsFound(ws: seq<World>, es: seq<Event>, i: nat, e: Event, p: string)
    requires IsRun(ws, es) && i < |ws| && Possible(ws[i], e)
    requires AllJoinsList(es, p) && (e.JoinEvent? ==> p in Names(e.join))
    ensures Handle(ws[i].g, e).Next? || e.CommitEvent?
  {
    RunIsGood(ws, es, i);
    SharedAlong(ws, es, i, p);
    SharedStep(ws[i], e, p);
  }

  /**
   When the last member goes, the group becomes empty if and only if the join
   count has not been driven below zero; otherwise it keeps preparing a
   rebalance, and an offset commit without a member panics.
   */
  lemma LastMemberLeaves(g: Group, m: Id, pick: Pick, id: nat)
    requires g.members.Keys == {m}
    ensures var o := RemoveMember(g, m, pick);
      o.Next? && o.g.members == map[] &&
      (o.g.state == Empty <==> Removed(g, m).nJoining >= 0) &&
      (HandleOffsetCommit(o.g, id, "", -1).Panic? <==> Removed(g, m).nJoining < 0)
  {
    var g1 := Removed(g, m);
    assert g1.members == map[];
    EmptyRebalance(g1, pick);
    CommitWithoutMembers(Rebalance(g1, pick).g, id);
  }

  lemma EmptyRebalance(g: Group, pick: Pick)
    requires g.members == map[]
    ensures var o := Rebalance(g, pick);
      o.Next? && o.g.members == map[] && o.g.state == if g.nJoining >= 0 then Empty else PreparingRebalance
  {
    assert ClearSyncs(map[]) == map[] && Staying(map[]) == map[];
  }

  lemma CommitWithoutMembers(g: Group, id: nat)
    requires g.members == map[]
    ensures HandleOffsetCommit(g, id, "", -1) ==
            if g.state == Empty then Next(g, [Done(id)], None) else Panic(NoMembersButNotEmpty)
  {
  }

  lemma ParksSync(g: Group, m: Id, id: nat, pick: Pick)
    requires g.state == CompletingRebalance && m in g.members && m != g.leader
    ensures HandleSync(g, id, SyncRequest(m, g.generation, None, None, []), pick) ==
            Next(g.(members := g.members[m := g.members[m].(waiting := Some(ParkedSync(id, g.generation)))]), [], None)
  {
  }

  lemma SyncerLeaves(g: Group, m: Id, other: Id, pick: Pick)
    requires g.state == CompletingRebalance && g.nJoining == 0 && g.members.Keys == {m, other} && m != other
    requires WaitsInSync(g.members[m]) && g.members[other].waiting.None?
    ensures var o := RemoveMember(g, m, pick);
      o.Next? && o.g.nJoining == -1 && o.g.members.Keys == {other} && o.g.members[other].waiting.None? &&
      o.g.state == PreparingRebalance && o.g.pending == g.pending
  {
    var members := ClearSyncs(Removed(g, m).members);
    assert members.Keys == {other};
    assert |members.Keys| == |members|;
  }

  /** A member that waits in sync leaves, then the only other one. */
  lemma BothLeave(g: Group, m: Id, other: Id, id: nat, pick: Pick)
    requires g.state == CompletingRebalance && g.nJoining == 0 && g.members.Keys == {m, other} && m != other
    requires WaitsInSync(g.members[m]) && g.members[other].waiting.None?
    ensures
      var o2 := RemoveMember(g, m, pick);
      o2.Next? && other in o2.g.members &&
      var o3 := RemoveMember(o2.g, other, pick);
      o3.Next? && HandleOffsetCommit(o3.g, id, "", -1) == Panic(NoMembersButNotEmpty)
  {
    SyncerLeaves(g, m, other, pick);
    LastMemberPanics(RemoveMember(g, m, pick).g, other, pick, id);
  }

  lemma LastMemberPanics(g: Group, m: Id, pick: Pick, id: nat)
    requires g.members.Keys == {m} && g.members[m].waiting.None? && g.nJoining < 0
    ensures var o := RemoveMember(g, m, pick);
      o.Next? && o.g.state == PreparingRebalance && HandleOffsetCommit(o.g, id, "", -1) == Panic(NoMembersButNotEmpty)
  {
    var g1 := Removed(g, m);
    assert g1.members == map[];
    EmptyRebalance(g1, pick);
    CommitWithoutMembers(Rebalance(g1, pick).g, id);
  }

  /**
   Any group of two that waits for its leader's assignment gets there: the
   other member syncs and leaves, then the leader leaves, and a commit panics.
   */
  lemma StrandedGroup(g: Group, leader: Id, other: Id, id: nat, pick: Pick, commit: nat)
    requires Inv(g) && g.state == CompletingRebalance && NobodyWaits(g.members)
    requires g.leader == leader && leader != other && g.members.Keys == {leader, other}
    ensures
      var o1 := HandleSync(g, id, SyncRequest(other, g.generation, None, None, []), pick);
      o1.Next? && other in o1.g.members &&
      var o2 := RemoveMember(o1.g, other, pick);
      o2.Next? && leader in o2.g.members &&
      var o3 := RemoveMember(o2.g, leader, pick);
      o3.Next? && HandleOffsetCommit(o3.g, commit, "", -1) == Panic(NoMembersButNotEmpty)
  {
    ParksSync(g, other, id, pick);
    var members := g.members[other := g.members[other].(waiting := Some(ParkedSync(id, g.generation)))];
    assert members.Keys == {leader, other};
    BothLeave(g.(members := members), other, leader, commit, pick);
  }

  // ---------------------------------------------------------------------
  // Leaders
  // ---------------------------------------------------------------------

  ghost predicate NamesLeader(r: Reply, g: Group, foundLeader: bool) {
    r.JoinOk? && r.generation == g.generation && r.protocol == g.protocol &&
    r.leader == if foundLeader then g.leader else r.member
  }

  predicate Waits(members: map<Id, Member>, m: Id) { m in members && members[m].waiting.Some? }

  predicate SameMember(r: Reply, s: Reply) { r.JoinOk? && s.JoinOk? && r.member == s.member }

  /** The reply answers the request that its member has parked. */
  ghost predicate AnswersOwn(r: Reply, g: Group, order: seq<Id>) {
    r.JoinOk? && r.member in order && Waits(g.members, r.member) && r.id == g.members[r.member].waiting.value.id
  }

  ghost predicate Answered(replies: seq<Reply>, m: Id) {
    exists i :: 0 <= i < |replies| && replies[i].JoinOk? && replies[i].member == m
  }

  /** Every parked request of the members in `order` gets exactly one reply, and nobody else gets one. */
  ghost predicate Told(replies: seq<Reply>, g: Group, foundLeader: bool, order: seq<Id>) {
    (forall i :: 0 <= i < |replies| ==> NamesLeader(replies[i], g, foundLeader) && AnswersOwn(replies[i], g, order)) &&
    (forall i, j :: 0 <= i < j < |replies| ==> !SameMember(replies[i], replies[j])) &&
    (forall m :: m in order && Waits(g.members, m) ==> Answered(replies, m))
  }

  lemma AnsweredMore(first: Reply, rest: seq<Reply>, m: Id)
    requires first.JoinOk? && (first.member == m || Answered(rest, m))
    ensures Answered([first] + rest, m)
  {
    if first.member == m {
      assert ([first] + rest)[0] == first;
    } else {
      var i :| 0 <= i < |rest| && rest[i].JoinOk? && rest[i].member == m;
      assert ([first] + rest)[i + 1] == rest[i];
    }
  }

  lemma OwnMore(r: Reply, g: Group, g1: Group, order: seq<Id>)
    requires order != [] && AnswersOwn(r, g1, order[1..])
    requires forall m :: m in order[1..] ==> (m in g.members <==> m in g1.members)
    requires forall m :: m in order[1..] && m in g.members ==> g1.members[m] == g.members[m]
    ensures AnswersOwn(r, g, order)
  {
  }

  lemma ToldMore(first: Reply, rest: seq<Reply>, g: Group, g1: Group, foundLeader: bool, order: seq<Id>)
    requires order != [] && order[0] !in order[1..]
    requires Told(rest, g1, foundLeader, order[1..]) && NamesLeader(first, g, foundLeader)
    requires AnswersOwn(first, g, order) && first.member == order[0]
    requires g1.generation == g.generation && g1.protocol == g.protocol && (foundLeader ==> g1.leader == g.leader)
    requires order[0] in g1.members && g1.members == g.members[order[0] := g1.members[order[0]]]
    ensures Told([first] + rest, g, foundLeader, order)
  {
    forall i | 0 <= i < |rest| ensures NamesLeader(rest[i], g, foundLeader) && AnswersOwn(rest[i], g, order) {
      OwnMore(rest[i], g, g1, order);
    }
    forall m | m in order && Waits(g.members, m) ensures Answered([first] + rest, m) {
      if m != order[0] { assert m in order[1..] && Waits(g1.members, m); }
      AnsweredMore(first, rest, m);
    }
  }

  lemma ToldLater(replies: seq<Reply>, g: Group, foundLeader: bool, order: seq<Id>)
    requires order != [] && !Waits(g.members, order[0]) && Told(replies, g, foundLeader, order[1..])
    ensures Told(replies, g, foundLeader, order)
  {
    forall i | 0 <= i < |replies| ensures AnswersOwn(replies[i], g, order) {
      OwnMore(replies[i], g, g, order);
    }
    forall m | m in order && Waits(g.members, m) ensures Answered(replies, m) {
      assert m in order[1..];
    }
  }

  /** Every parked join is answered exactly once; without the old leader, each answer says that its receiver leads. */
  lemma {:induction false} LeadersTold(g: Group, foundLeader: bool, order: seq<Id>)
    requires forall m :: m in g.members ==> g.members[m].join.memberId == m
    requires forall i, j :: 0 <= i < j < |order| ==> order[i] != order[j]
    ensures var o := AnswerJoins(g, foundLeader, order); o.Next? ==> Told(o.replies, g, foundLeader, order)
    decreases |order|
  {
    if order != [] {
      if !Waits(g.members, order[0]) {
        LeadersTold(g, foundLeader, order[1..]);
        var o := AnswerJoins(g, foundLeader, order[1..]);
        if o.Next? { ToldLater(o.replies, g, foundLeader, order); }
      } else {
        FirstTold(g, foundLeader, order);
      }
    }
  }

  lemma {:induction false} FirstTold(g: Group, foundLeader: bool, order: seq<Id>)
    requires forall m :: m in g.members ==> g.members[m].join.memberId == m
    requires forall i, j :: 0 <= i < j < |order| ==> order[i] != order[j]
    requires order != [] && Waits(g.members, order[0])
    ensures var o := AnswerJoins(g, foundLeader, order); o.Next? ==> Told(o.replies, g, foundLeader, order)
    decreases |order|, 0
  {
    var m := order[0];
    var g1 := if foundLeader then g else g.(leader := m);
    var g2 := g1.(members := g1.members[m := g1.members[m].(waiting := None)]);
    LeadersTold(g2, foundLeader, order[1..]);
    var first := FillJoin(g1, g1.members[m].waiting.value.id, m);
    var o := AnswerJoins(g2, foundLeader, order[1..]);
    if first.Some? && o.Next? { ToldMore(first.value, o.replies, g, g2, foundLeader, order); }
  }

  predicate SelfLed(r: Reply) { r.JoinOk? && r.leader == r.member }

  /** No two members are told that they lead. */
  ghost predicate OneLeader(replies: seq<Reply>) {
    forall i, j :: 0 <= i < j < |replies| ==> !(SelfLed(replies[i]) && SelfLed(replies[j]))
  }

  /** No two members wait for an answer. */
  ghost predicate OneWaits(members: map<Id, Member>) {
    forall a, b :: Waits(members, a) && Waits(members, b) ==> a == b
  }

  lemma OneAnswered(replies: seq<Reply>, g: Group, foundLeader: bool, order: seq<Id>)
    requires Told(replies, g, foundLeader, order) && forall m :: m in g.members ==> m in order
    ensures |replies| <= 1 <==> OneWaits(g.members)
  {
    if |replies| > 1 {
      assert AnswersOwn(replies[0], g, order) && AnswersOwn(replies[1], g, order) && !SameMember(replies[0], replies[1]);
      assert Waits(g.members, replies[0].member) && Waits(g.members, replies[1].member);
    } else {
      forall a, b | Waits(g.members, a) && Waits(g.members, b) ensures a == b {
        assert Answered(replies, a) && Answered(replies, b);
      }
    }
  }

  lemma OneLeaderAmong(g: Group, foundLeader: bool, order: seq<Id>)
    requires forall m :: m in g.members ==> g.members[m].join.memberId == m
    requires Enumerates(order, g.members.Keys)
    ensures var o := AnswerJoins(g, foundLeader, order);
      o.Next? ==> (OneLeader(o.replies) <==> foundLeader || OneWaits(g.members))
  {
    LeadersTold(g, foundLeader, order);
    var o := AnswerJoins(g, foundLeader, order);
    if o.Next? {
      OneAnswered(o.replies, g, foundLeader, order);
      SelfLedReplies(o.replies, g, foundLeader, order);
    }
  }

  lemma SelfLedReplies(replies: seq<Reply>, g: Group, foundLeader: bool, order: seq<Id>)
    requires Told(replies, g, foundLeader, order)
    ensures OneLeader(replies) <==> foundLeader || |replies| <= 1
  {
    if foundLeader {
      forall i, j | 0 <= i < j < |replies| ensures !(SelfLed(replies[i]) && SelfLed(replies[j])) {
        assert NamesLeader(replies[i], g, foundLeader) && NamesLeader(replies[j], g, foundLeader);
        assert !SameMember(replies[i], replies[j]);
      }
    } else if |replies| > 1 {
      assert SelfLed(replies[0]) && SelfLed(replies[1]);
    }
  }

  /** The old leader goes and two or more members stay. */
  ghost predicate LosesLeader(g: Group) {
    g.leader !in Staying(g.members) && !OneWaits(g.members)
  }

  lemma StayingWait(members: map<Id, Member>)
    ensures OneWaits(Staying(members)) <==> OneWaits(members)
  {
    assert forall m :: Waits(Staying(members), m) <==> Waits(members, m);
  }

  /** A completed rebalance tells at most one member that it leads, unless it loses the leader: then all of them. */
  lemma CompletedLeaders(g: Group, pick: Pick)
    requires forall m :: m in g.members ==> g.members[m].join.memberId == m
    requires Enumerates(pick.joins, Staying(g.members).Keys)
    ensures var o := CompleteRebalance(g, pick); o.Next? ==> (OneLeader(o.replies) <==> !LosesLeader(g))
  {
    var g1 := Evicted(g);
    StayingWait(g.members);
    if g1.members != map[] && HasCandidate(g1.protocols, |g1.members|) {
      OneLeaderAmong(g1.(state := CompletingRebalance, protocol := Candidate(g1.protocols, |g1.members|, pick.protocol)),
                     g.leader in Staying(g.members), pick.joins);
    }
  }

  lemma {:induction false} RefusalsNameNobody(members: map<Id, Member>, order: seq<Id>)
    ensures forall r :: r in SyncRefusals(members, order) ==> r.Refused?
  {
    if order != [] { RefusalsNameNobody(members, order[1..]); }
  }

  lemma OneLeaderAfter(refusals: seq<Reply>, replies: seq<Reply>)
    requires forall r :: r in refusals ==> r.Refused?
    ensures OneLeader(refusals + replies) <==> OneLeader(replies)
  {
    var all := refusals + replies;
    if OneLeader(all) {
      forall i, j | 0 <= i < j < |replies| ensures !(SelfLed(replies[i]) && SelfLed(replies[j])) {
        assert all[|refusals| + i] == replies[i] && all[|refusals| + j] == replies[j];
      }
    }
    forall i | 0 <= i < |refusals| ensures !SelfLed(all[i]) {
      assert all[i] == refusals[i] && refusals[i] in refusals;
    }
  }

  /** The group once its parked syncs have been refused. */
  function Prepared(g: Group): Group {
    g.(members := if g.state == CompletingRebalance then ClearSyncs(g.members) else g.members, state := PreparingRebalance)
  }

  /**
   However a rebalance comes about, it tells at most one member that it leads
   if and only if it does not complete at once, or the old leader stays, or at
   most one member does.
   */
  lemma RebalanceLeaders(g: Group, pick: Pick)
    requires forall m :: m in g.members ==> g.members[m].join.memberId == m
    requires Enumerates(pick.joins, g.members.Keys)
    ensures var o := Rebalance(g, pick);
      o.Next? ==> (OneLeader(o.replies) <==> g.nJoining < |Prepared(g).members| || !LosesLeader(Prepared(g)))
  {
    var g1 := Prepared(g);
    var refusals := if g.state == CompletingRebalance then SyncRefusals(g.members, pick.syncs) else [];
    RefusalsNameNobody(g.members, pick.syncs);
    if g1.nJoining >= |g1.members| {
      CompletedLeaders(g1, pick);
      var o := CompleteRebalance(g1, pick);
      if o.Next? { OneLeaderAfter(refusals, o.replies); }
    } else {
      OneLeaderAfter(refusals, []);
      assert refusals + [] == refusals;
    }
  }

  lemma PreparedReady(g: Group)
    requires BeforeRebalance(g)
    ensures BeforeRebalance(Prepared(g)) && OnlyJoinsWait(Prepared(g).members)
    ensures Prepared(g).members.Keys == g.members.Keys && |Prepared(g).members| == |g.members|
  {
    ClearCounted(g);
    assert JoinWaiters(ClearSyncs(g.members)) == JoinWaiters(g.members);
    SameSize(g.members, Prepared(g).members);
  }

  lemma SameSize(a: map<Id, Member>, b: map<Id, Member>)
    requires a.Keys == b.Keys
    ensures |a| == |b|
  {
    assert |a| == |a.Keys| && |b| == |b.Keys|;
  }

  lemma AllWait(members: map<Id, Member>)
    requires Staying(members) == members
    ensures OneWaits(members) <==> |members| <= 1
  {
    forall m | m in members ensures Waits(members, m) {
      assert m in Staying(members);
    }
    assert |members| == |members.Keys|;
    if |members| > 1 {
      var a :| a in members;
      assert |members.Keys - {a}| > 0;
      var b :| b in members.Keys - {a};
      assert Waits(members, a) && Waits(members, b);
    } else {
      forall a, b | Waits(members, a) && Waits(members, b) ensures a == b {
        if a != b { SubsetSize({a, b}, members.Keys); }
      }
    }
  }

  /** In an operation of a good group: all that stay are told so exactly when the leader is gone and two are left. */
  lemma CountedLeaders(g: Group, pick: Pick)
    requires BeforeRebalance(g) && Enumerates(pick.joins, g.members.Keys)
    ensures var o := Rebalance(g, pick);
      o.Next? ==> (OneLeader(o.replies) <==> g.nJoining < |g.members| || g.leader in g.members || |g.members| <= 1)
  {
    RebalanceLeaders(g, pick);
    PreparedReady(g);
    var g1 := Prepared(g);
    if g1.nJoining >= |g1.members| {
      CountEvictsNobody(g1);
      AllWait(g1.members);
    }
  }

  /** A member leaves or times out. */
  lemma RemoveLeaders(g: Group, m: Id, pick: Pick)
    requires Inv(g) && g.state != Dead && m in g.members && ValidPick(g, pick)
    ensures var o, left := RemoveMember(g, m, pick), g.members.Keys - {m};
      o.Next? ==> (OneLeader(o.replies) <==> Removed(g, m).nJoining < |left| || g.leader in left || |left| <= 1)
  {
    RemovedReady(g, m);
    CountedLeaders(Removed(g, m), pick);
    var members := Removed(g, m).members;
    assert members.Keys == g.members.Keys - {m} && |members| == |members.Keys|;
  }

  /** A member joins again. */
  lemma UpdateLeaders(g: Group, m: Id, join: Join, id: nat, pick: Pick)
    requires Inv(g) && g.state != Dead && m in g.members && join.memberId == m && ValidPick(g, pick)
    ensures var o := UpdateMember(g, m, join, id, pick);
      o.Next? ==>
        (OneLeader(o.replies) <==>
          Updated(g, m, join, id).nJoining < |g.members| || g.leader in g.members || |g.members| <= 1)
  {
    UpdatedReady(g, m, join, id);
    UpdatedKeys(g, m, join, id, pick);
    CountedLeaders(Updated(g, m, join, id), pick);
  }

  lemma UpdatedKeys(g: Group, m: Id, join: Join, id: nat, pick: Pick)
    requires m in g.members && ValidPick(g, pick)
    ensures var g1 := Updated(g, m, join, id);
      g1.members.Keys == g.members.Keys && |g1.members| == |g.members| && g1.leader == g.leader &&
      Enumerates(pick.joins, g1.members.Keys)
  {
    var g1 := Updated(g, m, join, id);
    assert g1.members.Keys == g.members.Keys;
    SameSize(g.members, g1.members);
  }

  /** A member enters, which leaves somebody to wait for unless it is the only one. */
  lemma AddLeaders(g: Group, m: Id, join: Join, id: nat, pick: Pick)
    requires Inv(g) && g.state != Dead && m in g.pending && m != "" && join.memberId == m && ValidPick(g, pick)
    ensures var o, g1 := AddMember(g, m, join, id, pick), Added(g, m, join, id);
      o.Next? ==>
        (OneLeader(o.replies) <==> g1.nJoining < |g1.members| || g.leader in g1.members || |g1.members| <= 1)
  {
    AddedReady(g, m, join, id);
    CountedLeaders(Added(g, m, join, id), pick);
  }

  /** The timer of a rebalance fires. */
  lemma TimerLeaders(g: Group, pick: Pick)
    requires Inv(g) && g.state == PreparingRebalance && ValidPick(g, pick)
    ensures var o := CompleteRebalance(g, pick); o.Next? ==> (OneLeader(o.replies) <==> !LosesLeader(g))
  {
    CompletedLeaders(g, pick);
  }
}
