/**
 What every request, timeout and rebalance of a group keeps: which requests are
 parked in which state, exact protocol counters, and a member as leader.
 */
module GroupInvariant {
  import opened Wrappers
  import opened Varints
  import opened Groups

  // ---------------------------------------------------------------------
  // The invariant
  // ---------------------------------------------------------------------

  /** Each protocol counter is the number of current members that list the protocol. */
  ghost predicate Counted(g: Group) {
    forall p :: Count(g.protocols, p) == |Supporters(g.members, p)|
  }

  ghost predicate Identified(g: Group) {
    "" !in g.pending && g.members.Keys !! g.pending.Keys &&
    forall m :: m in g.members ==> m != "" && g.members[m].join.memberId == m
  }

  ghost predicate NobodyWaits(members: map<Id, Member>) {
    forall m :: m in members ==> members[m].waiting.None?
  }

  ghost predicate OnlyJoinsWait(members: map<Id, Member>) {
    forall m :: m in members ==> !WaitsInSync(members[m])
  }

  /** Only syncs of the current generation wait. */
  ghost predicate OnlySyncsWait(members: map<Id, Member>, generation: int) {
    forall m :: m in members ==>
      members[m].waiting.None? || (WaitsInSync(members[m]) && members[m].waiting.value.generation == generation)
  }

  /** There is a leader among the members, and every member lists the chosen protocol. */
  ghost predicate Led(g: Group) {
    g.leader in g.members && forall m :: m in g.members ==> g.protocol in Names(g.members[m].join)
  }

  ghost predicate Inv(g: Group) {
    Counted(g) && Identified(g) && 0 <= g.generation <= 0x7fff_ffff &&
    (g.state != Dead ==> (g.timer <==> g.state == PreparingRebalance)) &&
    match g.state
    case Empty => g.members == map[] && g.nJoining == 0
    case PreparingRebalance =>
      OnlyJoinsWait(g.members) && g.nJoining <= |JoinWaiters(g.members)| && g.nJoining < |g.members|
    case CompletingRebalance => OnlySyncsWait(g.members, g.generation) && g.nJoining == 0 && Led(g)
    case Stable => NobodyWaits(g.members) && g.nJoining == 0 && Led(g)
    case Dead => true
  }

  /** Between an operation's own changes and the rebalance that ends it. */
  ghost predicate BeforeRebalance(g: Group) {
    Counted(g) && Identified(g) && 0 <= g.generation <= 0x7fff_ffff &&
    (g.timer ==> g.state == PreparingRebalance) && g.nJoining <= |JoinWaiters(g.members)| &&
    (g.state != CompletingRebalance ==> OnlyJoinsWait(g.members))
  }

  ghost predicate Enumerates(order: seq<Id>, ids: set<Id>) {
    (forall m :: m in ids ==> m in order) &&
    (forall i, j :: 0 <= i < j < |order| ==> order[i] != order[j])
  }

  ghost predicate ValidPick(g: Group, pick: Pick) {
    Enumerates(pick.syncs, g.members.Keys + g.pending.Keys) && Enumerates(pick.joins, g.members.Keys + g.pending.Keys)
  }

  // ---------------------------------------------------------------------
  // Counting supporters
  // ---------------------------------------------------------------------

  lemma SameJoinsSameSupporters(a: map<Id, Member>, b: map<Id, Member>, p: string)
    requires a.Keys == b.Keys && forall m :: m in a ==> a[m].join == b[m].join
    ensures Supporters(a, p) == Supporters(b, p)
  {
  }

  lemma SupportersWith(members: map<Id, Member>, m: Id, member: Member, p: string)
    requires m !in members
    ensures |Supporters(members[m := member], p)| ==
            |Supporters(members, p)| + if p in Names(member.join) then 1 else 0
  {
    if p in Names(member.join) {
      assert Supporters(members[m := member], p) == Supporters(members, p) + {m};
    } else {
      assert Supporters(members[m := member], p) == Supporters(members, p);
    }
  }

  lemma SupportersWithout(members: map<Id, Member>, m: Id, p: string)
    requires m in members
    ensures |Supporters(members - {m}, p)| ==
            |Supporters(members, p)| - if p in Names(members[m].join) then 1 else 0
  {
    assert (members - {m})[m := members[m]] == members;
    SupportersWith(members - {m}, m, members[m], p);
  }

  lemma SupportersSplit(members: map<Id, Member>, p: string)
    ensures |Supporters(members, p)| == |Supporters(Staying(members), p)| + |Supporters(Leaving(members), p)|
  {
    assert Supporters(members, p) == Supporters(Staying(members), p) + Supporters(Leaving(members), p);
    assert Supporters(Staying(members), p) !! Supporters(Leaving(members), p);
  }

  /** A protocol that all members support is one that every member lists. */
  lemma CommonProtocol(members: map<Id, Member>, p: string)
    requires |Supporters(members, p)| == |members|
    ensures forall m :: m in members ==> p in Names(members[m].join)
  {
    SubsetOfSameSize(Supporters(members, p), members.Keys);
    assert |members.Keys| == |members|;
  }

  lemma {:induction false} MetadataFound(ps: seq<Protocol>, name: string)
    ensures Metadata(ps, name).Some? <==> exists i :: 0 <= i < |ps| && ps[i].name == name
  {
    if ps != [] && ps[0].name != name {
      MetadataFound(ps[1..], name);
      if Metadata(ps[1..], name).Some? {
        var i :| 0 <= i < |ps[1..]| && ps[1..][i].name == name;
        assert ps[i + 1].name == name;
      } else {
        forall i | 0 <= i < |ps| ensures ps[i].name != name {
          if i > 0 { assert ps[1..][i - 1] == ps[i]; }
        }
      }
    }
  }

  lemma NamedMetadata(j: Join, name: string)
    ensures Metadata(j.protocols, name).Some? <==> name in Names(j)
  {
    MetadataFound(j.protocols, name);
  }

  // ---------------------------------------------------------------------
  // Answering the parked joins
  // ---------------------------------------------------------------------

  /** The members once those in `order` have been answered. */
  function Unpark(members: map<Id, Member>, order: seq<Id>): map<Id, Member> {
    map m | m in members :: if m in order then members[m].(waiting := None) else members[m]
  }

  /** The leader once those in `order` have been answered. */
  function LastLeader(members: map<Id, Member>, foundLeader: bool, leader: Id, order: seq<Id>): Id
    decreases |order|
  {
    if order == [] then leader
    else if foundLeader || order[0] !in members || members[order[0]].waiting.None? then
      LastLeader(members, foundLeader, leader, order[1..])
    else LastLeader(members, foundLeader, order[0], order[1..])
  }

  lemma RosterComplete(g: Group)
    requires forall m :: m in g.members ==> g.protocol in Names(g.members[m].join)
    ensures Roster(g.members, g.protocol).Some?
  {
    forall m | m in g.members ensures Metadata(g.members[m].join.protocols, g.protocol).Some? {
      NamedMetadata(g.members[m].join, g.protocol);
    }
  }

  ghost predicate AnswersTo(g: Group, foundLeader: bool, order: seq<Id>, o: Outcome) {
    o.Next? && o.install.None? &&
    o.g == g.(members := Unpark(g.members, order), leader := LastLeader(g.members, foundLeader, g.leader, order))
  }

  lemma {:induction false} AnswerJoinsEffect(g: Group, foundLeader: bool, order: seq<Id>)
    requires forall m :: m in g.members ==> g.protocol in Names(g.members[m].join)
    requires forall i, j :: 0 <= i < j < |order| ==> order[i] != order[j]
    ensures AnswersTo(g, foundLeader, order, AnswerJoins(g, foundLeader, order))
    decreases |order|
  {
    if order == [] {
      assert Unpark(g.members, order) == g.members;
    } else if order[0] !in g.members || g.members[order[0]].waiting.None? {
      AnswerJoinsEffect(g, foundLeader, order[1..]);
      assert Unpark(g.members, order) == Unpark(g.members, order[1..]);
    } else {
      AnswerFirst(g, foundLeader, order);
    }
  }

  lemma {:induction false} AnswerFirst(g: Group, foundLeader: bool, order: seq<Id>)
    requires forall m :: m in g.members ==> g.protocol in Names(g.members[m].join)
    requires forall i, j :: 0 <= i < j < |order| ==> order[i] != order[j]
    requires order != [] && order[0] in g.members && g.members[order[0]].waiting.Some?
    ensures AnswersTo(g, foundLeader, order, AnswerJoins(g, foundLeader, order))
    decreases |order|, 0
  {
    var m := order[0];
    var g1 := if foundLeader then g else g.(leader := m);
    RosterComplete(g1);
    var members := g1.members[m := g1.members[m].(waiting := None)];
    AnswerJoinsEffect(g1.(members := members), foundLeader, order[1..]);
    UnparkFirst(g.members, order);
    SameLastLeader(g.members, members, foundLeader, g1.leader, order[1..]);
  }

  lemma UnparkFirst(members: map<Id, Member>, order: seq<Id>)
    requires order != [] && order[0] in members
    ensures Unpark(members[order[0] := members[order[0]].(waiting := None)], order[1..]) == Unpark(members, order)
  {
  }

  lemma {:induction false} SameLastLeader(
      a: map<Id, Member>, b: map<Id, Member>, foundLeader: bool, leader: Id, order: seq<Id>)
    requires forall m :: m in order ==> (m in a <==> m in b) && (m in a ==> a[m].waiting == b[m].waiting)
    ensures LastLeader(a, foundLeader, leader, order) == LastLeader(b, foundLeader, leader, order)
    decreases |order|
  {
    if order != [] {
      SameLastLeader(a, b, foundLeader, if foundLeader || order[0] !in a || a[order[0]].waiting.None? then leader else order[0],
                     order[1..]);
    }
  }

  lemma {:induction false} LastLeaderIsMember(members: map<Id, Member>, foundLeader: bool, leader: Id, order: seq<Id>)
    requires foundLeader ==> leader in members
    requires !foundLeader ==> leader in members || exists m :: m in order && m in members && members[m].waiting.Some?
    ensures LastLeader(members, foundLeader, leader, order) in members
    decreases |order|
  {
    if order != [] {
      var next := if foundLeader || order[0] !in members || members[order[0]].waiting.None? then leader else order[0];
      LastLeaderIsMember(members, foundLeader, next, order[1..]);
    }
  }

  // ---------------------------------------------------------------------
  // Completing a rebalance
  // ---------------------------------------------------------------------

  lemma DropCounted(g: Group)
    requires Counted(g)
    ensures Counted(g.(members := Staying(g.members), protocols := Drop(g.protocols, Leaving(g.members))))
  {
    forall p ensures Count(Drop(g.protocols, Leaving(g.members)), p) == |Supporters(Staying(g.members), p)| {
      SupportersSplit(g.members, p);
      assert Count(g.protocols, p) == |Supporters(g.members, p)|;
    }
  }

  lemma UnparkCounted(g: Group, order: seq<Id>)
    requires Counted(g)
    ensures Counted(g.(members := Unpark(g.members, order)))
  {
    forall p ensures Count(g.protocols, p) == |Supporters(Unpark(g.members, order), p)| {
      SameJoinsSameSupporters(g.members, Unpark(g.members, order), p);
    }
  }

  /** The group between choosing a protocol and answering the joins. */
  ghost predicate Answerable(g: Group, foundLeader: bool) {
    Counted(g) && Identified(g) && 0 <= g.generation <= 0x7fff_ffff && !g.timer && g.nJoining == 0 &&
    g.state == CompletingRebalance && g.members != map[] && (foundLeader <==> g.leader in g.members) &&
    forall m :: m in g.members ==> g.members[m].waiting.Some? && g.protocol in Names(g.members[m].join)
  }

  lemma AnsweredInv(g: Group, foundLeader: bool, order: seq<Id>)
    requires Answerable(g, foundLeader) && Enumerates(order, g.members.Keys)
    ensures var o := AnswerJoins(g, foundLeader, order);
      o.Next? && Inv(o.g) && o.g.state == CompletingRebalance && NobodyWaits(o.g.members)
  {
    AnswerJoinsEffect(g, foundLeader, order);
    UnparkCounted(g, order);
    var m :| m in g.members;
    LastLeaderIsMember(g.members, foundLeader, g.leader, order);
  }

  lemma ChosenProtocol(g: Group, pick: Pick)
    requires Counted(g) && g.members != map[] && HasCandidate(g.protocols, |g.members|)
    ensures var p := Candidate(g.protocols, |g.members|, pick.protocol);
      forall m :: m in g.members ==> p in Names(g.members[m].join)
  {
    var p := Candidate(g.protocols, |g.members|, pick.protocol);
    assert Count(g.protocols, p) == |Supporters(g.members, p)|;
    CommonProtocol(g.members, p);
  }

  /** Completing a rebalance ends in a good state, unless no protocol is common to those that stay. */
  lemma CompleteInv(g: Group, pick: Pick)
    requires BeforeRebalance(g) && g.state == PreparingRebalance && OnlyJoinsWait(g.members)
    requires Enumerates(pick.joins, Staying(g.members).Keys)
    ensures var o := CompleteRebalance(g, pick);
      if o.Next? then Inv(o.g) && (o.g.state == Empty || o.g.state == CompletingRebalance)
      else o.reason == NoCommonProtocol
  {
    DropCounted(g);
    var members := Staying(g.members);
    var counts := Drop(g.protocols, Leaving(g.members));
    if members != map[] && HasCandidate(counts, |members|) {
      var g1 := g.(timer := false, nJoining := 0, members := members, protocols := counts,
                   generation := NextGeneration(g.generation));
      ChosenProtocol(g1, pick);
      AnsweredInv(g1.(state := CompletingRebalance, protocol := Candidate(counts, |members|, pick.protocol)),
                  g.leader in members, pick.joins);
    }
  }

  lemma ClearCounted(g: Group)
    requires Counted(g)
    ensures Counted(g.(members := ClearSyncs(g.members)))
  {
    forall p ensures Count(g.protocols, p) == |Supporters(ClearSyncs(g.members), p)| {
      SameJoinsSameSupporters(g.members, ClearSyncs(g.members), p);
    }
  }

  /** If the rebalance completes at once, every member that stays is in the order of the answers. */
  ghost predicate AnswersAll(g: Group, pick: Pick) {
    var members := if g.state == CompletingRebalance then ClearSyncs(g.members) else g.members;
    g.nJoining >= |members| ==> Enumerates(pick.joins, Staying(members).Keys)
  }

  lemma RebalanceInv(g: Group, pick: Pick)
    requires BeforeRebalance(g) && AnswersAll(g, pick)
    ensures var o := Rebalance(g, pick);
      if o.Next? then Inv(o.g) && o.g.state in {Empty, PreparingRebalance, CompletingRebalance}
      else o.reason == NoCommonProtocol
  {
    ClearCounted(g);
    assert JoinWaiters(ClearSyncs(g.members)) == JoinWaiters(g.members);
    var members := if g.state == CompletingRebalance then ClearSyncs(g.members) else g.members;
    var g1 := g.(members := members, state := PreparingRebalance);
    if g1.nJoining >= |g1.members| { CompleteInv(g1, pick); }
  }

  /** A rebalance that completes by count, and not by its timer, evicts nobody. */
  lemma CountEvictsNobody(g: Group)
    requires BeforeRebalance(g) && OnlyJoinsWait(g.members) && g.nJoining >= |g.members|
    ensures Staying(g.members) == g.members && g.nJoining == |g.members|
  {
    assert JoinWaiters(g.members) <= g.members.Keys;
    assert |g.members.Keys| == |g.members|;
    SubsetSize(JoinWaiters(g.members), g.members.Keys);
    SubsetOfSameSize(JoinWaiters(g.members), g.members.Keys);
    assert forall m :: m in g.members ==> m in JoinWaiters(g.members);
  }

  // ---------------------------------------------------------------------
  // Members coming and going
  // ---------------------------------------------------------------------

  lemma WaitersWith(members: map<Id, Member>, m: Id, member: Member)
    requires m !in members
    ensures |JoinWaiters(members[m := member])| == |JoinWaiters(members)| + if WaitsInJoin(member) then 1 else 0
  {
    if WaitsInJoin(member) {
      assert JoinWaiters(members[m := member]) == JoinWaiters(members) + {m};
    } else {
      assert JoinWaiters(members[m := member]) == JoinWaiters(members);
    }
  }

  lemma WaitersWithout(members: map<Id, Member>, m: Id)
    requires m in members
    ensures |JoinWaiters(members - {m})| == |JoinWaiters(members)| - if WaitsInJoin(members[m]) then 1 else 0
  {
    assert (members - {m})[m := members[m]] == members;
    WaitersWith(members - {m}, m, members[m]);
  }

  lemma RemoveCounted(g: Group, m: Id)
    requires Counted(g) && m in g.members
    ensures Counted(g.(members := g.members - {m}, protocols := Bump(g.protocols, g.members[m].join, -1)))
  {
    forall p ensures Count(Bump(g.protocols, g.members[m].join, -1), p) == |Supporters(g.members - {m}, p)| {
      SupportersWithout(g.members, m, p);
      assert Count(g.protocols, p) == |Supporters(g.members, p)|;
    }
  }

  lemma AddCounted(g: Group, m: Id, member: Member)
    requires Counted(g) && m !in g.members
    ensures Counted(g.(members := g.members[m := member], protocols := Bump(g.protocols, member.join, 1)))
  {
    forall p ensures Count(Bump(g.protocols, member.join, 1), p) == |Supporters(g.members[m := member], p)| {
      SupportersWith(g.members, m, member, p);
      assert Count(g.protocols, p) == |Supporters(g.members, p)|;
    }
  }

  lemma UpdateCounted(g: Group, m: Id, member: Member)
    requires Counted(g) && m in g.members
    ensures Counted(g.(members := g.members[m := member],
                       protocols := Bump(Bump(g.protocols, g.members[m].join, -1), member.join, 1)))
  {
    RemoveCounted(g, m);
    var without := g.(members := g.members - {m}, protocols := Bump(g.protocols, g.members[m].join, -1));
    AddCounted(without, m, member);
    assert (g.members - {m})[m := member] == g.members[m := member];
  }

  lemma NobodyJoins(members: map<Id, Member>)
    requires forall m :: m in members ==> !WaitsInJoin(members[m])
    ensures JoinWaiters(members) == {}
  {
  }

  /** In a good state the join count never exceeds the joins that are parked. */
  lemma JoinCount(g: Group)
    requires Inv(g) && g.state != Dead
    ensures g.nJoining <= |JoinWaiters(g.members)|
    ensures g.state != PreparingRebalance ==> JoinWaiters(g.members) == {} && g.nJoining == 0
  {
    if g.state != PreparingRebalance { NobodyJoins(g.members); }
  }

  ghost predicate GoodOutcome(o: Outcome) {
    if o.Next? then Inv(o.g) else o.reason == NoCommonProtocol
  }

  lemma RemovedReady(g: Group, m: Id)
    requires Inv(g) && g.state != Dead && m in g.members
    ensures BeforeRebalance(Removed(g, m))
  {
    hide Bump, Count, Supporters, JoinWaiters;
    JoinCount(g);
    RemoveCounted(g, m);
    WaitersWithout(g.members, m);
  }

  lemma RemoveInv(g: Group, m: Id, pick: Pick)
    requires Inv(g) && g.state != Dead && m in g.members && ValidPick(g, pick)
    ensures GoodOutcome(RemoveMember(g, m, pick))
  {
    RemovedReady(g, m);
    RebalanceInv(Removed(g, m), pick);
  }

  lemma UpdateWaiters(members: map<Id, Member>, m: Id, member: Member)
    requires m in members && WaitsInJoin(member)
    ensures |JoinWaiters(members[m := member])| == |JoinWaiters(members)| + if WaitsInJoin(members[m]) then 0 else 1
  {
    WaitersWithout(members, m);
    WaitersWith(members - {m}, m, member);
    assert (members - {m})[m := member] == members[m := member];
  }

  lemma UpdatedReady(g: Group, m: Id, join: Join, id: nat)
    requires Inv(g) && g.state != Dead && m in g.members && join.memberId == m
    ensures BeforeRebalance(Updated(g, m, join, id))
  {
    hide Bump, Count, Supporters, JoinWaiters;
    var member := Member(join, Some(ParkedJoin(id)), g.members[m].assignment);
    JoinCount(g);
    UpdateCounted(g, m, member);
    UpdateWaiters(g.members, m, member);
  }

  lemma UpdateInv(g: Group, m: Id, join: Join, id: nat, pick: Pick)
    requires Inv(g) && g.state != Dead && m in g.members && join.memberId == m && ValidPick(g, pick)
    ensures GoodOutcome(UpdateMember(g, m, join, id, pick))
  {
    UpdatedReady(g, m, join, id);
    RebalanceInv(Updated(g, m, join, id), pick);
  }

  lemma AddedReady(g: Group, m: Id, join: Join, id: nat)
    requires Inv(g) && g.state != Dead && m in g.pending && m != "" && join.memberId == m
    ensures BeforeRebalance(Added(g, m, join, id))
  {
    hide Bump, Count, Supporters, JoinWaiters;
    var member := Member(join, Some(ParkedJoin(id)), None);
    JoinCount(g);
    AddCounted(g, m, member);
    WaitersWith(g.members, m, member);
  }

  lemma AddInv(g: Group, m: Id, join: Join, id: nat, pick: Pick)
    requires Inv(g) && g.state != Dead && m in g.pending && m != "" && join.memberId == m && ValidPick(g, pick)
    ensures GoodOutcome(AddMember(g, m, join, id, pick))
  {
    AddedReady(g, m, join, id);
    RebalanceInv(Added(g, m, join, id), pick);
  }

  // ---------------------------------------------------------------------
  // Requests and timeouts
  // ---------------------------------------------------------------------

  lemma AnswerJoinInv(g: Group, id: nat, m: Id)
    requires Inv(g) && (g.state == CompletingRebalance || g.state == Stable)
    ensures GoodOutcome(AnswerJoin(g, id, m))
  {
    RosterComplete(g);
  }

  lemma RefuseInv(g: Group, id: nat, code: ErrorCode)
    requires Inv(g)
    ensures GoodOutcome(Refuse(g, id, code))
  {
  }

  lemma RejoinCases(g: Group, id: nat, join: Join, pick: Pick)
    requires join.memberId in g.members
    ensures var o := HandleRejoin(g, id, join, pick);
      o == UpdateMember(g, join.memberId, join, id, pick) || o == Refuse(g, id, UnknownMemberID) ||
      ((g.state == CompletingRebalance || g.state == Stable) && o == AnswerJoin(g, id, join.memberId))
  {
  }

  lemma RejoinInv(g: Group, id: nat, join: Join, pick: Pick)
    requires Inv(g) && g.state != Dead && ValidPick(g, pick) && join.memberId in g.members
    ensures GoodOutcome(HandleRejoin(g, id, join, pick))
  {
    var o := HandleRejoin(g, id, join, pick);
    RejoinCases(g, id, join, pick);
    if o == UpdateMember(g, join.memberId, join, id, pick) {
      UpdateInv(g, join.memberId, join, id, pick);
    } else if o == Refuse(g, id, UnknownMemberID) {
      RefuseInv(g, id, UnknownMemberID);
    } else {
      AnswerJoinInv(g, id, join.memberId);
    }
  }

  lemma TypedInv(g: Group, protocolType: string)
    requires Inv(g)
    ensures Inv(g.(protocolType := protocolType))
  {
  }

  lemma PendingInv(g: Group, m: Id, join: Join)
    requires Inv(g) && m != "" && m !in g.members
    ensures Inv(g.(pending := g.pending[m := join])) && Inv(g.(pending := g.pending - {m}))
  {
  }

  lemma ForgetInv(g: Group, m: Id)
    requires Inv(g)
    ensures Inv(g.(pending := g.pending - {m}))
  {
  }

  lemma JoinSteps(g: Group, id: nat, join: Join, newId: Id, pick: Pick)
    ensures
      var o := HandleJoin(g, id, join, newId, pick);
      var g1 := g.(protocolType := ProtocolsMatch(g, join).1);
      o == Refuse(g, id, InconsistentGroupProtocol) || o == Refuse(g1, id, UnknownMemberID) ||
      (join.memberId == "" && o == Next(g1.(pending := g1.pending[newId := join]), [NewMember(id, newId)], None)) ||
      (join.memberId != "" && join.memberId in g1.pending && o == AddMember(g1, join.memberId, join, id, pick)) ||
      (join.memberId in g1.members && o == HandleRejoin(g1, id, join, pick))
  {
  }

  lemma JoinInv(g: Group, id: nat, join: Join, newId: Id, pick: Pick)
    requires Inv(g) && g.state != Dead && ValidPick(g, pick)
    requires newId != "" && newId !in g.members && newId !in g.pending
    ensures GoodOutcome(HandleJoin(g, id, join, newId, pick))
  {
    var g1 := g.(protocolType := ProtocolsMatch(g, join).1);
    var m := join.memberId;
    var o := HandleJoin(g, id, join, newId, pick);
    TypedInv(g, ProtocolsMatch(g, join).1);
    PendingInv(g1, newId, join);
    JoinSteps(g, id, join, newId, pick);
    if o == Refuse(g, id, InconsistentGroupProtocol) {
      RefuseInv(g, id, InconsistentGroupProtocol);
    } else if o == Refuse(g1, id, UnknownMemberID) {
      RefuseInv(g1, id, UnknownMemberID);
    } else if m == "" {
    } else if m in g1.pending && o == AddMember(g1, m, join, id, pick) {
      AddInv(g1, m, join, id, pick);
    } else {
      RejoinInv(g1, id, join, pick);
    }
  }

  lemma ParkCounted(g: Group, m: Id, waiting: Option<Parked>)
    requires Counted(g) && m in g.members
    ensures Counted(g.(members := g.members[m := g.members[m].(waiting := waiting)]))
  {
    forall p ensures Count(g.protocols, p) == |Supporters(g.members[m := g.members[m].(waiting := waiting)], p)| {
      SameJoinsSameSupporters(g.members, g.members[m := g.members[m].(waiting := waiting)], p);
    }
  }

  lemma AssignCounted(g: Group, entries: seq<(Id, Blob)>)
    requires Counted(g)
    ensures Counted(g.(members := AssignAll(g.members, entries)))
  {
    forall p ensures Count(g.protocols, p) == |Supporters(AssignAll(g.members, entries), p)| {
      SameJoinsSameSupporters(g.members, AssignAll(g.members, entries), p);
    }
  }

  lemma ParkedSyncInv(g: Group, id: nat, m: Id)
    requires Inv(g) && g.state == CompletingRebalance && m in g.members
    ensures Inv(g.(members := g.members[m := g.members[m].(waiting := Some(ParkedSync(id, g.generation)))]))
  {
    ParkCounted(g, m, Some(ParkedSync(id, g.generation)));
  }

  lemma LeaderSyncInv(g: Group, entries: seq<(Id, Blob)>, order: seq<Id>)
    requires Inv(g) && g.state == CompletingRebalance
    ensures var o := CompleteLeaderSync(g, entries, order); o.Next? && Inv(o.g)
  {
    AssignCounted(g, entries);
  }

  /** A sync never panics: whatever is parked while a leader's assignment is awaited is a sync. */
  lemma SyncInv(g: Group, id: nat, req: SyncRequest, pick: Pick)
    requires Inv(g) && g.state != Dead
    ensures var o := HandleSync(g, id, req, pick); o.Next? && Inv(o.g)
  {
    var o := HandleSync(g, id, req, pick);
    if o.Next? && o.g == g {
    } else {
      ParkedSyncInv(g, id, req.member);
      LeaderSyncInv(g.(members := g.members[req.member := g.members[req.member].(waiting := Some(ParkedSync(id, g.generation)))]),
                    req.entries, pick.syncs);
    }
  }

  lemma LeaveInv(g: Group, m: Id, hasInstance: bool, pick: Pick)
    requires Inv(g) && g.state != Dead && ValidPick(g, pick)
    ensures GoodOutcome(HandleLeaveOne(g, m, hasInstance, pick))
  {
    if m in g.members { RemoveInv(g, m, pick); }
  }

  lemma TimerInv(g: Group, pick: Pick)
    requires Inv(g) && g.state != Dead && g.timer && ValidPick(g, pick)
    ensures GoodOutcome(CompleteRebalance(g, pick))
  {
    CompleteInv(g, pick);
  }
}
