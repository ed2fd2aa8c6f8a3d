/**
 The `group` object of `pkg/kfake/groups.go`: its fields are updated in place,
 and its maps are iterated in an order nobody controls.

 Each method is proved to do what the function of the same name in `Groups`
 says, for the order in which the iteration went; that order is the ghost
 result `pick`.
 */
module Coordinator {
  import opened Wrappers
  import opened Varints
  import opened Groups
  import opened GroupInvariant
  import opened GroupRuns
  import opened GroupReplies

  /** What a method did to the group and to what it has sent, compared with an outcome. */
  ghost predicate Behaves(
      o: Outcome, panic: Option<PanicReason>, g: Group, sent0: seq<Reply>, sent: seq<Reply>,
      installs0: seq<Install>, installs: seq<Install>)
  {
    match o
    case Panic(reason) => panic == Some(reason)
    case Next(g', replies, install) =>
      panic == None && g == g' && sent == sent0 + replies &&
      installs == if install.Some? then installs0 + [install.value] else installs0
  }

  /**
   A call that behaves as an event for a valid order of iteration is a step of
   a run, so that what holds in every run holds of the object.
   */
  lemma CallIsStep(w: World, e: Event, g: Group, sent: seq<Reply>, installs: seq<Install>)
    requires Possible(w, e) && Behaves(Handle(w.g, e), None, g, w.replies, sent, w.installs, installs)
    ensures exists w' :: Steps(w, e, w') && w'.g == g && w'.replies == sent && w'.installs == installs
  {
    var w' := Advance(w, e, Handle(w.g, e));
    assert Steps(w, e, w');
  }

  ghost predicate JoinsDistinct(members: map<Id, Member>) {
    forall m :: m in members ==> DistinctNames(members[m].join)
  }

  /** Members and pending members. */
  ghost function Known(g: Group): set<Id> { g.members.Keys + g.pending.Keys }

  ghost predicate PicksAll(all: set<Id>, pick: Pick) { Enumerates(pick.syncs, all) && Enumerates(pick.joins, all) }

  ghost predicate Distinct(order: seq<Id>) {
    forall i, j :: 0 <= i < j < |order| ==> order[i] != order[j]
  }

  /**
   Whom a rebalance gets to: every member, if it refuses the parked syncs, and
   every member that stays, if it answers the parked joins and does not panic.
   */
  ghost predicate Reaches(g: Group, pick: Pick, panic: Option<PanicReason>) {
    Distinct(pick.syncs) && Distinct(pick.joins) &&
    (g.state == CompletingRebalance ==> Enumerates(pick.syncs, g.members.Keys)) &&
    (panic.None? ==> AnswersAll(g, pick))
  }

  ghost predicate SameJoins(a: map<Id, Member>, b: map<Id, Member>) {
    a.Keys == b.Keys && forall m :: m in a ==> a[m].join == b[m].join
  }

  class Coordinator {
    var state: GroupState
    var leader: Id
    var members: map<Id, Member>
    var pending: map<Id, Join>
    var generation: int
    var protocolType: string
    var protocols: map<string, int>
    var protocol: string
    var nJoining: int
    var timer: bool
    var sent: seq<Reply>
    ghost var installs: seq<Install>

    function G(): Group
      reads this
    {
      Group(state, leader, members, pending, generation, protocolType, protocols, protocol, nJoining, timer)
    }

    ghost predicate Valid()
      reads this
    {
      Inv(G()) && state != Dead && JoinsDistinct(members)
    }

    constructor ()
      ensures Valid() && G() == NewGroup && sent == [] && installs == []
    {
      state, leader, members, pending, generation := Empty, "", map[], map[], 0;
      protocolType, protocols, protocol, nJoining, timer := "", map[], "", 0, false;
      sent, installs := [], [];
      new;
      forall p ensures Supporters(map[], p) == {} {
      }
    }

    /** Adds `d` to the counter of every protocol of a join. */
    method CountProtocols(join: Join, d: int)
      requires DistinctNames(join)
      modifies this`protocols
      ensures protocols == Bump(old(protocols), join, d)
    {
      var i := 0;
      while i < |join.protocols|
        invariant i <= |join.protocols|
        invariant protocols == Bump(old(protocols), Join(join.memberId, join.protocolType, join.protocols[..i]), d)
      {
        BumpNext(old(protocols), join, d, i);
        var name := join.protocols[i].name;
        protocols := protocols[name := Count(protocols, name) + d];
        i := i + 1;
      }
      assert join.protocols[..i] == join.protocols;
    }

    /** Evicts the members that are not waiting in join, and says whether the leader stays. */
    method Evict() returns (foundLeader: bool)
      requires Counted(G()) && JoinsDistinct(members)
      modifies this`members, this`protocols
      ensures members == Staying(old(members)) && protocols == Drop(old(protocols), Leaving(old(members)))
      ensures foundLeader == (leader in members)
    {
      hide Kept, Gone, Drop, Bump, Counted, Staying, Leaving;
      ghost var all := members;
      foundLeader := false;
      var todo := members.Keys;
      EvictStart(members, protocols);
      while todo != {}
        invariant todo <= all.Keys && members == Kept(all, todo)
        invariant protocols == Drop(old(protocols), Gone(all, todo))
        invariant foundLeader == (leader in all && leader !in todo && all[leader].waiting.Some?)
        decreases |todo|
      {
        var m := AnyOf(todo);
        EvictStep(old(G()), all, todo, m);
        if members[m].waiting.None? {
          Delete(m);
        } else if m == leader {
          foundLeader := true;
        }
        todo := todo - {m};
      }
      EvictEnd(all);
    }

    method Delete(m: Id)
      requires m in members && DistinctNames(members[m].join)
      modifies this`members, this`protocols
      ensures members == old(members) - {m} && protocols == Bump(old(protocols), old(members)[m].join, -1)
    {
      CountProtocols(members[m].join, -1);
      members := members - {m};
    }

    /** The first protocol met that all members support. */
    method FindProtocol() returns (found: Option<string>)
      ensures found.Some? ==> found.value in protocols && protocols[found.value] == |members|
      ensures found.None? <==> !HasCandidate(protocols, |members|)
    {
      var todo := protocols.Keys;
      while todo != {}
        invariant todo <= protocols.Keys
        invariant forall p :: p in protocols && p !in todo ==> protocols[p] != |members|
        decreases |todo|
      {
        var p := AnyOf(todo);
        if protocols[p] == |members| { return Some(p); }
        todo := todo - {p};
      }
      found := None;
    }

    /** The answer to a join, or nothing if a member lacks the chosen protocol. */
    method FillJoinResp(id: nat, member: Id) returns (reply: Option<Reply>)
      ensures reply == FillJoin(G(), id, member)
    {
      if leader != member { return Some(JoinOk(id, member, generation, protocol, leader, map[])); }
      var roster := JoinResponseMetadata();
      if roster.None? { return None; }
      reply := Some(JoinOk(id, member, generation, protocol, leader, roster.value));
    }

    method JoinResponseMetadata() returns (metadata: Option<map<Id, Blob>>)
      ensures metadata == Roster(members, protocol)
    {
      var roster: map<Id, Blob> := map[];
      var todo := members.Keys;
      while todo != {}
        invariant todo <= members.Keys && roster.Keys == members.Keys - todo
        invariant forall k :: k in roster ==> Metadata(members[k].join.protocols, protocol) == Some(roster[k])
        decreases |todo|
      {
        var k := AnyOf(todo);
        var found := Metadata(members[k].join.protocols, protocol);
        if found.None? { return None; }
        roster := roster[k := found.value];
        todo := todo - {k};
      }
      RosterIs(members, protocol, roster);
      metadata := Some(roster);
    }

    /** The loop that answers the parked joins. */
    method AnswerParkedJoins(foundLeader: bool) returns (panic: Option<PanicReason>, ghost order: seq<Id>)
      requires forall m :: m in members ==> members[m].waiting.Some?
      modifies this`members, this`leader, this`sent
      ensures Behaves(AnswerJoins(old(G()), foundLeader, order), panic, G(), old(sent), sent, installs, installs)
      ensures Distinct(order)
      ensures panic.None? ==> Enumerates(order, old(members.Keys)) && SameJoins(members, old(members))
    {
      hide Answering, AnsweredSoFar, AnswerJoins;
      order := [];
      var todo := members.Keys;
      AnsweringStarts(members);
      AnsweredStarts(G(), foundLeader, sent);
      while todo != {}
        invariant Answering(old(members), members, todo, order)
        invariant AnsweredSoFar(old(G()), foundLeader, order, G(), old(sent), sent)
        decreases |todo|
      {
        var m := AnyOf(todo);
        AnsweringNext(old(members), members, todo, order, m);
        panic := AnswerNextJoin(m, foundLeader, old(G()), order, old(sent));
        order := order + [m];
        if panic.Some? { return; }
        todo := todo - {m};
      }
      AnsweringEnds(old(members), members, order);
      AnsweredEnds(old(G()), foundLeader, order, G(), old(sent), sent, installs);
      panic := None;
    }

    /** `order` is who has been answered since the group was `g0` and what had been sent was `sent0`. */
    method AnswerNextJoin(m: Id, foundLeader: bool, ghost g0: Group, ghost order: seq<Id>, ghost sent0: seq<Reply>)
        returns (panic: Option<PanicReason>)
      requires m in members && members[m].waiting.Some?
      requires AnsweredSoFar(g0, foundLeader, order, G(), sent0, sent)
      modifies this`members, this`leader, this`sent
      ensures panic.None? ==>
        AnsweredSoFar(g0, foundLeader, order + [m], G(), sent0, sent) &&
        members == old(members)[m := old(members)[m].(waiting := None)]
      ensures panic.Some? ==> AnswerJoins(g0, foundLeader, order + [m]) == Panic(panic.value)
    {
      AnswerNext(g0, foundLeader, order, G(), sent0, sent, m);
      panic := AnswerOne(m, foundLeader);
    }

    method AnswerOne(m: Id, foundLeader: bool) returns (panic: Option<PanicReason>)
      requires m in members && members[m].waiting.Some?
      modifies this`members, this`leader, this`sent
      ensures
        var g1 := if foundLeader then old(G()) else old(G()).(leader := m);
        var reply := FillJoin(g1, g1.members[m].waiting.value.id, g1.members[m].join.memberId);
        if reply.None? then panic == Some(InconsistentProtocol)
        else (panic == None && sent == old(sent) + [reply.value] &&
              G() == g1.(members := g1.members[m := g1.members[m].(waiting := None)]))
    {
      if !foundLeader { leader := m; }
      var reply := FillJoinResp(members[m].waiting.value.id, members[m].join.memberId);
      if reply.None? { return Some(InconsistentProtocol); }
      sent := sent + [reply.value];
      members := members[m := members[m].(waiting := None)];
      panic := None;
    }

    method CompleteRebalance() returns (panic: Option<PanicReason>, ghost pick: Pick)
      requires Counted(G()) && JoinsDistinct(members)
      modifies this
      ensures installs == old(installs)
      ensures Behaves(Groups.CompleteRebalance(old(G()), pick), panic, G(), old(sent), sent, installs, installs)
      ensures Distinct(pick.joins)
      ensures panic.None? ==> Enumerates(pick.joins, Staying(old(members)).Keys) && JoinsDistinct(members)
    {
      var foundLeader := StartGeneration();
      panic, pick := ChooseAndAnswer(foundLeader);
    }

    /** The first half of `completeRebalance`. */
    method StartGeneration() returns (foundLeader: bool)
      requires Counted(G()) && JoinsDistinct(members)
      modifies this`timer, this`nJoining, this`members, this`protocols, this`generation
      ensures G() == Evicted(old(G())) && foundLeader == (leader in members) && JoinsDistinct(members)
    {
      timer := false;
      nJoining := 0;
      foundLeader := Evict();
      generation := if generation == 0x7fff_ffff then 1 else generation + 1;
    }

    /** The second half of `completeRebalance`. */
    method ChooseAndAnswer(foundLeader: bool) returns (panic: Option<PanicReason>, ghost pick: Pick)
      requires JoinsDistinct(members) && forall m :: m in members ==> members[m].waiting.Some?
      modifies this
      ensures installs == old(installs)
      ensures Behaves(Settle(old(G()), foundLeader, pick), panic, G(), old(sent), sent, installs, installs)
      ensures Distinct(pick.joins)
      ensures panic.None? ==> Enumerates(pick.joins, old(members).Keys) && JoinsDistinct(members)
    {
      if members == map[] {
        state := Empty;
        return None, Pick([], [], "");
      }
      state := CompletingRebalance;
      var found := FindProtocol();
      if found.None? { return Some(NoCommonProtocol), Pick([], [], ""); }
      protocol := found.value;
      ghost var order;
      panic, order := AnswerParkedJoins(foundLeader);
      pick := Pick([], order, found.value);
    }

    /** Refuses the parked syncs and forgets all assignments. */
    method ClearParkedSyncs() returns (ghost order: seq<Id>)
      modifies this`members, this`sent
      ensures members == ClearSyncs(old(members)) && sent == old(sent) + SyncRefusals(old(members), order)
      ensures Enumerates(order, old(members.Keys))
    {
      ghost var all := members;
      order := [];
      var todo := members.Keys;
      ClearStart(all);
      while todo != {}
        invariant todo <= all.Keys && members == Cleared(all, todo)
        invariant Visited(order, all.Keys, todo)
        invariant sent == old(sent) + SyncRefusals(all, order)
        decreases |todo|
      {
        var m := AnyOf(todo);
        ClearStep(all, todo, m);
        VisitNext(order, all.Keys, todo, m);
        ClearNext(m, all, order, old(sent));
        order := order + [m];
        todo := todo - {m};
      }
      ClearEnd(all);
    }

    /** `order` is who has been looked at, and `sent0` what had been sent before. */
    method ClearNext(m: Id, ghost all: map<Id, Member>, ghost order: seq<Id>, ghost sent0: seq<Reply>)
      requires m in members && m in all && members[m] == all[m] && sent == sent0 + SyncRefusals(all, order)
      modifies this`members, this`sent
      ensures members == old(members)[m := ClearedMember(all[m])] && sent == sent0 + SyncRefusals(all, order + [m])
    {
      RefusalsSnoc(all, order, m);
      Regroup(sent0, SyncRefusals(all, order),
              if WaitsInSync(all[m]) then [Refused(all[m].waiting.value.id, RebalanceInProgress)] else []);
      ClearOne(m);
    }

    method ClearOne(m: Id)
      requires m in members
      modifies this`members, this`sent
      ensures members == old(members)[m := ClearedMember(old(members)[m])]
      ensures sent == old(sent) + if WaitsInSync(old(members)[m])
        then [Refused(old(members)[m].waiting.value.id, RebalanceInProgress)] else []
    {
      members := members[m := members[m].(assignment := None)];
      if WaitsInSync(members[m]) {
        sent := sent + [Refused(members[m].waiting.value.id, RebalanceInProgress)];
        members := members[m := members[m].(waiting := None)];
      }
    }

    /** The first half of `rebalance`: nobody is left in sync. */
    method Prepare() returns (ghost syncs: seq<Id>)
      modifies this`members, this`sent, this`state
      ensures
        var clearing := old(state) == CompletingRebalance;
        G() == old(G()).(members := if clearing then ClearSyncs(old(members)) else old(members),
                         state := PreparingRebalance) &&
        sent == (old(sent) + if clearing then SyncRefusals(old(members), syncs) else []) &&
        Distinct(syncs) && (clearing ==> Enumerates(syncs, old(members).Keys))
    {
      syncs := [];
      if state == CompletingRebalance { syncs := ClearParkedSyncs(); }
      state := PreparingRebalance;
    }

    method Rebalance() returns (panic: Option<PanicReason>, ghost pick: Pick)
      requires Counted(G()) && JoinsDistinct(members)
      modifies this
      ensures installs == old(installs)
      ensures Behaves(Groups.Rebalance(old(G()), pick), panic, G(), old(sent), sent, installs, installs)
      ensures Reaches(old(G()), pick, panic) && (panic.None? ==> JoinsDistinct(members))
    {
      ClearCounted(G());
      ghost var syncs := Prepare();
      ghost var g1, sent1 := G(), sent;
      if nJoining >= |members| {
        panic, pick := CompleteRebalance();
        ThenCompletes(old(G()), g1, pick, syncs, panic, G(), old(sent), sent1, sent, installs);
        pick := pick.(syncs := syncs);
        return;
      }
      timer := true;
      return None, Pick(syncs, [], "");
    }

    // -------------------------------------------------------------------
    // The leader's assignment
    // -------------------------------------------------------------------

    method Assign(entries: seq<(Id, Blob)>)
      modifies this`members
      ensures members == map m | m in old(members) :: old(members)[m].(assignment := Assigned(entries, m))
      ensures forall m :: m in members ==> AssignedTo(entries, m, members[m].assignment)
    {
      members := map m | m in members :: members[m].(assignment := None);
      var i := 0;
      while i < |entries|
        invariant i <= |entries|
        invariant members == map m | m in old(members) :: old(members)[m].(assignment := Assigned(entries[..i], m))
      {
        assert entries[..i + 1][..i] == entries[..i];
        var (m, assignment) := entries[i];
        if m in members { members := members[m := members[m].(assignment := Some(assignment))]; }
        i := i + 1;
      }
      assert entries[..i] == entries;
      forall m | m in members ensures AssignedTo(entries, m, members[m].assignment) { AssignedHolds(entries, m); }
    }

    /** Answers a parked sync, if there is one. */
    method AnswerSync(m: Id)
      requires m in members && !WaitsInJoin(members[m])
      modifies this`members, this`sent
      ensures members == old(members)[m := old(members)[m].(waiting := None)]
      ensures var was := old(members)[m];
        sent == old(sent) + if WaitsInSync(was)
          then [SyncOk(was.waiting.value.id, m, was.waiting.value.generation, protocol, was.assignment)] else []
    {
      if members[m].waiting.None? { return; }
      sent := sent + [SyncOk(members[m].waiting.value.id, m, members[m].waiting.value.generation, protocol,
                             members[m].assignment)];
      members := members[m := members[m].(waiting := None)];
    }

    /** `all` is the membership before the assignment was stored. */
    method AnswerParkedSyncs(entries: seq<(Id, Blob)>, ghost all: map<Id, Member>)
        returns (panic: Option<PanicReason>, ghost order: seq<Id>)
      requires SyncedSoFar(all, members, all.Keys, entries)
      modifies this`members, this`sent
      ensures panic.None? ==>
        SyncedSoFar(all, members, {}, entries) && sent == old(sent) + SyncReplies(all, protocol, entries, order) &&
        Enumerates(order, all.Keys)
      ensures panic.Some? ==> panic == Some(NotASync) && exists m :: m in all && WaitsInJoin(all[m])
    {
      hide SyncedSoFar, Visited;
      order := [];
      var todo := members.Keys;
      SyncedStarts(all, members, entries);
      NobodyVisited(all.Keys);
      while todo != {}
        invariant todo <= all.Keys && SyncedSoFar(all, members, todo, entries)
        invariant Visited(order, all.Keys, todo)
        invariant sent == old(sent) + SyncReplies(all, protocol, entries, order)
        decreases |todo|
      {
        var m := AnyOf(todo);
        SyncedMember(all, members, todo, entries, m);
        if WaitsInJoin(members[m]) { return Some(NotASync), order; }
        AnswerNextSync(entries, all, todo, order, old(sent), m);
        order := order + [m];
        todo := todo - {m};
      }
      VisitedAll(order, all.Keys);
      panic := None;
    }

    /** `order` is who has been answered, and `sent0` what had been sent before. */
    method AnswerNextSync(
        ghost entries: seq<(Id, Blob)>, ghost all: map<Id, Member>, ghost todo: set<Id>, ghost order: seq<Id>,
        ghost sent0: seq<Reply>, m: Id)
      requires m in todo && todo <= all.Keys && m in members && SyncedSoFar(all, members, todo, entries)
      requires Visited(order, all.Keys, todo)
      requires !WaitsInJoin(members[m]) && sent == sent0 + SyncReplies(all, protocol, entries, order)
      modifies this`members, this`sent
      ensures SyncedSoFar(all, members, todo - {m}, entries) && Visited(order + [m], all.Keys, todo - {m})
      ensures sent == sent0 + SyncReplies(all, protocol, entries, order + [m])
    {
      SyncedMember(all, members, todo, entries, m);
      VisitNext(order, all.Keys, todo, m);
      SyncRepliesSnoc(all, protocol, entries, order, m);
      Regroup(sent0, SyncReplies(all, protocol, entries, order),
              if WaitsInSync(all[m]) then [SyncOk(all[m].waiting.value.id, m, all[m].waiting.value.generation, protocol,
                                                  Assigned(entries, m))] else []);
      AnswerSync(m);
    }

    method CompleteLeaderSync(entries: seq<(Id, Blob)>) returns (panic: Option<PanicReason>, ghost order: seq<Id>)
      modifies this
      ensures Behaves(Groups.CompleteLeaderSync(old(G()), entries, order), panic, G(), old(sent), sent,
                      old(installs), installs)
      ensures panic.None? ==> Enumerates(order, old(members.Keys)) && SameJoins(members, old(members))
      ensures panic.None? ==>
        state == Stable && installs == old(installs) + [Install(generation, entries)] &&
        (forall m :: m in members ==> AssignedTo(entries, m, members[m].assignment)) &&
        |old(sent)| <= |sent| && SyncsTold(sent[|old(sent)|..], old(members), protocol, entries, order)
    {
      hide SyncedSoFar, Enumerates, SameJoins, SyncReplies, Assigned, AssignAll, AssignedTo, SyncsTold;
      ghost var all := members;
      Assign(entries);
      AssignedSynced(all, members, entries);
      panic, order := AnswerParkedSyncs(entries, all);
      if panic.Some? { return; }
      state := Stable;
      installs := installs + [Install(generation, entries)];
      SyncedAll(all, members, entries);
      AllAssigned(all, entries);
      SyncsToldAfter(old(sent), all, protocol, entries, order);
    }

    method UpdateMemberAndRebalance(m: Id, join: Join, id: nat) returns (panic: Option<PanicReason>, ghost pick: Pick)
      requires Valid() && m in members && join.memberId == m && DistinctNames(join)
      modifies this
      ensures installs == old(installs) && (panic.None? ==> Valid())
      ensures Behaves(UpdateMember(old(G()), m, join, id, pick), panic, G(), old(sent), sent, installs, installs)
      ensures ValidPick(old(G()), pick)
    {
      hide Inv, BeforeRebalance, JoinsDistinct, Enumerates, Updated, Groups.Rebalance;
      ReplaceReady(m, join, id);
      panic, pick := RebalanceReady(Known(old(G())));
    }

    method ReplaceReady(m: Id, join: Join, id: nat)
      requires Valid() && m in members && join.memberId == m && DistinctNames(join)
      modifies this`protocols, this`nJoining, this`members
      ensures G() == Updated(old(G()), m, join, id) && BeforeRebalance(G())
      ensures JoinsDistinct(members) && members.Keys <= Known(old(G()))
    {
      UpdatedReady(G(), m, join, id);
      Replace(m, join, id);
    }

    method Replace(m: Id, join: Join, id: nat)
      requires JoinsDistinct(members) && m in members && DistinctNames(join)
      modifies this`protocols, this`nJoining, this`members
      ensures G() == Updated(old(G()), m, join, id) && JoinsDistinct(members)
    {
      CountProtocols(members[m].join, -1);
      CountProtocols(join, 1);
      if members[m].waiting.None? { nJoining := nJoining + 1; }
      members := members[m := Member(join, Some(ParkedJoin(id)), members[m].assignment)];
    }

    /** The source's `updateMemberAndRebalance` without a new join: the member goes. */
    method RemoveMemberAndRebalance(m: Id) returns (panic: Option<PanicReason>, ghost pick: Pick)
      requires Valid() && m in members
      modifies this
      ensures installs == old(installs) && (panic.None? ==> Valid())
      ensures Behaves(RemoveMember(old(G()), m, pick), panic, G(), old(sent), sent, installs, installs)
      ensures ValidPick(old(G()), pick)
    {
      hide Inv, BeforeRebalance, JoinsDistinct, Enumerates, Removed, Groups.Rebalance;
      DepartReady(m);
      panic, pick := RebalanceReady(Known(old(G())));
    }

    method DepartReady(m: Id)
      requires Valid() && m in members
      modifies this`protocols, this`nJoining, this`members
      ensures G() == Removed(old(G()), m) && BeforeRebalance(G())
      ensures JoinsDistinct(members) && members.Keys <= Known(old(G()))
    {
      RemovedReady(G(), m);
      Depart(m);
    }

    method Depart(m: Id)
      requires JoinsDistinct(members) && m in members
      modifies this`protocols, this`nJoining, this`members
      ensures G() == Removed(old(G()), m) && JoinsDistinct(members)
    {
      if members[m].waiting.Some? { nJoining := nJoining - 1; }
      Delete(m);
    }

    method AddMemberAndRebalance(m: Id, join: Join, id: nat) returns (panic: Option<PanicReason>, ghost pick: Pick)
      requires Valid() && m in pending && m != "" && join.memberId == m && DistinctNames(join)
      modifies this
      ensures installs == old(installs) && (panic.None? ==> Valid())
      ensures Behaves(AddMember(old(G()), m, join, id, pick), panic, G(), old(sent), sent, installs, installs)
      ensures ValidPick(old(G()), pick)
    {
      hide Inv, BeforeRebalance, JoinsDistinct, Enumerates, Added, Groups.Rebalance;
      EnterReady(m, join, id);
      panic, pick := RebalanceReady(Known(old(G())));
    }

    method EnterReady(m: Id, join: Join, id: nat)
      requires Valid() && m in pending && m != "" && join.memberId == m && DistinctNames(join)
      modifies this`pending, this`protocols, this`nJoining, this`members
      ensures G() == Added(old(G()), m, join, id) && BeforeRebalance(G())
      ensures JoinsDistinct(members) && members.Keys <= Known(old(G()))
    {
      AddedReady(G(), m, join, id);
      Enter(m, join, id);
    }

    method Enter(m: Id, join: Join, id: nat)
      requires JoinsDistinct(members) && DistinctNames(join)
      modifies this`pending, this`protocols, this`nJoining, this`members
      ensures G() == Added(old(G()), m, join, id) && JoinsDistinct(members)
    {
      pending := pending - {m};
      CountProtocols(join, 1);
      members := members[m := Member(join, Some(ParkedJoin(id)), None)];
      nJoining := nJoining + 1;
    }

    // -------------------------------------------------------------------
    // Requests
    // -------------------------------------------------------------------

    method Reply(r: Reply)
      modifies this`sent
      ensures sent == old(sent) + [r]
    {
      sent := sent + [r];
    }

    method HandleJoin(id: nat, join: Join, newId: Id) returns (panic: Option<PanicReason>, ghost pick: Pick)
      requires Valid() && DistinctNames(join) && newId != "" && newId !in members && newId !in pending
      modifies this
      ensures panic.None? ==> Valid()
      ensures Behaves(Groups.HandleJoin(old(G()), id, join, newId, pick), panic, G(), old(sent), sent,
                      old(installs), installs)
      ensures ValidPick(old(G()), pick)
    {
      hide Inv, JoinsDistinct, ValidPick, Admit, ProtocolsMatch, DistinctNames;
      panic := None;
      pick := AnyPick(G());
      var (ok, typ) := ProtocolsMatch(G(), join);
      if !ok {
        Reply(Refused(id, InconsistentGroupProtocol));
        return;
      }
      panic, pick := AdmitTyped(id, join, newId, typ);
    }

    /** The first join decides the group's protocol type. */
    method AdmitTyped(id: nat, join: Join, newId: Id, typ: string) returns (panic: Option<PanicReason>, ghost pick: Pick)
      requires Valid() && DistinctNames(join) && newId != "" && newId !in members && newId !in pending
      modifies this
      ensures installs == old(installs) && (panic.None? ==> Valid())
      ensures Behaves(Admit(old(G()).(protocolType := typ), id, join, newId, pick), panic, G(), old(sent), sent,
                      installs, installs)
      ensures ValidPick(old(G()), pick)
    {
      hide Inv, JoinsDistinct, ValidPick, Admit, DistinctNames;
      TypedInv(G(), typ);
      protocolType := typ;
      panic, pick := AdmitJoin(id, join, newId);
      SamePick(old(G()), typ, pick);
    }

    /** The rest of `handleJoin`, for a join whose protocols match the group's. */
    method AdmitJoin(id: nat, join: Join, newId: Id) returns (panic: Option<PanicReason>, ghost pick: Pick)
      requires Valid() && DistinctNames(join) && newId != "" && newId !in members && newId !in pending
      modifies this
      ensures installs == old(installs) && (panic.None? ==> Valid())
      ensures Behaves(Admit(old(G()), id, join, newId, pick), panic, G(), old(sent), sent, installs, installs)
      ensures ValidPick(old(G()), pick)
    {
      hide Inv, JoinsDistinct, ValidPick, AddMember, Groups.HandleRejoin;
      panic := None;
      pick := AnyPick(G());
      var m := join.memberId;
      if m == "" {
        Announce(id, join, newId);
      } else if m in pending {
        panic, pick := AddMemberAndRebalance(m, join, id);
      } else if m !in members {
        Reply(Refused(id, UnknownMemberID));
      } else {
        panic, pick := HandleRejoin(id, join);
      }
    }

    /** Gives a new member its id, with which it has to join again. */
    method Announce(id: nat, join: Join, newId: Id)
      requires Valid() && newId != "" && newId !in members
      modifies this`pending, this`sent
      ensures Valid() && pending == old(pending)[newId := join] && sent == old(sent) + [NewMember(id, newId)]
    {
      hide Inv, JoinsDistinct;
      PendingInv(G(), newId, join);
      pending := pending[newId := join];
      Reply(NewMember(id, newId));
    }

    method HandleRejoin(id: nat, join: Join) returns (panic: Option<PanicReason>, ghost pick: Pick)
      requires Valid() && DistinctNames(join) && join.memberId in members
      modifies this
      ensures installs == old(installs) && (panic.None? ==> Valid())
      ensures Behaves(Groups.HandleRejoin(old(G()), id, join, pick), panic, G(), old(sent), sent, installs, installs)
      ensures ValidPick(old(G()), pick)
    {
      hide Inv, JoinsDistinct, ValidPick, Groups.HandleRejoin;
      var m := join.memberId;
      if (state == CompletingRebalance && SameJoin(members[m].join, join)) ||
         (state == Stable && (leader != m || SameJoin(members[m].join, join)))
      {
        panic, pick := RejoinUnchanged(id, join);
      } else {
        panic, pick := RejoinChanged(id, join);
      }
    }

    /** The member gets the answer it already had. */
    method RejoinUnchanged(id: nat, join: Join) returns (panic: Option<PanicReason>, ghost pick: Pick)
      requires Valid() && join.memberId in members && AnswersAgain(G(), join)
      modifies this`sent
      ensures Valid()
      ensures Behaves(Groups.HandleRejoin(old(G()), id, join, pick), panic, G(), old(sent), sent, installs, installs)
      ensures ValidPick(old(G()), pick)
    {
      hide Inv, JoinsDistinct, ValidPick, FillJoin;
      panic := AnswerAgain(id, join.memberId);
      pick := AnyPick(G());
    }

    method RejoinChanged(id: nat, join: Join) returns (panic: Option<PanicReason>, ghost pick: Pick)
      requires Valid() && DistinctNames(join) && join.memberId in members && !AnswersAgain(G(), join)
      modifies this
      ensures installs == old(installs) && (panic.None? ==> Valid())
      ensures Behaves(Groups.HandleRejoin(old(G()), id, join, pick), panic, G(), old(sent), sent, installs, installs)
      ensures ValidPick(old(G()), pick)
    {
      hide Inv, JoinsDistinct, ValidPick, Groups.HandleRejoin, UpdateMember, AnswersAgain;
      ChangedIsUpdate(G(), id, join);
      panic, pick := UpdateMemberAndRebalance(join.memberId, join, id);
    }

    /** Sends a member the answer it already had. */
    method AnswerAgain(id: nat, m: Id) returns (panic: Option<PanicReason>)
      requires Valid()
      modifies this`sent
      ensures Valid() && Behaves(AnswerJoin(G(), id, m), panic, G(), old(sent), sent, installs, installs)
    {
      var reply := FillJoinResp(id, m);
      if reply.None? { return Some(InconsistentProtocol); }
      Reply(reply.value);
      panic := None;
    }

    method HandleSync(id: nat, req: SyncRequest) returns (panic: Option<PanicReason>, ghost pick: Pick)
      requires Valid()
      modifies this
      ensures panic.None? && Valid()
      ensures Behaves(Groups.HandleSync(old(G()), id, req, pick), panic, G(), old(sent), sent, old(installs), installs)
      ensures ValidPick(old(G()), pick)
    {
      panic := None;
      pick := TakeSync(id, req);
    }

    /** The checks that a sync has to pass. */
    method TakeSync(id: nat, req: SyncRequest) returns (ghost pick: Pick)
      requires Valid()
      modifies this
      ensures Behaves(Groups.HandleSync(old(G()), id, req, pick), None, G(), old(sent), sent, old(installs), installs)
      ensures ValidPick(old(G()), pick) && Valid()
    {
      hide Inv, JoinsDistinct, ValidPick, AcceptSync;
      pick := AnyPick(G());
      if req.member !in members {
        Reply(Refused(id, UnknownMemberID));
      } else if req.generation != generation {
        Reply(Refused(id, IllegalGeneration));
      } else if req.protocolType.Some? && req.protocolType.value != protocolType {
        Reply(Refused(id, InconsistentGroupProtocol));
      } else if req.protocol.Some? && req.protocol.value != protocol {
        Reply(Refused(id, InconsistentGroupProtocol));
      } else {
        pick := TakeValidSync(id, req);
      }
    }

    method TakeValidSync(id: nat, req: SyncRequest) returns (ghost pick: Pick)
      requires Valid() && req.member in members && req.generation == generation
      modifies this
      ensures Behaves(AcceptSync(old(G()), id, req, pick), None, G(), old(sent), sent, old(installs), installs)
      ensures ValidPick(old(G()), pick) && Valid()
    {
      hide Counted, Identified, JoinsDistinct, Enumerates, Groups.CompleteLeaderSync, WithSync;
      pick := AnyPick(G());
      if state == PreparingRebalance {
        Reply(Refused(id, RebalanceInProgress));
      } else if state == CompletingRebalance {
        ghost var order := ParkSync(id, req);
        pick := pick.(syncs := order);
      } else if state == Stable {
        Reply(SyncOk(id, req.member, req.generation, protocol, members[req.member].assignment));
      } else {
        assert false;
      }
    }

    /** A sync while the group waits for its leader's: parked, and answered with all others if it is the leader's. */
    method ParkSync(id: nat, req: SyncRequest) returns (ghost order: seq<Id>)
      requires Valid() && state == CompletingRebalance && req.member in members && req.generation == generation
      modifies this
      ensures Valid() && Enumerates(order, Known(old(G())))
      ensures
        var g1 := WithSync(old(G()), req.member, id);
        Behaves(if req.member == old(leader) then Groups.CompleteLeaderSync(g1, req.entries, order)
                else Next(g1, [], None), None, G(), old(sent), sent, old(installs), installs)
    {
      hide Inv, JoinsDistinct, Enumerates, Groups.CompleteLeaderSync;
      Park(id, req.member);
      if req.member == leader {
        order := LeaderSync(req.entries, Known(old(G())));
      } else {
        order := AnyOrder(Known(old(G())));
      }
    }

    method Park(id: nat, m: Id)
      requires Valid() && state == CompletingRebalance && m in members
      modifies this`members
      ensures Valid() && G() == WithSync(old(G()), m, id) && members.Keys <= Known(old(G()))
    {
      ParkedSyncInv(G(), id, m);
      members := members[m := members[m].(waiting := Some(ParkedSync(id, generation)))];
    }

    /** The leader's sync: nobody waits in join, so that it goes through. */
    method LeaderSync(entries: seq<(Id, Blob)>, ghost all: set<Id>) returns (ghost order: seq<Id>)
      requires Valid() && state == CompletingRebalance && members.Keys <= all
      modifies this
      ensures Valid() && Enumerates(order, all)
      ensures Behaves(Groups.CompleteLeaderSync(old(G()), entries, order), None, G(), old(sent), sent,
                      old(installs), installs)
    {
      LeaderSyncInv(G(), entries, []);
      var panic;
      panic, order := CompleteLeaderSync(entries);
      RepliesOn(old(members), old(protocol), entries, order, Unvisited(order, all));
      WholeEnumerates(order, all);
      order := Whole(order, all);
    }

    /**
     A leave request: each member in turn, and a rebalance for each. `run` is the group and what was sent in between,
     `picks` are the orders of iteration, and `last` is the one of the entry that panics.
     */
    method HandleLeave(id: nat, leaving: seq<(Id, bool)>)
        returns (panic: Option<PanicReason>, codes: seq<Option<ErrorCode>>,
                 ghost run: seq<Snapshot>, ghost picks: seq<Pick>, ghost last: Pick)
      requires Valid()
      modifies this
      ensures installs == old(installs)
      ensures LeaveRun(run, leaving, codes, picks) && run[0] == Snapshot(old(G()), old(sent))
      ensures panic.None? ==>
        Valid() && |codes| == |leaving| && run[|codes|].g == G() && sent == run[|codes|].sent + [Done(id)]
      ensures panic.Some? ==> |codes| < |leaving| && PanicsBy(run[|codes|].g, leaving[|codes|], last, panic.value)
    {
      hide Inv, JoinsDistinct, LeavesBy, PanicsBy;
      panic, codes, run, picks, last := LeaveAll(leaving);
      if panic.None? { Reply(Done(id)); }
    }

    /** All entries of a leave request, up to one that panics. */
    method LeaveAll(leaving: seq<(Id, bool)>)
        returns (panic: Option<PanicReason>, codes: seq<Option<ErrorCode>>,
                 ghost run: seq<Snapshot>, ghost picks: seq<Pick>, ghost last: Pick)
      requires Valid()
      modifies this
      ensures installs == old(installs)
      ensures LeaveRun(run, leaving, codes, picks) && run[0] == Snapshot(old(G()), old(sent))
      ensures panic.None? ==> Valid() && |codes| == |leaving| && run[|codes|] == Snapshot(G(), sent)
      ensures panic.Some? ==> |codes| < |leaving| && PanicsBy(run[|codes|].g, leaving[|codes|], last, panic.value)
    {
      hide Inv, JoinsDistinct, LeavesBy, PanicsBy;
      codes, run, picks, last := [], [Snapshot(G(), sent)], [], Pick([], [], "");
      while |codes| < |leaving|
        invariant LeaveRun(run, leaving, codes, picks) && run[0] == Snapshot(old(G()), old(sent))
        invariant Valid() && run[|codes|] == Snapshot(G(), sent) && installs == old(installs)
        decreases |leaving| - |codes|
      {
        var code;
        panic, code, last := LeaveNext(leaving, codes, run, picks);
        if panic.Some? { return; }
        codes, run, picks := codes + [code], run + [Snapshot(G(), sent)], picks + [last];
      }
      panic := None;
    }

    /** The next entry of a leave request. */
    method LeaveNext(
        leaving: seq<(Id, bool)>, codes: seq<Option<ErrorCode>>, ghost run: seq<Snapshot>, ghost picks: seq<Pick>)
        returns (panic: Option<PanicReason>, code: Option<ErrorCode>, ghost pick: Pick)
      requires Valid() && LeaveRun(run, leaving, codes, picks)
      requires |codes| < |leaving| && run[|codes|] == Snapshot(G(), sent)
      modifies this
      ensures installs == old(installs)
      ensures panic.None? ==>
        Valid() && LeaveRun(run + [Snapshot(G(), sent)], leaving, codes + [code], picks + [pick])
      ensures panic.Some? ==> PanicsBy(run[|codes|].g, leaving[|codes|], pick, panic.value)
    {
      hide Inv, JoinsDistinct, ValidPick, HandleLeaveOne, LeavesBy, PanicsBy;
      panic, code, pick := LeaveOne(leaving[|codes|].0, leaving[|codes|].1);
      LeftBehaves(run[|codes|], leaving[|codes|], pick, code, panic, Snapshot(G(), sent), installs);
      if panic.None? { LeaveMore(run, leaving, codes, picks, code, pick, Snapshot(G(), sent)); }
    }

    method LeaveOne(m: Id, hasInstance: bool)
        returns (panic: Option<PanicReason>, code: Option<ErrorCode>, ghost pick: Pick)
      requires Valid()
      modifies this
      ensures installs == old(installs) && (panic.None? ==> Valid())
      ensures Behaves(HandleLeaveOne(old(G()), m, hasInstance, pick), panic, G(), old(sent), sent, installs, installs)
      ensures ValidPick(old(G()), pick) && code == LeaveCode(old(G()), (m, hasInstance))
      ensures code == if hasInstance || (m !in old(members) && m !in old(pending)) then Some(UnknownMemberID) else None
    {
      hide Inv, JoinsDistinct, ValidPick, RemoveMember;
      if hasInstance {
        panic, code := None, Some(UnknownMemberID);
        pick := AnyPick(G());
      } else if m in members {
        panic, code, pick := LeaveMember(m);
      } else {
        panic, code, pick := LeavePending(m);
      }
    }

    method LeaveMember(m: Id) returns (panic: Option<PanicReason>, code: Option<ErrorCode>, ghost pick: Pick)
      requires Valid() && m in members
      modifies this
      ensures installs == old(installs) && (panic.None? ==> Valid())
      ensures Behaves(HandleLeaveOne(old(G()), m, false, pick), panic, G(), old(sent), sent, installs, installs)
      ensures ValidPick(old(G()), pick) && code == LeaveCode(old(G()), (m, false))
    {
      hide Inv, JoinsDistinct, ValidPick, RemoveMember;
      panic, pick := RemoveMemberAndRebalance(m);
      code := None;
    }

    method LeavePending(m: Id) returns (panic: Option<PanicReason>, code: Option<ErrorCode>, ghost pick: Pick)
      requires Valid() && m !in members
      modifies this`pending
      ensures panic.None? && Valid()
      ensures Behaves(HandleLeaveOne(old(G()), m, false, pick), panic, G(), sent, sent, installs, installs)
      ensures ValidPick(old(G()), pick) && code == LeaveCode(old(G()), (m, false))
    {
      hide Inv, JoinsDistinct, ValidPick, RemoveMember;
      pick := AnyPick(G());
      code := ForgetPending(m);
      panic := None;
    }

    method ForgetPending(m: Id) returns (code: Option<ErrorCode>)
      requires Valid()
      modifies this`pending
      ensures Valid() && pending == old(pending) - {m}
      ensures code == if m in old(pending) then None else Some(UnknownMemberID)
    {
      hide Inv, JoinsDistinct;
      if m !in pending {
        assert pending - {m} == pending;
        return Some(UnknownMemberID);
      }
      ForgetInv(G(), m);
      pending := pending - {m};
      code := None;
    }

    /** The rebalance that ends an operation restores the invariant; `all` are the ids known before it. */
    method RebalanceReady(ghost all: set<Id>) returns (panic: Option<PanicReason>, ghost pick: Pick)
      requires BeforeRebalance(G()) && JoinsDistinct(members) && members.Keys <= all
      modifies this
      ensures installs == old(installs) && (panic.None? ==> Valid())
      ensures Behaves(Groups.Rebalance(old(G()), pick), panic, G(), old(sent), sent, installs, installs)
      ensures PicksAll(all, pick)
    {
      panic, pick := Rebalance();
      pick := WholePick(old(G()), pick, panic, all);
      if panic.None? { RebalanceInv(old(G()), pick); }
    }
  }

  // ---------------------------------------------------------------------
  // Orders of iteration
  // ---------------------------------------------------------------------

  /** Any orders at all, for a request that does not iterate. */
  lemma AnyPick(g: Group) returns (pick: Pick)
    ensures ValidPick(g, pick)
  {
    var all := Listing(Known(g));
    pick := Pick(all, all, "");
  }

  lemma AnyOrder(all: set<Id>) returns (order: seq<Id>)
    ensures Enumerates(order, all)
  {
    order := Listing(all);
  }

  /** The ids of a set, each once. */
  ghost function Listing(ids: set<Id>): (order: seq<Id>)
    ensures Distinct(order) && forall m :: m in order <==> m in ids
  {
    if ids == {} then [] else
    var m :| m in ids;
    [m] + Listing(ids - {m})
  }

  ghost function Unvisited(order: seq<Id>, all: set<Id>): seq<Id> {
    Listing(set m | m in all && m !in order)
  }

  /** An order of iteration, continued with what it has not met. */
  ghost function Whole(order: seq<Id>, all: set<Id>): seq<Id> { order + Unvisited(order, all) }

  lemma WholeEnumerates(order: seq<Id>, all: set<Id>)
    requires Distinct(order)
    ensures Enumerates(Whole(order, all), all)
  {
    var rest := Unvisited(order, all);
    forall m | m in all ensures m in Whole(order, all) {
      assert m in order || m in rest;
    }
    forall i, j | 0 <= i < j < |Whole(order, all)| ensures Whole(order, all)[i] != Whole(order, all)[j] {
      if i < |order| <= j { assert rest[j - |order|] in rest; }
    }
  }

  lemma {:induction false} AnswersNobody(g: Group, foundLeader: bool, rest: seq<Id>)
    requires forall m :: m in rest ==> m !in g.members
    ensures AnswerJoins(g, foundLeader, rest) == Next(g, [], None)
    decreases |rest|
  {
    if rest != [] {
      assert rest[0] in rest;
      AnswersNobody(g, foundLeader, rest[1..]);
    }
  }

  /** Ids that are not members do not change what is answered, and nothing does after a panic. */
  lemma {:induction false} AnswersOn(g: Group, foundLeader: bool, order: seq<Id>, rest: seq<Id>)
    requires AnswerJoins(g, foundLeader, order).Panic? || forall m :: m in rest ==> m !in g.members
    ensures AnswerJoins(g, foundLeader, order + rest) == AnswerJoins(g, foundLeader, order)
    decreases |order|
  {
    if order == [] {
      assert order + rest == rest;
      AnswersNobody(g, foundLeader, rest);
    } else {
      assert (order + rest)[1..] == order[1..] + rest;
      if order[0] !in g.members || g.members[order[0]].waiting.None? {
        AnswersOn(g, foundLeader, order[1..], rest);
      } else {
        var m := order[0];
        var g1 := if foundLeader then g else g.(leader := m);
        var reply := FillJoin(g1, g1.members[m].waiting.value.id, g1.members[m].join.memberId);
        if reply.Some? {
          AnswersOn(g1.(members := g1.members[m := g1.members[m].(waiting := None)]), foundLeader, order[1..], rest);
        }
      }
    }
  }

  lemma {:induction false} RefusesOn(members: map<Id, Member>, order: seq<Id>, rest: seq<Id>)
    requires forall m :: m in rest ==> m !in members
    ensures SyncRefusals(members, order + rest) == SyncRefusals(members, order)
    decreases |order| + |rest|
  {
    if order != [] {
      assert (order + rest)[1..] == order[1..] + rest;
      RefusesOn(members, order[1..], rest);
    } else if rest != [] {
      assert order + rest == rest && rest[0] in rest;
      RefusesOn(members, [], rest[1..]);
      assert [] + rest[1..] == rest[1..];
    }
  }

  lemma {:induction false} RepliesOn(
      members: map<Id, Member>, protocol: string, entries: seq<(Id, Blob)>, order: seq<Id>, rest: seq<Id>)
    requires forall m :: m in rest ==> m !in members
    ensures SyncReplies(members, protocol, entries, order + rest) == SyncReplies(members, protocol, entries, order)
    decreases |order| + |rest|
  {
    if order != [] {
      assert (order + rest)[1..] == order[1..] + rest;
      RepliesOn(members, protocol, entries, order[1..], rest);
    } else if rest != [] {
      assert order + rest == rest && rest[0] in rest;
      RepliesOn(members, protocol, entries, [], rest[1..]);
      assert [] + rest[1..] == rest[1..];
    }
  }

  /** The orders that a rebalance went by, continued to all ids: it would have done the same. */
  lemma WholePick(g: Group, pick: Pick, panic: Option<PanicReason>, all: set<Id>) returns (whole: Pick)
    requires Reaches(g, pick, panic) && g.members.Keys <= all
    requires var o := Groups.Rebalance(g, pick); if panic.None? then o.Next? else o.Panic?
    ensures Groups.Rebalance(g, whole) == Groups.Rebalance(g, pick)
    ensures PicksAll(all, whole)
  {
    whole := Pick(Whole(pick.syncs, all), Whole(pick.joins, all), pick.protocol);
    WholeEnumerates(pick.syncs, all);
    WholeEnumerates(pick.joins, all);
    if g.state == CompletingRebalance { RefusesOn(g.members, pick.syncs, Unvisited(pick.syncs, all)); }
    var members := if g.state == CompletingRebalance then ClearSyncs(g.members) else g.members;
    var g1 := g.(members := members, state := PreparingRebalance);
    if g1.nJoining >= |g1.members| { WholeJoins(g1, pick, whole, all); }
  }

  lemma WholeJoins(g: Group, pick: Pick, whole: Pick, all: set<Id>)
    requires whole.joins == Whole(pick.joins, all) && whole.protocol == pick.protocol
    requires Groups.CompleteRebalance(g, pick).Panic? || Enumerates(pick.joins, Staying(g.members).Keys)
    ensures Groups.CompleteRebalance(g, whole) == Groups.CompleteRebalance(g, pick)
  {
    var g1 := Evicted(g);
    if g1.members != map[] && HasCandidate(g1.protocols, |g1.members|) {
      AnswersOn(g1.(state := CompletingRebalance, protocol := Candidate(g1.protocols, |g1.members|, pick.protocol)),
                g.leader in Staying(g.members), pick.joins, Unvisited(pick.joins, all));
    }
  }

  // ---------------------------------------------------------------------
  // Lemmas for the loops
  // ---------------------------------------------------------------------

  /** `order` lists the members already met, each once. */
  ghost predicate Visited(order: seq<Id>, all: set<Id>, todo: set<Id>) {
    (forall m :: m in order <==> m in all && m !in todo) &&
    (forall i, j :: 0 <= i < j < |order| ==> order[i] != order[j])
  }

  lemma VisitNext(order: seq<Id>, all: set<Id>, todo: set<Id>, m: Id)
    requires Visited(order, all, todo) && m in todo && todo <= all
    ensures Visited(order + [m], all, todo - {m})
  {
  }

  lemma NobodyVisited(all: set<Id>)
    ensures Visited([], all, all)
  {
  }

  /** The loop that answers the parked joins has met those in `order`, and those in `todo` still wait. */
  ghost predicate Answering(all: map<Id, Member>, members: map<Id, Member>, todo: set<Id>, order: seq<Id>) {
    todo <= all.Keys && SameJoins(members, all) && Visited(order, all.Keys, todo) &&
    forall m :: m in todo ==> members[m].waiting.Some?
  }

  lemma AnsweringStarts(all: map<Id, Member>)
    requires forall m :: m in all ==> all[m].waiting.Some?
    ensures Answering(all, all, all.Keys, [])
  {
  }

  lemma AnsweringNext(all: map<Id, Member>, members: map<Id, Member>, todo: set<Id>, order: seq<Id>, m: Id)
    requires Answering(all, members, todo, order) && m in todo
    ensures m in members && members[m].waiting.Some? && Distinct(order + [m])
    ensures Answering(all, members[m := members[m].(waiting := None)], todo - {m}, order + [m])
  {
    VisitNext(order, all.Keys, todo, m);
  }

  lemma AnsweringEnds(all: map<Id, Member>, members: map<Id, Member>, order: seq<Id>)
    requires Answering(all, members, {}, order)
    ensures Enumerates(order, all.Keys) && SameJoins(members, all) && Distinct(order)
  {
  }

  lemma VisitedAll(order: seq<Id>, all: set<Id>)
    requires Visited(order, all, {})
    ensures Enumerates(order, all)
  {
  }

  lemma BumpNext(counts: map<string, int>, join: Join, d: int, i: nat)
    requires DistinctNames(join) && i < |join.protocols|
    ensures
      var before := Bump(counts, join.(protocols := join.protocols[..i]), d);
      var name := join.protocols[i].name;
      Bump(counts, join.(protocols := join.protocols[..i + 1]), d) == before[name := Count(before, name) + d]
  {
    var shorter, longer := join.(protocols := join.protocols[..i]), join.(protocols := join.protocols[..i + 1]);
    assert longer.protocols == shorter.protocols + [join.protocols[i]];
    NamesSnoc(shorter, longer, join.protocols[i]);
    assert join.protocols[i].name !in Names(shorter);
  }

  lemma NamesSnoc(shorter: Join, longer: Join, p: Protocol)
    requires longer.protocols == shorter.protocols + [p]
    ensures Names(longer) == Names(shorter) + {p.name}
  {
    forall name | name in Names(shorter) ensures name in Names(longer) {
      var i :| 0 <= i < |shorter.protocols| && shorter.protocols[i].name == name;
      assert longer.protocols[i].name == name;
    }
    assert longer.protocols[|shorter.protocols|].name == p.name;
    forall name | name in Names(longer) ensures name in Names(shorter) + {p.name} {
      var i :| 0 <= i < |longer.protocols| && longer.protocols[i].name == name;
      if i < |shorter.protocols| { assert shorter.protocols[i].name == name; }
    }
  }

  lemma DropNone(counts: map<string, int>)
    ensures Drop(counts, map[]) == counts
  {
    forall p ensures Supporters(map[], p) == {} {
    }
  }

  lemma NamesAreCounted(g: Group, m: Id)
    requires Counted(g) && m in g.members
    ensures Names(g.members[m].join) <= g.protocols.Keys
  {
    forall p | p in Names(g.members[m].join) ensures p in g.protocols {
      assert m in Supporters(g.members, p);
      assert Count(g.protocols, p) == |Supporters(g.members, p)|;
    }
  }

  lemma DropNext(counts: map<string, int>, gone: map<Id, Member>, m: Id, member: Member)
    requires m !in gone && Names(member.join) <= counts.Keys
    ensures Drop(counts, gone[m := member]) == Bump(Drop(counts, gone), member.join, -1)
  {
    forall p | p in counts
      ensures |Supporters(gone[m := member], p)| == |Supporters(gone, p)| + if p in Names(member.join) then 1 else 0
    {
      SupportersWith(gone, m, member, p);
    }
  }

  /** The members while those in `todo` have not been looked at. */
  function Kept(all: map<Id, Member>, todo: set<Id>): map<Id, Member> {
    map m | m in all && (m in todo || all[m].waiting.Some?) :: all[m]
  }

  function Gone(all: map<Id, Member>, todo: set<Id>): map<Id, Member> {
    map m | m in all && m !in todo && all[m].waiting.None? :: all[m]
  }

  lemma EvictStart(all: map<Id, Member>, counts: map<string, int>)
    ensures Kept(all, all.Keys) == all && Drop(counts, Gone(all, all.Keys)) == counts
  {
    assert Gone(all, all.Keys) == map[];
    DropNone(counts);
  }

  lemma EvictEnd(all: map<Id, Member>)
    ensures Kept(all, {}) == Staying(all) && Gone(all, {}) == Leaving(all)
    ensures forall m :: m in Staying(all) <==> m in all && all[m].waiting.Some?
  {
  }

  lemma EvictStep(g: Group, all: map<Id, Member>, todo: set<Id>, m: Id)
    requires Counted(g) && all == g.members && m in todo && todo <= all.Keys
    ensures m in Kept(all, todo) && Kept(all, todo)[m] == all[m]
    ensures all[m].waiting.Some? ==> Kept(all, todo - {m}) == Kept(all, todo) && Gone(all, todo - {m}) == Gone(all, todo)
    ensures all[m].waiting.None? ==>
      Kept(all, todo - {m}) == Kept(all, todo) - {m} &&
      Drop(g.protocols, Gone(all, todo - {m})) == Bump(Drop(g.protocols, Gone(all, todo)), all[m].join, -1)
  {
    if all[m].waiting.None? {
      GoneNext(all, todo, m);
      NamesAreCounted(g, m);
      DropNext(g.protocols, Gone(all, todo), m, all[m]);
    } else {
      StaysKept(all, todo, m);
    }
  }

  lemma StaysKept(all: map<Id, Member>, todo: set<Id>, m: Id)
    requires m in todo && todo <= all.Keys && all[m].waiting.Some?
    ensures Kept(all, todo - {m}) == Kept(all, todo) && Gone(all, todo - {m}) == Gone(all, todo)
  {
  }

  lemma GoneNext(all: map<Id, Member>, todo: set<Id>, m: Id)
    requires m in todo && todo <= all.Keys && all[m].waiting.None?
    ensures Kept(all, todo - {m}) == Kept(all, todo) - {m}
    ensures m !in Gone(all, todo) && Gone(all, todo - {m}) == Gone(all, todo)[m := all[m]]
  {
  }

  lemma RosterIs(members: map<Id, Member>, protocol: string, roster: map<Id, Blob>)
    requires roster.Keys == members.Keys
    requires forall k :: k in roster ==> Metadata(members[k].join.protocols, protocol) == Some(roster[k])
    ensures Roster(members, protocol) == Some(roster)
  {
    forall m | m in members ensures Metadata(members[m].join.protocols, protocol) == Some(roster[m]) {
      assert m in roster;
    }
    assert Roster(members, protocol).Some?;
    assert Roster(members, protocol).value == roster;
  }

  ghost predicate AnsweredSoFar(
      g0: Group, foundLeader: bool, order: seq<Id>, g: Group, sent0: seq<Reply>, sent: seq<Reply>)
  {
    var o := AnswerJoins(g0, foundLeader, order);
    o.Next? && o.g == g && sent == sent0 + o.replies && o.install == None
  }

  lemma AnsweredStarts(g: Group, foundLeader: bool, sent: seq<Reply>)
    ensures AnsweredSoFar(g, foundLeader, [], g, sent, sent)
  {
  }

  lemma AnsweredEnds(
      g0: Group, foundLeader: bool, order: seq<Id>, g: Group, sent0: seq<Reply>, sent: seq<Reply>, installs: seq<Install>)
    requires AnsweredSoFar(g0, foundLeader, order, g, sent0, sent)
    ensures Behaves(AnswerJoins(g0, foundLeader, order), None, g, sent0, sent, installs, installs)
  {
  }

  /** One more member in the order is one more turn of the loop. */
  lemma {:induction false} AnswerSnoc(g: Group, foundLeader: bool, order: seq<Id>, m: Id)
    ensures AnswerJoins(g, foundLeader, order + [m]) ==
            var o := AnswerJoins(g, foundLeader, order);
            if o.Panic? then o else Prepend(o.replies, AnswerJoins(o.g, foundLeader, [m]))
    decreases |order|
  {
    if order == [] {
      assert order + [m] == [m];
      PrependNothing(AnswerJoins(g, foundLeader, [m]));
    } else {
      assert (order + [m])[1..] == order[1..] + [m];
      if order[0] !in g.members || g.members[order[0]].waiting.None? {
        AnswerSnoc(g, foundLeader, order[1..], m);
      } else {
        var k := order[0];
        var g1 := if foundLeader then g else g.(leader := k);
        var g2 := g1.(members := g1.members[k := g1.members[k].(waiting := None)]);
        AnswerSnoc(g2, foundLeader, order[1..], m);
        var reply := FillJoin(g1, g1.members[k].waiting.value.id, g1.members[k].join.memberId);
        var o := AnswerJoins(g2, foundLeader, order[1..]);
        if reply.Some? && o.Next? { PrependTwice([reply.value], o.replies, AnswerJoins(o.g, foundLeader, [m])); }
      }
    }
  }

  lemma PrependNothing(o: Outcome)
    ensures Prepend([], o) == o
  {
    if o.Next? { assert [] + o.replies == o.replies; }
  }

  lemma PrependTwice(a: seq<Reply>, b: seq<Reply>, o: Outcome)
    ensures Prepend(a, Prepend(b, o)) == Prepend(a + b, o)
  {
    if o.Next? { assert a + (b + o.replies) == a + b + o.replies; }
  }

  lemma AnswerNext(
      g0: Group, foundLeader: bool, order: seq<Id>, g: Group, sent0: seq<Reply>, sent: seq<Reply>, m: Id)
    requires AnsweredSoFar(g0, foundLeader, order, g, sent0, sent) && m in g.members && g.members[m].waiting.Some?
    ensures
      var g1 := if foundLeader then g else g.(leader := m);
      var reply := FillJoin(g1, g1.members[m].waiting.value.id, g1.members[m].join.memberId);
      if reply.None? then AnswerJoins(g0, foundLeader, order + [m]) == Panic(InconsistentProtocol)
      else AnsweredSoFar(g0, foundLeader, order + [m],
                         g1.(members := g1.members[m := g1.members[m].(waiting := None)]), sent0, sent + [reply.value])
  {
    AnswerSnoc(g0, foundLeader, order, m);
  }

  // ---------------------------------------------------------------------
  // Clearing the parked syncs
  // ---------------------------------------------------------------------

  /** The members while those in `todo` have not been looked at. */
  function Cleared(all: map<Id, Member>, todo: set<Id>): map<Id, Member> {
    map m | m in all :: if m in todo then all[m] else ClearedMember(all[m])
  }

  function ClearedMember(m: Member): Member {
    Member(m.join, if WaitsInSync(m) then None else m.waiting, None)
  }

  lemma ClearStart(all: map<Id, Member>)
    ensures Cleared(all, all.Keys) == all
  {
  }

  lemma ClearStep(all: map<Id, Member>, todo: set<Id>, m: Id)
    requires m in todo && todo <= all.Keys
    ensures Cleared(all, todo - {m}) == Cleared(all, todo)[m := ClearedMember(all[m])] && Cleared(all, todo)[m] == all[m]
  {
  }

  lemma ClearEnd(all: map<Id, Member>)
    ensures Cleared(all, {}) == ClearSyncs(all)
  {
  }

  lemma {:induction false} RefusalsSnoc(all: map<Id, Member>, order: seq<Id>, m: Id)
    requires m in all
    ensures SyncRefusals(all, order + [m]) ==
            SyncRefusals(all, order)
            + if WaitsInSync(all[m]) then [Refused(all[m].waiting.value.id, RebalanceInProgress)] else []
  {
    if order == [] {
      assert order + [m] == [m] && [m][1..] == [];
    } else {
      assert (order + [m])[1..] == order[1..] + [m];
      RefusalsSnoc(all, order[1..], m);
      Regroup(if order[0] in all && WaitsInSync(all[order[0]])
              then [Refused(all[order[0]].waiting.value.id, RebalanceInProgress)] else [],
              SyncRefusals(all, order[1..]),
              if WaitsInSync(all[m]) then [Refused(all[m].waiting.value.id, RebalanceInProgress)] else []);
    }
  }

  lemma ThenCompletes(
      g: Group, g1: Group, pick: Pick, syncs: seq<Id>, panic: Option<PanicReason>, g2: Group,
      sent: seq<Reply>, sent1: seq<Reply>, sent2: seq<Reply>, installs: seq<Install>)
    requires
      var clearing := g.state == CompletingRebalance;
      g1 == g.(members := if clearing then ClearSyncs(g.members) else g.members, state := PreparingRebalance) &&
      sent1 == sent + if clearing then SyncRefusals(g.members, syncs) else []
    requires g1.nJoining >= |g1.members|
    requires Behaves(Groups.CompleteRebalance(g1, pick), panic, g2, sent1, sent2, installs, installs)
    ensures Behaves(Groups.Rebalance(g, pick.(syncs := syncs)), panic, g2, sent, sent2, installs, installs)
  {
    var o := Groups.CompleteRebalance(g1, pick);
    assert Groups.CompleteRebalance(g1, pick.(syncs := syncs)) == o;
    if o.Next? {
      Regroup(sent, if g.state == CompletingRebalance then SyncRefusals(g.members, syncs) else [], o.replies);
    }
  }

  /** The group and all replies sent so far. */
  datatype Snapshot = Snapshot(g: Group, sent: seq<Reply>)

  function LeaveCode(g: Group, entry: (Id, bool)): Option<ErrorCode> {
    if entry.1 || entry.0 !in g.members.Keys + g.pending.Keys then Some(UnknownMemberID) else None
  }

  /** The member is in the generation that it asks to join. */
  predicate AnswersAgain(g: Group, join: Join)
    requires join.memberId in g.members
  {
    var same := SameJoin(g.members[join.memberId].join, join);
    (g.state == CompletingRebalance && same) || (g.state == Stable && (g.leader != join.memberId || same))
  }

  lemma ChangedIsUpdate(g: Group, id: nat, join: Join)
    requires Inv(g) && g.state != Dead && join.memberId in g.members && !AnswersAgain(g, join)
    ensures forall pick :: Groups.HandleRejoin(g, id, join, pick) == UpdateMember(g, join.memberId, join, id, pick)
  {
  }

  lemma SamePick(g: Group, protocolType: string, pick: Pick)
    requires ValidPick(g.(protocolType := protocolType), pick)
    ensures ValidPick(g, pick)
  {
  }

  /** What one entry of a leave request does, and its error code. */
  ghost predicate LeavesBy(before: Snapshot, entry: (Id, bool), code: Option<ErrorCode>, pick: Pick, after: Snapshot) {
    code == LeaveCode(before.g, entry) && ValidPick(before.g, pick) &&
    LeavesAs(before, HandleLeaveOne(before.g, entry.0, entry.1, pick), after)
  }

  ghost predicate LeavesAs(before: Snapshot, o: Outcome, after: Snapshot) {
    o.Next? && o.install.None? && o.g == after.g && before.sent + o.replies == after.sent
  }

  ghost predicate PanicsBy(g: Group, entry: (Id, bool), pick: Pick, reason: PanicReason) {
    HandleLeaveOne(g, entry.0, entry.1, pick) == Panic(reason) && ValidPick(g, pick)
  }

  /** A leave request so far: the group and the replies before and after each of its entries. */
  ghost predicate LeaveRun(
      run: seq<Snapshot>, leaving: seq<(Id, bool)>, codes: seq<Option<ErrorCode>>, picks: seq<Pick>)
    decreases |codes|, 1
  {
    |run| == |codes| + 1 && |codes| <= |leaving| && |picks| == |codes| &&
    (codes != [] ==> LeaveStep(run, leaving, codes, picks))
  }

  ghost predicate LeaveStep(
      run: seq<Snapshot>, leaving: seq<(Id, bool)>, codes: seq<Option<ErrorCode>>, picks: seq<Pick>)
    requires |run| == |codes| + 1 && 0 < |codes| <= |leaving| && |picks| == |codes|
    decreases |codes|, 0
  {
    var k := |codes| - 1;
    LeaveRun(run[..k + 1], leaving, codes[..k], picks[..k]) &&
    LeavesBy(run[k], leaving[k], codes[k], picks[k], run[k + 1])
  }

  lemma LeaveMore(
      run: seq<Snapshot>, leaving: seq<(Id, bool)>, codes: seq<Option<ErrorCode>>, picks: seq<Pick>,
      code: Option<ErrorCode>, pick: Pick, after: Snapshot)
    requires LeaveRun(run, leaving, codes, picks) && |codes| < |leaving|
    requires LeavesBy(run[|codes|], leaving[|codes|], code, pick, after)
    ensures LeaveRun(run + [after], leaving, codes + [code], picks + [pick])
  {
    hide LeavesBy;
    assert (run + [after])[..|run|] == run;
    assert (codes + [code])[..|codes|] == codes;
    assert (picks + [pick])[..|picks|] == picks;
    assert LeaveStep(run + [after], leaving, codes + [code], picks + [pick]);
  }

  lemma LeftBehaves(
      before: Snapshot, entry: (Id, bool), pick: Pick, code: Option<ErrorCode>, panic: Option<PanicReason>,
      after: Snapshot, installs: seq<Install>)
    requires Behaves(HandleLeaveOne(before.g, entry.0, entry.1, pick), panic, after.g, before.sent, after.sent,
                     installs, installs)
    requires ValidPick(before.g, pick) && code == LeaveCode(before.g, entry)
    ensures if panic.None? then LeavesBy(before, entry, code, pick, after) else PanicsBy(before.g, entry, pick, panic.value)
  {
  }

  /** Every member that asked to leave by its member ID alone is gone. */
  ghost predicate HaveLeft(leaving: seq<(Id, bool)>, members: set<Id>) {
    forall i :: 0 <= i < |leaving| ==> leaving[i].1 || leaving[i].0 !in members
  }

  /** None of the first `n` entries adds a member, and after each the one who asked to leave is gone. */
  ghost predicate Dwindles(run: seq<Snapshot>, leaving: seq<(Id, bool)>, n: nat) {
    n < |run| && n <= |leaving| &&
    (n > 0 ==>
      Dwindles(run, leaving, n - 1) && run[n].g.members.Keys <= run[n - 1].g.members.Keys &&
      (leaving[n - 1].1 || leaving[n - 1].0 !in run[n].g.members.Keys))
  }

  lemma {:induction false} DwindlesOn(run: seq<Snapshot>, leaving: seq<(Id, bool)>, n: nat, k: nat)
    requires k <= |run| && Dwindles(run[..k], leaving, n)
    ensures Dwindles(run, leaving, n)
  {
    if n > 0 { DwindlesOn(run, leaving, n - 1, k); }
  }

  lemma {:induction false} RunDwindles(
      run: seq<Snapshot>, leaving: seq<(Id, bool)>, codes: seq<Option<ErrorCode>>, picks: seq<Pick>)
    requires LeaveRun(run, leaving, codes, picks)
    ensures Dwindles(run, leaving, |codes|)
    decreases |codes|
  {
    hide LeavesBy, LeaveStep;
    if codes != [] {
      var k := |codes| - 1;
      LastLeft(run, leaving, codes, picks);
      RunDwindles(run[..k + 1], leaving, codes[..k], picks[..k]);
      DwindlesOn(run, leaving, k, k + 1);
    }
  }

  lemma {:induction false} DwindlesLeft(run: seq<Snapshot>, leaving: seq<(Id, bool)>, n: nat)
    requires Dwindles(run, leaving, n)
    ensures HaveLeft(leaving[..n], run[n].g.members.Keys)
  {
    if n > 0 {
      DwindlesLeft(run, leaving, n - 1);
      LeftOne(leaving, n - 1, run[n - 1].g.members.Keys, run[n].g.members.Keys);
    }
  }

  /** Whoever has left in a leave request stays away for the rest of it, whatever the rebalances do. */
  lemma AllHaveLeft(run: seq<Snapshot>, leaving: seq<(Id, bool)>, codes: seq<Option<ErrorCode>>, picks: seq<Pick>)
    requires LeaveRun(run, leaving, codes, picks)
    ensures HaveLeft(leaving[..|codes|], run[|codes|].g.members.Keys)
  {
    hide LeavesBy, LeaveStep, Dwindles, HaveLeft;
    RunDwindles(run, leaving, codes, picks);
    DwindlesLeft(run, leaving, |codes|);
  }

  /** The last entry of a leave request adds nobody, and the one who asked to leave is gone. */
  lemma LastLeft(run: seq<Snapshot>, leaving: seq<(Id, bool)>, codes: seq<Option<ErrorCode>>, picks: seq<Pick>)
    requires LeaveRun(run, leaving, codes, picks) && codes != []
    ensures var n := |codes|;
      LeaveRun(run[..n], leaving, codes[..n - 1], picks[..n - 1]) &&
      run[n].g.members.Keys <= run[n - 1].g.members.Keys && (leaving[n - 1].1 || leaving[n - 1].0 !in run[n].g.members.Keys)
  {
    hide LeavesBy;
    assert LeaveStep(run, leaving, codes, picks);
    var n := |codes|;
    LeftKeys(run[n - 1], leaving[n - 1], codes[n - 1], picks[n - 1], run[n]);
  }

  lemma LeftOne(leaving: seq<(Id, bool)>, k: nat, before: set<Id>, after: set<Id>)
    requires k < |leaving| && HaveLeft(leaving[..k], before) && after <= before
    requires leaving[k].1 || leaving[k].0 !in after
    ensures HaveLeft(leaving[..k + 1], after)
  {
    forall i | 0 <= i < k ensures leaving[i].1 || leaving[i].0 !in after {
      assert leaving[..k][i] == leaving[i];
    }
  }

  lemma LeftKeys(before: Snapshot, entry: (Id, bool), code: Option<ErrorCode>, pick: Pick, after: Snapshot)
    requires LeavesBy(before, entry, code, pick, after)
    ensures after.g.members.Keys <= before.g.members.Keys && (entry.1 || entry.0 !in after.g.members.Keys)
  {
    if entry.0 in before.g.members { RemoveKeys(before.g, entry.0, pick); }
  }

  /** A rebalance never adds a member. */
  lemma {:induction false} AnswersKeepKeys(g: Group, foundLeader: bool, order: seq<Id>)
    ensures var o := AnswerJoins(g, foundLeader, order); o.Next? ==> o.g.members.Keys == g.members.Keys
    decreases |order|
  {
    if order != [] {
      if order[0] !in g.members || g.members[order[0]].waiting.None? {
        AnswersKeepKeys(g, foundLeader, order[1..]);
      } else {
        var m := order[0];
        var g1 := if foundLeader then g else g.(leader := m);
        AnswersKeepKeys(g1.(members := g1.members[m := g1.members[m].(waiting := None)]), foundLeader, order[1..]);
      }
    }
  }

  lemma CompleteKeys(g: Group, pick: Pick)
    ensures var o := Groups.CompleteRebalance(g, pick); o.Next? ==> o.g.members.Keys <= g.members.Keys
  {
    var members := Staying(g.members);
    var counts := Drop(g.protocols, Leaving(g.members));
    if members != map[] && HasCandidate(counts, |members|) {
      AnswersKeepKeys(g.(timer := false, nJoining := 0, members := members, protocols := counts,
                         generation := NextGeneration(g.generation), state := CompletingRebalance,
                         protocol := Candidate(counts, |members|, pick.protocol)), g.leader in members, pick.joins);
    }
  }

  lemma RemoveKeys(g: Group, m: Id, pick: Pick)
    requires m in g.members
    ensures var o := RemoveMember(g, m, pick); o.Next? ==> o.g.members.Keys <= g.members.Keys - {m}
  {
    var g1 := Removed(g, m);
    var members := if g.state == CompletingRebalance then ClearSyncs(g1.members) else g1.members;
    CompleteKeys(g1.(members := members, state := PreparingRebalance), pick);
  }

  // ---------------------------------------------------------------------
  // Answering the parked syncs
  // ---------------------------------------------------------------------

  /** Everybody has the assignment; those outside `todo` have been answered, and none of them waited in join. */
  ghost predicate SyncedSoFar(all: map<Id, Member>, members: map<Id, Member>, todo: set<Id>, entries: seq<(Id, Blob)>) {
    members.Keys == all.Keys &&
    (forall m :: m in all && m !in todo ==>
      !WaitsInJoin(all[m]) && members[m] == all[m].(waiting := None, assignment := Assigned(entries, m))) &&
    (forall m :: m in all && m in todo ==> members[m] == all[m].(assignment := Assigned(entries, m)))
  }

  lemma SyncedStarts(all: map<Id, Member>, members: map<Id, Member>, entries: seq<(Id, Blob)>)
    requires SyncedSoFar(all, members, all.Keys, entries)
    ensures members.Keys == all.Keys
  {
  }

  lemma SyncedMember(all: map<Id, Member>, members: map<Id, Member>, todo: set<Id>, entries: seq<(Id, Blob)>, m: Id)
    requires SyncedSoFar(all, members, todo, entries) && m in todo && todo <= all.Keys
    ensures m in members && members[m] == all[m].(assignment := Assigned(entries, m))
    ensures !WaitsInJoin(members[m]) ==>
      SyncedSoFar(all, members[m := members[m].(waiting := None)], todo - {m}, entries)
  {
  }

  lemma SyncedAll(all: map<Id, Member>, members: map<Id, Member>, entries: seq<(Id, Blob)>)
    requires SyncedSoFar(all, members, {}, entries)
    ensures members == AssignAll(all, entries) && !(exists m :: m in all && WaitsInJoin(all[m]))
    ensures SameJoins(members, all)
  {
  }

  lemma AssignedSynced(all: map<Id, Member>, members: map<Id, Member>, entries: seq<(Id, Blob)>)
    requires members == map m | m in all :: all[m].(assignment := Assigned(entries, m))
    ensures SyncedSoFar(all, members, all.Keys, entries)
  {
  }

  lemma AllAssigned(all: map<Id, Member>, entries: seq<(Id, Blob)>)
    ensures forall m :: m in AssignAll(all, entries) ==> AssignedTo(entries, m, AssignAll(all, entries)[m].assignment)
  {
    hide Assigned, AssignedTo;
    forall m | m in all ensures AssignedTo(entries, m, Assigned(entries, m)) {
      AssignedHolds(entries, m);
    }
  }

  lemma SyncsToldAfter(
      sent: seq<Reply>, all: map<Id, Member>, protocol: string, entries: seq<(Id, Blob)>, order: seq<Id>)
    requires Enumerates(order, all.Keys)
    ensures var sent' := sent + SyncReplies(all, protocol, entries, order);
      |sent| <= |sent'| && SyncsTold(sent'[|sent|..], all, protocol, entries, order)
  {
    hide SyncsTold, SyncReplies;
    SyncsAnswered(all, protocol, entries, order);
    var replies := SyncReplies(all, protocol, entries, order);
    assert (sent + replies)[|sent|..] == replies;
  }

  lemma {:induction false} SyncRepliesSnoc(
      all: map<Id, Member>, protocol: string, entries: seq<(Id, Blob)>, order: seq<Id>, m: Id)
    requires m in all
    ensures SyncReplies(all, protocol, entries, order + [m]) ==
            SyncReplies(all, protocol, entries, order)
            + if WaitsInSync(all[m]) then [SyncOk(all[m].waiting.value.id, m, all[m].waiting.value.generation, protocol,
                                                  Assigned(entries, m))] else []
  {
    var last := if WaitsInSync(all[m]) then [SyncOk(all[m].waiting.value.id, m, all[m].waiting.value.generation, protocol,
                                                    Assigned(entries, m))] else [];
    if order == [] {
      assert order + [m] == [m] && [m][1..] == [];
    } else {
      assert (order + [m])[1..] == order[1..] + [m];
      SyncRepliesSnoc(all, protocol, entries, order[1..], m);
      var k := order[0];
      Regroup(if k in all && WaitsInSync(all[k])
              then [SyncOk(all[k].waiting.value.id, k, all[k].waiting.value.generation, protocol, Assigned(entries, k))]
              else [], SyncReplies(all, protocol, entries, order[1..]), last);
    }
  }

  lemma Regroup(a: seq<Reply>, b: seq<Reply>, c: seq<Reply>)
    ensures a + b + c == a + (b + c)
  {
  }
}
