/**
 Which answer each request gets in each state of the group, and what is in it.
 */
module GroupReplies {
  import opened Wrappers
  import opened Varints
  import opened Groups
  import opened GroupInvariant
  import opened GroupRuns

  predicate Refuses(o: Outcome, g: Group, id: nat, code: ErrorCode) { o == Next(g, [Refused(id, code)], None) }

  // ---------------------------------------------------------------------
  // Heartbeats and commits
  // ---------------------------------------------------------------------

  /** A heartbeat changes nothing, and these are its answers. */
  lemma HeartbeatReply(g: Group, id: nat, m: Id, generation: int)
    ensures var o := HandleHeartbeat(g, id, m, generation);
      var mine := m in g.members && generation == g.generation;
      (o == Next(g, [Done(id)], None) <==> mine && (g.state == Stable || g.state == CompletingRebalance)) &&
      (Refuses(o, g, id, RebalanceInProgress) <==> mine && g.state == PreparingRebalance) &&
      (Refuses(o, g, id, IllegalGeneration) <==> m in g.members && generation != g.generation) &&
      (Refuses(o, g, id, UnknownMemberID) <==> m !in g.members || (mine && (g.state == Empty || g.state == Dead)))
  {
  }

  /**
   A commit needs a member and the generation while there are members, and
   neither while there are none. It waits for nothing but the leader's sync.
   */
  lemma CommitReply(g: Group, id: nat, m: Id, generation: int)
    ensures var o := HandleOffsetCommit(g, id, m, generation);
      var named := if g.members == map[] then m == "" else m in g.members;
      var current := named && generation == (if g.members == map[] then -1 else g.generation);
      var stranded := g.members == map[] && g.state != Empty;
      (Refuses(o, g, id, UnknownMemberID) <==> !named) &&
      (Refuses(o, g, id, IllegalGeneration) <==> named && !current) &&
      (o == Panic(NoMembersButNotEmpty) <==> current && stranded) &&
      (o == Next(g, [Done(id)], None) <==> current && !stranded && g.state in {Empty, Stable, PreparingRebalance}) &&
      (Refuses(o, g, id, RebalanceInProgress) <==> current && !stranded && g.state == CompletingRebalance) &&
      (Refuses(o, g, id, GroupIDNotFound) <==> current && !stranded && g.state == Dead)
  {
  }

  // ---------------------------------------------------------------------
  // Joins
  // ---------------------------------------------------------------------

  /** The first protocol with this name has this metadata. */
  ghost predicate FirstNamed(ps: seq<Protocol>, name: string, metadata: Blob) {
    exists i :: 0 <= i < |ps| && ps[i] == Protocol(name, metadata) && forall j :: 0 <= j < i ==> ps[j].name != name
  }

  lemma {:induction false} MetadataIsFirst(ps: seq<Protocol>, name: string)
    requires Metadata(ps, name).Some?
    ensures FirstNamed(ps, name, Metadata(ps, name).value)
  {
    if ps[0].name == name {
      assert ps[0] == Protocol(name, ps[0].metadata);
    } else {
      MetadataIsFirst(ps[1..], name);
      var rest, metadata := ps[1..], Metadata(ps, name).value;
      var i :| 0 <= i < |rest| && rest[i] == Protocol(name, metadata) && forall j :: 0 <= j < i ==> rest[j].name != name;
      assert ps[i + 1] == Protocol(name, metadata);
      forall j | 0 <= j < i + 1 ensures ps[j].name != name {
        if j > 0 { assert rest[j - 1] == ps[j]; }
      }
    }
  }

  /** The leader is told the metadata of every member for the chosen protocol, and anybody else is told nobody's. */
  ghost predicate JoinTold(r: Reply, g: Group, id: nat, m: Id) {
    r.JoinOk? && r.id == id && r.member == m && r.generation == g.generation && r.protocol == g.protocol &&
    r.leader == g.leader &&
    if m == g.leader then
      r.roster.Keys == g.members.Keys &&
      forall k :: k in g.members ==> FirstNamed(g.members[k].join.protocols, g.protocol, r.roster[k])
    else r.roster == map[]
  }

  lemma JoinAnswer(g: Group, id: nat, m: Id)
    ensures var r := FillJoin(g, id, m);
      if r.Some? then JoinTold(r.value, g, id, m)
      else m == g.leader && exists k :: k in g.members && g.protocol !in Names(g.members[k].join)
  {
    var r := FillJoin(g, id, m);
    if r.None? {
      var k :| k in g.members && Metadata(g.members[k].join.protocols, g.protocol).None?;
      NamedMetadata(g.members[k].join, g.protocol);
    } else if m == g.leader {
      forall k | k in g.members ensures FirstNamed(g.members[k].join.protocols, g.protocol, r.value.roster[k]) {
        MetadataIsFirst(g.members[k].join.protocols, g.protocol);
      }
    }
  }

  /** A join fits a group that has no type yet if it has one, and otherwise if it shares the type and a protocol. */
  predicate Fits(g: Group, join: Join) {
    if g.protocolType == "" then join.protocolType != "" && join.protocols != []
    else join.protocolType == g.protocolType &&
         (g.protocols == map[] || exists i :: 0 <= i < |join.protocols| && join.protocols[i].name in g.protocols)
  }

  /**
   A join that does not fit changes nothing. One that fits gives the group its
   type, and is a new client, a pending member, a stranger or a member.
   */
  lemma JoinReply(g: Group, id: nat, join: Join, newId: Id, pick: Pick)
    ensures var o, g1, m := HandleJoin(g, id, join, newId, pick), g.(protocolType := join.protocolType), join.memberId;
      if !Fits(g, join) then Refuses(o, g, id, InconsistentGroupProtocol)
      else if m == "" then o == Next(g1.(pending := g.pending[newId := join]), [NewMember(id, newId)], None)
      else if m in g.pending then o == AddMember(g1, m, join, id, pick)
      else if m in g.members then o == HandleRejoin(g1, id, join, pick)
      else Refuses(o, g1, id, UnknownMemberID)
  {
  }

  /**
   A member that joins again gets the answer of its generation, and nothing
   changes, while the assignment is awaited and its protocols are the same, or
   when the group is stable and it is not a leader with new protocols. In every
   other case the group leaves its generation or goes on preparing the next.
   */
  lemma RejoinReply(g: Group, id: nat, join: Join, pick: Pick)
    requires Inv(g) && g.state != Dead && join.memberId in g.members
    ensures var o, m := HandleRejoin(g, id, join, pick), join.memberId;
      var same := g.members[m].join.protocols == join.protocols;
      if (g.state == CompletingRebalance && same) || (g.state == Stable && (m != g.leader || same)) then
        o.Next? && o.g == g && o.install.None? && |o.replies| == 1 && JoinTold(o.replies[0], g, id, m)
      else
        o == UpdateMember(g, m, join, id, pick) &&
        (o.Next? ==> o.g.state == PreparingRebalance || o.g.generation == NextGeneration(g.generation))
  {
    var m := join.memberId;
    if HandleRejoin(g, id, join, pick) == AnswerJoin(g, id, m) && g.state != PreparingRebalance {
      RosterComplete(g);
      JoinAnswer(g, id, m);
    }
    RebalanceHasEffect(Updated(g, m, join, id), pick);
  }

  // ---------------------------------------------------------------------
  // Syncs
  // ---------------------------------------------------------------------

  /** The reply answers the sync that its member has parked, with what the entries give to the member. */
  ghost predicate SyncTold(r: Reply, members: map<Id, Member>, protocol: string, entries: seq<(Id, Blob)>) {
    r.SyncOk? && r.member in members && members[r.member].waiting == Some(ParkedSync(r.id, r.generation)) &&
    r.protocol == protocol && AssignedTo(entries, r.member, r.assignment)
  }

  ghost predicate SyncFor(replies: seq<Reply>, m: Id) {
    exists i :: 0 <= i < |replies| && replies[i].SyncOk? && replies[i].member == m
  }

  predicate OtherMember(r: Reply, s: Reply) { r.SyncOk? && s.SyncOk? && r.member != s.member }

  /** Every parked sync of the members in `order` gets exactly one reply, and nobody else gets one. */
  ghost predicate SyncsTold(
      replies: seq<Reply>, members: map<Id, Member>, protocol: string, entries: seq<(Id, Blob)>, order: seq<Id>)
  {
    (forall i :: 0 <= i < |replies| ==>
      SyncTold(replies[i], members, protocol, entries) && replies[i].member in order) &&
    (forall i, j :: 0 <= i < j < |replies| ==> OtherMember(replies[i], replies[j])) &&
    (forall m :: m in order && m in members && WaitsInSync(members[m]) ==> SyncFor(replies, m))
  }

  lemma SyncForMore(first: Reply, rest: seq<Reply>, m: Id)
    requires first.SyncOk? && (first.member == m || SyncFor(rest, m))
    ensures SyncFor([first] + rest, m)
  {
    var all := [first] + rest;
    if first.member == m {
      assert all[0] == first;
    } else {
      var i :| 0 <= i < |rest| && rest[i].SyncOk? && rest[i].member == m;
      assert all[i + 1] == rest[i];
    }
  }

  lemma SyncsToldMore(
      first: Reply, rest: seq<Reply>, members: map<Id, Member>, protocol: string, entries: seq<(Id, Blob)>, order: seq<Id>)
    requires order != [] && order[0] !in order[1..] && SyncsTold(rest, members, protocol, entries, order[1..])
    requires SyncTold(first, members, protocol, entries) && first.member == order[0]
    ensures SyncsTold([first] + rest, members, protocol, entries, order)
  {
    hide SyncTold, SyncFor;
    TellsItsMember(first, members, protocol, entries);
    var all := [first] + rest;
    forall i | 0 <= i < |all|
      ensures SyncTold(all[i], members, protocol, entries) && all[i].SyncOk? && all[i].member in order
    {
      if i > 0 {
        assert all[i] == rest[i - 1];
        TellsItsMember(rest[i - 1], members, protocol, entries);
      }
    }
    forall i, j | 0 <= i < j < |all| ensures OtherMember(all[i], all[j]) {
      assert all[j] == rest[j - 1];
      TellsItsMember(rest[j - 1], members, protocol, entries);
      if i > 0 { assert all[i] == rest[i - 1]; }
    }
    forall m | m in order && m in members && WaitsInSync(members[m]) ensures SyncFor(all, m) {
      SyncForMore(first, rest, m);
    }
  }

  lemma TellsItsMember(r: Reply, members: map<Id, Member>, protocol: string, entries: seq<(Id, Blob)>)
    requires SyncTold(r, members, protocol, entries)
    ensures r.SyncOk?
  {
  }

  lemma SyncsToldLater(
      replies: seq<Reply>, members: map<Id, Member>, protocol: string, entries: seq<(Id, Blob)>, order: seq<Id>)
    requires order != [] && !(order[0] in members && WaitsInSync(members[order[0]]))
    requires SyncsTold(replies, members, protocol, entries, order[1..])
    ensures SyncsTold(replies, members, protocol, entries, order)
  {
    hide SyncFor;
  }

  lemma {:induction false} SyncsAnswered(
      members: map<Id, Member>, protocol: string, entries: seq<(Id, Blob)>, order: seq<Id>)
    requires forall i, j :: 0 <= i < j < |order| ==> order[i] != order[j]
    ensures SyncsTold(SyncReplies(members, protocol, entries, order), members, protocol, entries, order)
    decreases |order|
  {
    if order != [] {
      hide SyncsTold, AssignedTo, Assigned;
      SyncsAnswered(members, protocol, entries, order[1..]);
      var m, rest := order[0], SyncReplies(members, protocol, entries, order[1..]);
      if m in members && WaitsInSync(members[m]) {
        AssignedHolds(entries, m);
        var first := SyncOk(members[m].waiting.value.id, m, members[m].waiting.value.generation, protocol,
                            Assigned(entries, m));
        SyncsToldMore(first, rest, members, protocol, entries, order);
      } else {
        SyncsToldLater(rest, members, protocol, entries, order);
        assert [] + rest == rest;
      }
    }
  }

  predicate SyncMatches(g: Group, req: SyncRequest) {
    req.member in g.members && req.generation == g.generation &&
    (req.protocolType == None || req.protocolType == Some(g.protocolType)) &&
    (req.protocol == None || req.protocol == Some(g.protocol))
  }

  /** A sync that is refused, and one that a stable group answers, change nothing. */
  lemma SyncReply(g: Group, id: nat, req: SyncRequest, pick: Pick)
    ensures var o, known := HandleSync(g, id, req, pick), req.member in g.members;
      (Refuses(o, g, id, IllegalGeneration) <==> known && req.generation != g.generation) &&
      (Refuses(o, g, id, InconsistentGroupProtocol) <==> known && req.generation == g.generation && !SyncMatches(g, req)) &&
      (Refuses(o, g, id, RebalanceInProgress) <==> SyncMatches(g, req) && g.state == PreparingRebalance) &&
      (Refuses(o, g, id, UnknownMemberID) <==> !known || (SyncMatches(g, req) && (g.state == Empty || g.state == Dead))) &&
      (SyncMatches(g, req) && g.state == Stable ==>
        o == Next(g, [SyncOk(id, req.member, g.generation, g.protocol, g.members[req.member].assignment)], None))
  {
  }

  /** The members once the sync `id` of `m` is parked. */
  function WithParked(g: Group, m: Id, id: nat): map<Id, Member>
    requires m in g.members
  {
    g.members[m := g.members[m].(waiting := Some(ParkedSync(id, g.generation)))]
  }

  /**
   While the assignment is awaited a sync is parked without a reply. The
   leader's makes the group stable: every member holds what the leader's entries
   give to it, and every parked sync, the leader's own too, is told so once.
   */
  lemma SyncParks(g: Group, id: nat, req: SyncRequest, pick: Pick)
    requires Inv(g) && ValidPick(g, pick) && SyncMatches(g, req) && g.state == CompletingRebalance
    ensures var o, parked := HandleSync(g, id, req, pick), WithParked(g, req.member, id);
      o.Next? && o.g.members.Keys == g.members.Keys &&
      if req.member == g.leader then
        o.install == Some(Install(g.generation, req.entries)) && o.g == g.(members := o.g.members, state := Stable) &&
        (forall m :: m in g.members ==>
          o.g.members[m].waiting == None && o.g.members[m].join == g.members[m].join &&
          AssignedTo(req.entries, m, o.g.members[m].assignment)) &&
        SyncsTold(o.replies, parked, g.protocol, req.entries, pick.syncs)
      else o == Next(g.(members := parked), [], None)
  {
    if req.member == g.leader {
      hide HandleSync, Inv, ValidPick, AssignAll, AssignedTo, SyncsTold, SyncReplies, WithParked;
      LeaderSyncTells(g, id, req, pick);
      AssignAllKeeps(g, req.member, id, req.entries);
    } else {
      hide Inv, ValidPick;
    }
  }

  lemma AssignAllKeeps(g: Group, m: Id, id: nat, entries: seq<(Id, Blob)>)
    requires m in g.members
    ensures var after := AssignAll(WithParked(g, m, id), entries);
      after.Keys == g.members.Keys &&
      forall k :: k in g.members ==> after[k].waiting == None && after[k].join == g.members[k].join
  {
  }

  lemma LeaderSyncTells(g: Group, id: nat, req: SyncRequest, pick: Pick)
    requires Inv(g) && ValidPick(g, pick) && SyncMatches(g, req) && g.state == CompletingRebalance
    requires req.member == g.leader
    ensures var o, parked := HandleSync(g, id, req, pick), WithParked(g, req.member, id);
      o == Next(g.(members := AssignAll(parked, req.entries), state := Stable),
                SyncReplies(parked, g.protocol, req.entries, pick.syncs), Some(Install(g.generation, req.entries))) &&
      (forall m :: m in g.members ==> AssignedTo(req.entries, m, AssignAll(parked, req.entries)[m].assignment)) &&
      SyncsTold(o.replies, parked, g.protocol, req.entries, pick.syncs)
  {
    hide SyncsTold, AssignedTo, Assigned, SyncReplies, Counted, Identified, Led;
    var parked := WithParked(g, req.member, id);
    assert forall m :: m in parked ==> !WaitsInJoin(parked[m]);
    SyncsAnswered(parked, g.protocol, req.entries, pick.syncs);
    forall m | m in g.members ensures AssignedTo(req.entries, m, Assigned(req.entries, m)) {
      AssignedHolds(req.entries, m);
    }
  }

  /** An assignment takes effect exactly when the leader's own sync finds the group awaiting it. */
  lemma InstallsOnlyFromLeader(w: World, e: Event)
    requires Inv(w.g) && Possible(w, e)
    ensures var o := Handle(w.g, e);
      o.Next? && o.install.Some? <==>
        e.SyncEvent? && SyncMatches(w.g, e.req) && e.req.member == w.g.leader && w.g.state == CompletingRebalance
  {
    hide Inv, SyncMatches, Rebalance, CompleteRebalance, HandleJoin, HandleSync, ValidPick, Removed, NoSyncs;
    if e.SyncEvent? {
      InstallsBySync(w.g, e.id, e.req, e.pick);
    } else if e.JoinEvent? {
      NoInstallByJoin(w.g, e.id, e.join, e.newId, e.pick);
    } else if e.LeaveOne? && e.m in w.g.members {
      RebalanceHasEffect(Removed(w.g, e.m), e.pick);
    } else if e.SessionTimeout? {
      RebalanceHasEffect(Removed(w.g, e.m), e.pick);
    } else if e.RebalanceTimeout? {
      CompleteEffect(w.g, e.pick);
    }
  }

  lemma InstallsBySync(g: Group, id: nat, req: SyncRequest, pick: Pick)
    requires Inv(g) && ValidPick(g, pick)
    ensures var o := HandleSync(g, id, req, pick);
      o.Next? && o.install.Some? <==> SyncMatches(g, req) && req.member == g.leader && g.state == CompletingRebalance
  {
    if SyncMatches(g, req) && g.state == CompletingRebalance {
      hide Inv, ValidPick, SyncMatches, SyncsTold, AssignedTo, HandleSync;
      SyncParks(g, id, req, pick);
    } else {
      hide Inv, ValidPick, WithSync, CompleteLeaderSync;
    }
  }

  lemma NoInstallByJoin(g: Group, id: nat, join: Join, newId: Id, pick: Pick)
    ensures var o := HandleJoin(g, id, join, newId, pick); o.Next? ==> o.install.None?
  {
    var g1 := g.(protocolType := ProtocolsMatch(g, join).1);
    JoinSteps(g, id, join, newId, pick);
    RebalanceHasEffect(Added(g1, join.memberId, join, id), pick);
    if join.memberId in g1.members {
      RejoinCases(g1, id, join, pick);
      RebalanceHasEffect(Updated(g1, join.memberId, join, id), pick);
    }
  }

  // ---------------------------------------------------------------------
  // Parked syncs that are overtaken
  // ---------------------------------------------------------------------

  ghost predicate RefusesSync(members: map<Id, Member>, m: Id, r: Reply) {
    m in members && WaitsInSync(members[m]) && r == Refused(members[m].waiting.value.id, RebalanceInProgress)
  }

  lemma {:induction false} RefusalsTold(members: map<Id, Member>, order: seq<Id>)
    ensures forall m :: m in order && m in members && WaitsInSync(members[m]) ==>
      Refused(members[m].waiting.value.id, RebalanceInProgress) in SyncRefusals(members, order)
    ensures forall r :: r in SyncRefusals(members, order) ==> exists m :: m in order && RefusesSync(members, m, r)
    decreases |order|
  {
    if order != [] {
      RefusalsTold(members, order[1..]);
      var rest, all := SyncRefusals(members, order[1..]), SyncRefusals(members, order);
      forall r | r in all ensures exists m :: m in order && RefusesSync(members, m, r) {
        if r in rest {
          var m :| m in order[1..] && RefusesSync(members, m, r);
          assert m in order;
        } else {
          assert RefusesSync(members, order[0], r);
        }
      }
    }
  }

  /**
   A rebalance that overtakes a generation refuses exactly the parked syncs of
   that generation; one that starts elsewhere refuses nobody.
   */
  lemma RebalanceRefuses(g: Group, pick: Pick)
    requires Enumerates(pick.syncs, g.members.Keys) && Rebalance(g, pick).Next?
    ensures var o := Rebalance(g, pick);
      (g.state == CompletingRebalance ==>
        forall m :: m in g.members && WaitsInSync(g.members[m]) ==>
          Refused(g.members[m].waiting.value.id, RebalanceInProgress) in o.replies) &&
      (forall r :: r in o.replies && r.Refused? ==>
        g.state == CompletingRebalance && exists m :: RefusesSync(g.members, m, r))
  {
    RefusalsTold(g.members, pick.syncs);
    var clearing := g.state == CompletingRebalance;
    var refusals := if clearing then SyncRefusals(g.members, pick.syncs) else [];
    var g1 := g.(members := if clearing then ClearSyncs(g.members) else g.members, state := PreparingRebalance);
    if g1.nJoining >= |g1.members| { CompleteRefusesNobody(g1, pick); }
    var o := Rebalance(g, pick);
    forall r | r in o.replies && r.Refused? ensures clearing && exists m :: RefusesSync(g.members, m, r) {
      assert r in refusals;
    }
  }

  lemma CompleteRefusesNobody(g: Group, pick: Pick)
    ensures var o := CompleteRebalance(g, pick); o.Next? ==> forall r :: r in o.replies ==> r.JoinOk?
  {
    var g1 := Evicted(g);
    if g1.members != map[] && HasCandidate(g1.protocols, |g1.members|) {
      OnlyJoinsAnswered(g1.(state := CompletingRebalance, protocol := Candidate(g1.protocols, |g1.members|, pick.protocol)),
                        g.leader in Staying(g.members), pick.joins);
    }
  }

  lemma {:induction false} OnlyJoinsAnswered(g: Group, foundLeader: bool, order: seq<Id>)
    ensures var o := AnswerJoins(g, foundLeader, order); o.Next? ==> forall r :: r in o.replies ==> r.JoinOk?
    decreases |order|
  {
    if order != [] {
      var m := order[0];
      if m !in g.members || g.members[m].waiting.None? {
        OnlyJoinsAnswered(g, foundLeader, order[1..]);
      } else {
        var g1 := if foundLeader then g else g.(leader := m);
        OnlyJoinsAnswered(g1.(members := g1.members[m := g1.members[m].(waiting := None)]), foundLeader, order[1..]);
      }
    }
  }

  // ---------------------------------------------------------------------
  // Who stays
  // ---------------------------------------------------------------------

  /** `after` has no member that `before` lacks, and those that stay keep their joins and their assignments. */
  ghost predicate Keeps(before: map<Id, Member>, after: map<Id, Member>) {
    forall m :: m in after ==>
      m in before && after[m].join == before[m].join && after[m].assignment == before[m].assignment
  }

  lemma {:induction false} AnswersKeep(g: Group, foundLeader: bool, order: seq<Id>)
    ensures var o := AnswerJoins(g, foundLeader, order); o.Next? ==> Keeps(g.members, o.g.members) && o.g.pending == g.pending
    decreases |order|
  {
    if order != [] {
      var m := order[0];
      if m !in g.members || g.members[m].waiting.None? {
        AnswersKeep(g, foundLeader, order[1..]);
      } else {
        var g1 := if foundLeader then g else g.(leader := m);
        AnswersKeep(g1.(members := g1.members[m := g1.members[m].(waiting := None)]), foundLeader, order[1..]);
      }
    }
  }

  lemma CompleteKeeps(g: Group, pick: Pick)
    ensures var o := CompleteRebalance(g, pick); o.Next? ==> Keeps(g.members, o.g.members) && o.g.pending == g.pending
  {
    var g1 := Evicted(g);
    assert Keeps(g.members, g1.members);
    if g1.members != map[] && HasCandidate(g1.protocols, |g1.members|) {
      AnswersKeep(g1.(state := CompletingRebalance, protocol := Candidate(g1.protocols, |g1.members|, pick.protocol)),
                  g.leader in Staying(g.members), pick.joins);
    }
  }

  /** A rebalance lets nobody in. One that overtakes a generation takes every assignment back. */
  lemma RebalanceKeeps(g: Group, pick: Pick)
    ensures var o := Rebalance(g, pick);
      o.Next? ==>
        o.g.pending == g.pending && (forall m :: m in o.g.members ==> m in g.members) &&
        forall m :: m in o.g.members ==>
          o.g.members[m].join == g.members[m].join &&
          o.g.members[m].assignment == if g.state == CompletingRebalance then None else g.members[m].assignment
  {
    hide CompleteRebalance;
    var clearing := g.state == CompletingRebalance;
    var g1 := g.(members := if clearing then ClearSyncs(g.members) else g.members, state := PreparingRebalance);
    CompleteKeeps(g1, pick);
  }

  /**
   Whoever leaves, or lets its session or its pending join time out, is neither
   a member nor pending; an entry with an instance ID does nothing; and nobody
   else stops being pending.
   */
  lemma Departs(g: Group, e: Event)
    requires Inv(g) && (e.LeaveOne? || e.SessionTimeout? || e.PendingTimeout?) && (e.SessionTimeout? ==> e.m in g.members)
    requires e.PendingTimeout? ==> e.m !in g.members
    ensures var o := Handle(g, e);
      if e.LeaveOne? && e.hasInstance then o == Next(g, [], None)
      else o.Next? ==>
        e.m !in o.g.members && o.g.pending == g.pending - {e.m} && forall m :: m in o.g.members ==> m in g.members
  {
    if e.m in g.members {
      RebalanceKeeps(Removed(g, e.m), e.pick);
      assert g.pending - {e.m} == g.pending;
    }
  }

  /** Nothing happens to a group that has quit. */
  lemma QuitEnds(w: World, w': World, e: Event)
    requires Steps(w, Quit, w')
    ensures !Possible(w', e) && w'.replies == w.replies && w'.installs == w.installs
  {
    assert w'.replies == w.replies + [];
  }

  // ---------------------------------------------------------------------
  // Generations
  // ---------------------------------------------------------------------

  /** It starts at 0, counts from 1 to the greatest int32 and begins at 1 again. */
  function GenerationOf(n: nat): int { if n == 0 then 0 else (n - 1) % 0x7fff_ffff + 1 }

  /** The number of rebalances that a run has completed determines the generation. */
  lemma {:induction false} GenerationAfter(ws: seq<World>, es: seq<Event>, i: nat)
    requires IsRun(ws, es) && i < |ws|
    ensures ws[i].g.generation == GenerationOf(ws[i].epoch)
  {
    hide Good, Steps, GenerationOf, NextGeneration, IsRun;
    NextIsNext(0);
    if i == 0 {
      StartsAtZero(ws, es);
    } else {
      GenerationAfter(ws, es, i - 1);
      RunIsGood(ws, es, i - 1);
      StepOf(ws, es, i - 1);
      GenerationStep(ws[i - 1], es[i - 1], ws[i]);
      NextIsNext(ws[i - 1].epoch);
    }
  }

  lemma StartsAtZero(ws: seq<World>, es: seq<Event>)
    requires IsRun(ws, es)
    ensures |ws| > 0 && ws[0].g.generation == 0 && ws[0].epoch == 0
  {
  }

  lemma StepOf(ws: seq<World>, es: seq<Event>, i: nat)
    requires IsRun(ws, es) && i + 1 < |ws|
    ensures i < |es| && Steps(ws[i], es[i], ws[i + 1])
  {
    RunStep(ws, es, i);
  }

  lemma NextIsNext(n: nat)
    ensures GenerationOf(0) == 0 && NextGeneration(GenerationOf(n)) == GenerationOf(n + 1)
  {
  }

  lemma GenerationStep(w: World, e: Event, w': World)
    requires Good(w) && Steps(w, e, w')
    ensures (w'.g.generation == w.g.generation && w'.epoch == w.epoch) ||
            (w'.g.generation == NextGeneration(w.g.generation) && w'.epoch == w.epoch + 1)
  {
    hide Inv, History, AtMostOnce, Handle;
    assert Inv(w.g);
    StepEffect(w.g, e);
  }
}
