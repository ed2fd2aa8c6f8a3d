/**
 The group coordinator of `pkg/kfake/groups.go`, as a state machine over whole
 requests: the source handles them one at a time in the group's own loop.

 The functions here say what each operation does to the group and what it
 replies. Where the source depends on the order in which Go iterates over a
 map, that order is the argument `pick`.
 */
module Groups {
  import opened Wrappers
  import opened Varints

  type Id = string
  type Blob = seq<byte>

  datatype GroupState = Empty | Stable | PreparingRebalance | CompletingRebalance | Dead

  datatype Protocol = Protocol(name: string, metadata: Blob)

  datatype Join = Join(memberId: Id, protocolType: string, protocols: seq<Protocol>)

  /** A request waiting for its reply. */
  datatype Parked = ParkedJoin(id: nat) | ParkedSync(id: nat, generation: int)

  datatype Member = Member(join: Join, waiting: Option<Parked>, assignment: Option<Blob>)

  datatype Group = Group(
    state: GroupState,
    leader: Id,
    members: map<Id, Member>,
    pending: map<Id, Join>,
    generation: int,
    protocolType: string,
    protocols: map<string, int>,
    protocol: string,
    nJoining: int,
    timer: bool)

  datatype ErrorCode =
    | NotCoordinator | InvalidGroupID | InvalidSessionTimeout | InconsistentGroupProtocol | MemberIDRequired
    | UnknownMemberID | IllegalGeneration | RebalanceInProgress | GroupIDNotFound

  /** A reply to request `id`; the fields in `SyncOk` and `JoinOk` name the request's member and generation. */
  datatype Reply =
    | JoinOk(id: nat, member: Id, generation: int, protocol: string, leader: Id, roster: map<Id, Blob>)
    | NewMember(id: nat, member: Id)
    | SyncOk(id: nat, member: Id, generation: int, protocol: string, assignment: Option<Blob>)
    | Done(id: nat)
    | Refused(id: nat, code: ErrorCode)

  /** A leader's assignment taking effect. */
  datatype Install = Install(generation: int, entries: seq<(Id, Blob)>)

  datatype PanicReason = NoCommonProtocol | InconsistentProtocol | NotASync | NoMembersButNotEmpty

  datatype Outcome = Next(g: Group, replies: seq<Reply>, install: Option<Install>) | Panic(reason: PanicReason)

  /**
   How Go happens to iterate: the order in which parked syncs are answered, the
   order in which parked joins are answered, and the first protocol met.
   */
  datatype Pick = Pick(syncs: seq<Id>, joins: seq<Id>, protocol: string)

  const NewGroup := Group(Empty, "", map[], map[], 0, "", map[], "", 0, false)

  // ---------------------------------------------------------------------
  // Protocols
  // ---------------------------------------------------------------------

  function Names(j: Join): set<string> {
    set i | 0 <= i < |j.protocols| :: j.protocols[i].name
  }

  predicate DistinctNames(j: Join) {
    forall i, k :: 0 <= i < k < |j.protocols| ==> j.protocols[i].name != j.protocols[k].name
  }

  /** The metadata of the first protocol with this name. */
  function Metadata(ps: seq<Protocol>, name: string): Option<Blob> {
    if ps == [] then None
    else if ps[0].name == name then Some(ps[0].metadata)
    else Metadata(ps[1..], name)
  }

  function Count(counts: map<string, int>, p: string): int {
    if p in counts then counts[p] else 0
  }

  /** The counters after adding `d` for every protocol of a join. */
  function Bump(counts: map<string, int>, j: Join, d: int): map<string, int> {
    map p | p in counts.Keys + Names(j) :: Count(counts, p) + if p in Names(j) then d else 0
  }

  /** The members that list protocol `p`. */
  function Supporters(members: map<Id, Member>, p: string): set<Id> {
    set m | m in members && p in Names(members[m].join)
  }

  function Drop(counts: map<string, int>, gone: map<Id, Member>): map<string, int> {
    map p | p in counts :: counts[p] - |Supporters(gone, p)|
  }

  // ---------------------------------------------------------------------
  // Rebalancing
  // ---------------------------------------------------------------------

  predicate WaitsInSync(m: Member) { m.waiting.Some? && m.waiting.value.ParkedSync? }

  predicate WaitsInJoin(m: Member) { m.waiting.Some? && m.waiting.value.ParkedJoin? }

  function JoinWaiters(members: map<Id, Member>): set<Id> {
    set m | m in members && WaitsInJoin(members[m])
  }

  /** Members sitting in sync are told to rejoin, and every assignment is forgotten. */
  function ClearSyncs(members: map<Id, Member>): map<Id, Member> {
    map m | m in members ::
      Member(members[m].join, if WaitsInSync(members[m]) then None else members[m].waiting, None)
  }

  function SyncRefusals(members: map<Id, Member>, order: seq<Id>): seq<Reply> {
    if order == [] then []
    else (if order[0] in members && WaitsInSync(members[order[0]])
          then [Refused(members[order[0]].waiting.value.id, RebalanceInProgress)] else [])
         + SyncRefusals(members, order[1..])
  }

  ghost function Rebalance(g: Group, pick: Pick): Outcome {
    var clearing := g.state == CompletingRebalance;
    var replies := if clearing then SyncRefusals(g.members, pick.syncs) else [];
    var g1 := g.(members := if clearing then ClearSyncs(g.members) else g.members, state := PreparingRebalance);
    if g1.nJoining >= |g1.members| then Prepend(replies, CompleteRebalance(g1, pick))
    else Next(g1.(timer := true), replies, None)
  }

  function Prepend(replies: seq<Reply>, o: Outcome): Outcome {
    if o.Panic? then o else o.(replies := replies + o.replies)
  }

  function Staying(members: map<Id, Member>): map<Id, Member> {
    map m | m in members && members[m].waiting.Some? :: members[m]
  }

  function Leaving(members: map<Id, Member>): map<Id, Member> {
    map m | m in members && members[m].waiting.None? :: members[m]
  }

  function NextGeneration(generation: int): int {
    if generation == 0x7fff_ffff then 1 else generation + 1
  }

  /** The metadata of every member for the chosen protocol, which only the leader is sent. */
  function Roster(members: map<Id, Member>, protocol: string): Option<map<Id, Blob>> {
    if forall m :: m in members ==> Metadata(members[m].join.protocols, protocol).Some? then
      Some(map m | m in members :: Metadata(members[m].join.protocols, protocol).value)
    else None
  }

  function FillJoin(g: Group, id: nat, member: Id): Option<Reply> {
    if g.leader == member then
      var roster := Roster(g.members, g.protocol);
      if roster.None? then None else Some(JoinOk(id, member, g.generation, g.protocol, g.leader, roster.value))
    else Some(JoinOk(id, member, g.generation, g.protocol, g.leader, map[]))
  }

  /** The next generation, of the members that are waiting in join. */
  function Evicted(g: Group): Group {
    g.(timer := false, nJoining := 0, members := Staying(g.members),
       protocols := Drop(g.protocols, Leaving(g.members)), generation := NextGeneration(g.generation))
  }

  ghost function CompleteRebalance(g: Group, pick: Pick): Outcome {
    Settle(Evicted(g), g.leader in Staying(g.members), pick)
  }

  ghost function Settle(g: Group, foundLeader: bool, pick: Pick): Outcome {
    if g.members == map[] then Next(g.(state := Empty), [], None)
    else if !HasCandidate(g.protocols, |g.members|) then Panic(NoCommonProtocol)
    else AnswerJoins(g.(state := CompletingRebalance, protocol := Candidate(g.protocols, |g.members|, pick.protocol)),
                     foundLeader, pick.joins)
  }

  ghost predicate HasCandidate(counts: map<string, int>, n: nat) {
    exists p :: p in counts && counts[p] == n
  }

  /** A protocol that all `n` members support: the one Go meets first. */
  ghost function Candidate(counts: map<string, int>, n: nat, first: string): (p: string)
    requires HasCandidate(counts, n)
    ensures p in counts && counts[p] == n
  {
    if first in counts && counts[first] == n then first else
    var p :| p in counts && counts[p] == n;
    p
  }

  /** The loop that answers the parked joins; without the old leader every member in turn becomes the leader. */
  function AnswerJoins(g: Group, foundLeader: bool, order: seq<Id>): Outcome
    decreases |order|
  {
    if order == [] then Next(g, [], None)
    else if order[0] !in g.members || g.members[order[0]].waiting.None? then AnswerJoins(g, foundLeader, order[1..])
    else
      var m := order[0];
      var g1 := if foundLeader then g else g.(leader := m);
      var reply := FillJoin(g1, g1.members[m].waiting.value.id, g1.members[m].join.memberId);
      if reply.None? then Panic(InconsistentProtocol)
      else Prepend([reply.value],
                   AnswerJoins(g1.(members := g1.members[m := g1.members[m].(waiting := None)]), foundLeader, order[1..]))
  }

  // ---------------------------------------------------------------------
  // Assignments
  // ---------------------------------------------------------------------

  /** The last entry for a member. */
  function Assigned(entries: seq<(Id, Blob)>, m: Id): Option<Blob> {
    if entries == [] then None
    else if entries[|entries| - 1].0 == m then Some(entries[|entries| - 1].1)
    else Assigned(entries[..|entries| - 1], m)
  }

  /** Entry `i` is the last one that names `m`. */
  ghost predicate LastFor(entries: seq<(Id, Blob)>, m: Id, i: int) {
    0 <= i < |entries| && entries[i].0 == m && forall j :: i < j < |entries| ==> entries[j].0 != m
  }

  /** What the entries give to `m`: the blob of the last entry that names it, and nothing if none does. */
  ghost predicate AssignedTo(entries: seq<(Id, Blob)>, m: Id, a: Option<Blob>) {
    if a.Some? then exists i :: LastFor(entries, m, i) && entries[i].1 == a.value
    else forall i :: 0 <= i < |entries| ==> entries[i].0 != m
  }

  lemma {:induction false} AssignedIsLast(entries: seq<(Id, Blob)>, m: Id, a: Option<Blob>)
    ensures Assigned(entries, m) == a <==> AssignedTo(entries, m, a)
  {
    AssignedHolds(entries, m);
    if AssignedTo(entries, m, a) { OneAssignedTo(entries, m, a, Assigned(entries, m)); }
  }

  lemma {:induction false} AssignedHolds(entries: seq<(Id, Blob)>, m: Id)
    ensures AssignedTo(entries, m, Assigned(entries, m))
  {
    if entries != [] {
      var n := |entries| - 1;
      if entries[n].0 == m {
        assert LastFor(entries, m, n);
      } else {
        AssignedHolds(entries[..n], m);
        if Assigned(entries, m).Some? {
          var i :| LastFor(entries[..n], m, i) && entries[..n][i].1 == Assigned(entries, m).value;
          assert LastFor(entries, m, i);
        } else {
          forall i | 0 <= i < |entries| ensures entries[i].0 != m {
            if i < n { assert entries[..n][i] == entries[i]; }
          }
        }
      }
    }
  }

  lemma OneAssignedTo(entries: seq<(Id, Blob)>, m: Id, a: Option<Blob>, b: Option<Blob>)
    requires AssignedTo(entries, m, a) && AssignedTo(entries, m, b)
    ensures a == b
  {
    if a.Some? && b.Some? {
      var i :| LastFor(entries, m, i) && entries[i].1 == a.value;
      var j :| LastFor(entries, m, j) && entries[j].1 == b.value;
    }
  }

  function AssignAll(members: map<Id, Member>, entries: seq<(Id, Blob)>): map<Id, Member> {
    map m | m in members :: members[m].(waiting := None, assignment := Assigned(entries, m))
  }

  function SyncReplies(members: map<Id, Member>, protocol: string, entries: seq<(Id, Blob)>, order: seq<Id>): seq<Reply> {
    if order == [] then []
    else (if order[0] in members && WaitsInSync(members[order[0]])
          then [SyncOk(members[order[0]].waiting.value.id, order[0], members[order[0]].waiting.value.generation,
                       protocol, Assigned(entries, order[0]))] else [])
         + SyncReplies(members, protocol, entries, order[1..])
  }

  function CompleteLeaderSync(g: Group, entries: seq<(Id, Blob)>, order: seq<Id>): Outcome {
    if exists m :: m in g.members && WaitsInJoin(g.members[m]) then Panic(NotASync)
    else Next(g.(members := AssignAll(g.members, entries), state := Stable),
              SyncReplies(g.members, g.protocol, entries, order), Some(Install(g.generation, entries)))
  }

  // ---------------------------------------------------------------------
  // Members coming and going
  // ---------------------------------------------------------------------

  /** The member's new join replaces the old one, and whatever request the member had parked. */
  function Updated(g: Group, m: Id, join: Join, id: nat): Group
    requires m in g.members
  {
    var was := g.members[m];
    g.(protocols := Bump(Bump(g.protocols, was.join, -1), join, 1),
       nJoining := if was.waiting.None? then g.nJoining + 1 else g.nJoining,
       members := g.members[m := Member(join, Some(ParkedJoin(id)), was.assignment)])
  }

  ghost function UpdateMember(g: Group, m: Id, join: Join, id: nat, pick: Pick): Outcome
    requires m in g.members
  {
    Rebalance(Updated(g, m, join, id), pick)
  }

  function Removed(g: Group, m: Id): Group
    requires m in g.members
  {
    var was := g.members[m];
    g.(protocols := Bump(g.protocols, was.join, -1),
       nJoining := if was.waiting.Some? then g.nJoining - 1 else g.nJoining,
       members := g.members - {m})
  }

  /** A member leaves, or its session times out. */
  ghost function RemoveMember(g: Group, m: Id, pick: Pick): Outcome
    requires m in g.members
  {
    Rebalance(Removed(g, m), pick)
  }

  function Added(g: Group, m: Id, join: Join, id: nat): Group {
    g.(pending := g.pending - {m}, protocols := Bump(g.protocols, join, 1), nJoining := g.nJoining + 1,
       members := g.members[m := Member(join, Some(ParkedJoin(id)), None)])
  }

  ghost function AddMember(g: Group, m: Id, join: Join, id: nat, pick: Pick): Outcome {
    Rebalance(Added(g, m, join, id), pick)
  }

  // ---------------------------------------------------------------------
  // Requests
  // ---------------------------------------------------------------------

  datatype SyncRequest = SyncRequest(
    member: Id, generation: int, protocolType: Option<string>, protocol: Option<string>, entries: seq<(Id, Blob)>)

  /** Whether a join can enter, and the protocol type of the group afterwards. */
  function ProtocolsMatch(g: Group, j: Join): (bool, string) {
    if g.protocolType == "" then
      if j.protocolType == "" || j.protocols == [] then (false, "") else (true, j.protocolType)
    else if j.protocolType != g.protocolType then (false, g.protocolType)
    else (g.protocols == map[] || exists i :: 0 <= i < |j.protocols| && j.protocols[i].name in g.protocols, g.protocolType)
  }

  function SameJoin(a: Join, b: Join): bool { a.protocols == b.protocols }

  function Refuse(g: Group, id: nat, code: ErrorCode): Outcome { Next(g, [Refused(id, code)], None) }

  /** `newId` is the generated member ID. */
  ghost function HandleJoin(g: Group, id: nat, join: Join, newId: Id, pick: Pick): Outcome {
    var (ok, protocolType) := ProtocolsMatch(g, join);
    if !ok then Refuse(g, id, InconsistentGroupProtocol)
    else Admit(g.(protocolType := protocolType), id, join, newId, pick)
  }

  /** A join whose protocols match the group's. */
  ghost function Admit(g: Group, id: nat, join: Join, newId: Id, pick: Pick): Outcome {
    var m := join.memberId;
    if m == "" then Next(g.(pending := g.pending[newId := join]), [NewMember(id, newId)], None)
    else if m in g.pending then AddMember(g, m, join, id, pick)
    else if m !in g.members then Refuse(g, id, UnknownMemberID)
    else HandleRejoin(g, id, join, pick)
  }

  /** A join from a member the group already has. */
  ghost function HandleRejoin(g: Group, id: nat, join: Join, pick: Pick): Outcome
    requires join.memberId in g.members
  {
    var m := join.memberId;
    match g.state
    case PreparingRebalance => UpdateMember(g, m, join, id, pick)
    case CompletingRebalance =>
      if SameJoin(g.members[m].join, join) then AnswerJoin(g, id, m) else UpdateMember(g, m, join, id, pick)
    case Stable =>
      if g.leader != m || SameJoin(g.members[m].join, join) then AnswerJoin(g, id, m)
      else UpdateMember(g, m, join, id, pick)
    case _ => Refuse(g, id, UnknownMemberID)
  }

  function AnswerJoin(g: Group, id: nat, m: Id): Outcome {
    var reply := FillJoin(g, id, m);
    if reply.None? then Panic(InconsistentProtocol) else Next(g, [reply.value], None)
  }

  function HandleSync(g: Group, id: nat, req: SyncRequest, pick: Pick): Outcome {
    if req.member !in g.members then Refuse(g, id, UnknownMemberID)
    else if req.generation != g.generation then Refuse(g, id, IllegalGeneration)
    else if req.protocolType.Some? && req.protocolType.value != g.protocolType then
      Refuse(g, id, InconsistentGroupProtocol)
    else if req.protocol.Some? && req.protocol.value != g.protocol then Refuse(g, id, InconsistentGroupProtocol)
    else AcceptSync(g, id, req, pick)
  }

  /** The member's sync is parked. */
  function WithSync(g: Group, m: Id, id: nat): Group
    requires m in g.members
  {
    g.(members := g.members[m := g.members[m].(waiting := Some(ParkedSync(id, g.generation)))])
  }

  /** A sync that names a member, its generation and its protocol. */
  function AcceptSync(g: Group, id: nat, req: SyncRequest, pick: Pick): Outcome
    requires req.member in g.members && req.generation == g.generation
  {
    match g.state
    case PreparingRebalance => Refuse(g, id, RebalanceInProgress)
    case CompletingRebalance =>
      var g1 := WithSync(g, req.member, id);
      if req.member == g.leader then CompleteLeaderSync(g1, req.entries, pick.syncs) else Next(g1, [], None)
    case Stable =>
      Next(g, [SyncOk(id, req.member, g.generation, g.protocol, g.members[req.member].assignment)], None)
    case _ => Refuse(g, id, UnknownMemberID)
  }

  /** One member of a leave request; its reply is sent with the others when the request is done. */
  ghost function HandleLeaveOne(g: Group, m: Id, hasInstance: bool, pick: Pick): Outcome {
    if hasInstance then Next(g, [], None)
    else if m in g.members then RemoveMember(g, m, pick)
    else Next(g.(pending := g.pending - {m}), [], None)
  }

  function HandleHeartbeat(g: Group, id: nat, m: Id, generation: int): Outcome {
    if m !in g.members then Refuse(g, id, UnknownMemberID)
    else if generation != g.generation then Refuse(g, id, IllegalGeneration)
    else
      match g.state
      case PreparingRebalance => Refuse(g, id, RebalanceInProgress)
      case CompletingRebalance => Next(g, [Done(id)], None)
      case Stable => Next(g, [Done(id)], None)
      case _ => Refuse(g, id, UnknownMemberID)
  }

  /** Whether an offset commit takes effect; the offsets themselves are not part of the group's state here. */
  function HandleOffsetCommit(g: Group, id: nat, m: Id, generation: int): Outcome {
    if g.members != map[] && m !in g.members then Refuse(g, id, UnknownMemberID)
    else if g.members != map[] && generation != g.generation then Refuse(g, id, IllegalGeneration)
    else if g.members == map[] && m != "" then Refuse(g, id, UnknownMemberID)
    else if g.members == map[] && generation != -1 then Refuse(g, id, IllegalGeneration)
    else if g.members == map[] && g.state != Empty then Panic(NoMembersButNotEmpty)
    else
      match g.state
      case Empty => Next(g, [Done(id)], None)
      case PreparingRebalance => Next(g, [Done(id)], None)
      case Stable => Next(g, [Done(id)], None)
      case CompletingRebalance => Refuse(g, id, RebalanceInProgress)
      case Dead => Refuse(g, id, GroupIDNotFound)
  }
}
