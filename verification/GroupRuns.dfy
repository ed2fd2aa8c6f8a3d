/**
 Whole runs of a group: every sequence of requests, timeouts and rebalances.
 */
module GroupRuns {
  import opened Wrappers
  import opened Varints
  import opened Groups
  import opened GroupInvariant

  // ---------------------------------------------------------------------
  // Runs
  // ---------------------------------------------------------------------

  /**
   What the group's loop takes in. `Rejected` is a request refused before the
   group's state is looked at. A leave request is one `LeaveOne` for each of
   its members and a `LeaveReply`. Timeouts are those of current members and of
   the current rebalance.
   */
  datatype Event =
    | JoinEvent(id: nat, join: Join, newId: Id, pick: Pick)
    | SyncEvent(id: nat, req: SyncRequest, pick: Pick)
    | HeartbeatEvent(id: nat, m: Id, generation: int)
    | CommitEvent(id: nat, m: Id, generation: int)
    | LeaveOne(m: Id, hasInstance: bool, pick: Pick)
    | LeaveReply(id: nat)
    | Rejected(id: nat, code: ErrorCode)
    | SessionTimeout(m: Id, pick: Pick)
    | PendingTimeout(m: Id)
    | RebalanceTimeout(pick: Pick)
    | Quit

  ghost function Handle(g: Group, e: Event): Outcome
    requires e.SessionTimeout? ==> e.m in g.members
  {
    match e
    case JoinEvent(id, join, newId, pick) => HandleJoin(g, id, join, newId, pick)
    case SyncEvent(id, req, pick) => HandleSync(g, id, req, pick)
    case HeartbeatEvent(id, m, generation) => HandleHeartbeat(g, id, m, generation)
    case CommitEvent(id, m, generation) => HandleOffsetCommit(g, id, m, generation)
    case LeaveOne(m, hasInstance, pick) => HandleLeaveOne(g, m, hasInstance, pick)
    case LeaveReply(id) => Next(g, [Done(id)], None)
    case Rejected(id, code) => Refuse(g, id, code)
    case SessionTimeout(m, pick) => RemoveMember(g, m, pick)
    case PendingTimeout(m) => Next(g.(pending := g.pending - {m}), [], None)
    case RebalanceTimeout(pick) => CompleteRebalance(g, pick)
    case Quit => Next(g.(state := Dead), [], None)
  }

  predicate IsRequest(e: Event) {
    e.JoinEvent? || e.SyncEvent? || e.HeartbeatEvent? || e.CommitEvent? || e.LeaveReply? || e.Rejected?
  }

  /** A group and its history: rebalances completed, assignments installed, replies sent, request numbers seen. */
  datatype World = World(g: Group, epoch: nat, installs: seq<Install>, replies: seq<Reply>, seen: set<nat>)

  const Start := World(NewGroup, 0, [], [], {})

  ghost predicate Possible(w: World, e: Event) {
    w.g.state != Dead && (IsRequest(e) ==> e.id !in w.seen) &&
    match e
    case JoinEvent(_, _, newId, pick) =>
      ValidPick(w.g, pick) && newId != "" && newId !in w.g.members && newId !in w.g.pending
    case SyncEvent(_, _, pick) => ValidPick(w.g, pick)
    case LeaveOne(_, _, pick) => ValidPick(w.g, pick)
    case SessionTimeout(m, pick) => m in w.g.members && ValidPick(w.g, pick)
    case RebalanceTimeout(pick) => w.g.timer && ValidPick(w.g, pick)
    case _ => true
  }

  function Advance(w: World, e: Event, o: Outcome): World
    requires o.Next?
  {
    World(o.g, if o.g.generation == w.g.generation then w.epoch else w.epoch + 1,
          if o.install.Some? then w.installs + [o.install.value] else w.installs,
          w.replies + o.replies, if IsRequest(e) then w.seen + {e.id} else w.seen)
  }

  ghost predicate Steps(w: World, e: Event, w': World) {
    Possible(w, e) && Handle(w.g, e).Next? && w' == Advance(w, e, Handle(w.g, e))
  }

  ghost predicate IsRun(ws: seq<World>, es: seq<Event>) {
    |ws| == |es| + 1 && ws[0] == Start && forall i :: 0 <= i < |es| ==> Steps(ws[i], es[i], ws[i + 1])
  }

  // ---------------------------------------------------------------------
  // What one step does to generations and assignments
  // ---------------------------------------------------------------------

  ghost predicate NoSyncs(replies: seq<Reply>) { forall r :: r in replies ==> !r.SyncOk? }

  /** `r` tells its member the assignment that `entries` has for it, in generation `generation`. */
  predicate Carries(r: Reply, generation: int, entries: seq<(Id, Blob)>) {
    r.SyncOk? ==> r.generation == generation && r.assignment == Assigned(entries, r.member)
  }

  /** `r` tells its member the assignment it holds in the stable group `g`. */
  predicate Repeats(r: Reply, g: Group) {
    r.SyncOk? ==>
      g.state == Stable && r.generation == g.generation && r.member in g.members &&
      r.assignment == g.members[r.member].assignment
  }

  ghost predicate Effect(g: Group, o: Outcome) {
    o.Next? ==>
      (o.g.generation == g.generation || o.g.generation == NextGeneration(g.generation)) &&
      (o.g.state == CompletingRebalance && o.g.generation == g.generation ==> g.state == CompletingRebalance) &&
      (o.install.Some? ==>
        g.state == CompletingRebalance && o.g.state == Stable &&
        o.install.value.generation == g.generation == o.g.generation &&
        (forall m :: m in o.g.members ==> o.g.members[m].assignment == Assigned(o.install.value.entries, m)) &&
        (forall r :: r in o.replies ==> Carries(r, g.generation, o.install.value.entries))) &&
      (o.install.None? ==>
        (o.g.state == Stable ==> g.state == Stable && o.g.generation == g.generation && o.g.members == g.members) &&
        (forall r :: r in o.replies ==> Repeats(r, g)))
  }

  /** A rebalance starts a new generation or leaves the group preparing; it installs nothing. */
  ghost predicate RebalanceEffect(g: Group, o: Outcome) {
    o.Next? ==>
      o.install.None? && NoSyncs(o.replies) &&
      ((o.g.state == PreparingRebalance && o.g.generation == g.generation) ||
       ((o.g.state == Empty || o.g.state == CompletingRebalance) && o.g.generation == NextGeneration(g.generation)))
  }

  lemma {:induction false} AnswersAreJoins(g: Group, foundLeader: bool, order: seq<Id>)
    ensures var o := AnswerJoins(g, foundLeader, order);
      o.Next? ==> o.install.None? && NoSyncs(o.replies) && o.g.state == g.state && o.g.generation == g.generation
    decreases |order|
  {
    if order != [] {
      if order[0] !in g.members || g.members[order[0]].waiting.None? {
        AnswersAreJoins(g, foundLeader, order[1..]);
      } else {
        var m := order[0];
        var g1 := if foundLeader then g else g.(leader := m);
        AnswersAreJoins(g1.(members := g1.members[m := g1.members[m].(waiting := None)]), foundLeader, order[1..]);
      }
    }
  }

  lemma {:induction false} RefusalsAreNotSyncs(members: map<Id, Member>, order: seq<Id>)
    ensures NoSyncs(SyncRefusals(members, order))
  {
    if order != [] { RefusalsAreNotSyncs(members, order[1..]); }
  }

  lemma CompleteEffect(g: Group, pick: Pick)
    ensures RebalanceEffect(g, CompleteRebalance(g, pick))
  {
    var members := Staying(g.members);
    var counts := Drop(g.protocols, Leaving(g.members));
    if members != map[] && HasCandidate(counts, |members|) {
      var g1 := g.(timer := false, nJoining := 0, members := members, protocols := counts,
                   generation := NextGeneration(g.generation), state := CompletingRebalance,
                   protocol := Candidate(counts, |members|, pick.protocol));
      AnswersAreJoins(g1, g.leader in members, pick.joins);
    }
  }

  lemma RebalanceHasEffect(g: Group, pick: Pick)
    ensures RebalanceEffect(g, Rebalance(g, pick))
  {
    RefusalsAreNotSyncs(g.members, pick.syncs);
    var members := if g.state == CompletingRebalance then ClearSyncs(g.members) else g.members;
    CompleteEffect(g.(members := members, state := PreparingRebalance), pick);
  }

  lemma RebalanceIsEffect(g: Group, g1: Group, o: Outcome)
    requires RebalanceEffect(g1, o) && g1.generation == g.generation
    ensures Effect(g, o)
  {
  }

  lemma {:induction false} SyncRepliesCarry(
      members: map<Id, Member>, generation: int, protocol: string, entries: seq<(Id, Blob)>, order: seq<Id>)
    requires OnlySyncsWait(members, generation)
    ensures forall r :: r in SyncReplies(members, protocol, entries, order) ==> Carries(r, generation, entries)
  {
    if order != [] { SyncRepliesCarry(members, generation, protocol, entries, order[1..]); }
  }

  lemma AddEffect(g: Group, m: Id, join: Join, id: nat, pick: Pick)
    ensures Effect(g, AddMember(g, m, join, id, pick))
  {
    RebalanceHasEffect(Added(g, m, join, id), pick);
    RebalanceIsEffect(g, Added(g, m, join, id), AddMember(g, m, join, id, pick));
  }

  lemma UpdateEffect(g: Group, m: Id, join: Join, id: nat, pick: Pick)
    requires m in g.members
    ensures Effect(g, UpdateMember(g, m, join, id, pick))
  {
    RebalanceHasEffect(Updated(g, m, join, id), pick);
    RebalanceIsEffect(g, Updated(g, m, join, id), UpdateMember(g, m, join, id, pick));
  }

  lemma RemoveEffect(g: Group, m: Id, pick: Pick)
    requires m in g.members
    ensures Effect(g, RemoveMember(g, m, pick))
  {
    RebalanceHasEffect(Removed(g, m), pick);
    RebalanceIsEffect(g, Removed(g, m), RemoveMember(g, m, pick));
  }

  lemma QuietEffect(g: Group, o: Outcome)
    requires o.Next? ==> o.install.None? && NoSyncs(o.replies) && o.g.members == g.members
    requires o.Next? ==> o.g.generation == g.generation && o.g.state == g.state
    ensures Effect(g, o)
  {
  }

  lemma SameEffect(g: Group, g1: Group, o: Outcome)
    requires g1.state == g.state && g1.generation == g.generation && g1.members == g.members && Effect(g1, o)
    ensures Effect(g, o)
  {
  }

  /** One reply, to the request itself, and nothing else that matters changes. */
  ghost predicate Quiet(g: Group, id: nat, o: Outcome) {
    o.Next? && o.install.None? && o.g.members == g.members && o.g.generation == g.generation && o.g.state == g.state &&
    |o.replies| == 1 && o.replies[0].id == id && !o.replies[0].SyncOk?
  }

  /** A join is answered at once, or adds a member, or updates one; the last two rebalance. */
  ghost predicate JoinCase(g: Group, g1: Group, id: nat, join: Join, pick: Pick, o: Outcome) {
    Quiet(g, id, o) ||
    (o.Panic? && (g.state == CompletingRebalance || g.state == Stable) && o == AnswerJoin(g1, id, join.memberId)) ||
    (join.memberId in g.pending && o == AddMember(g1, join.memberId, join, id, pick)) ||
    (join.memberId in g.members && join.memberId in g1.members && o == UpdateMember(g1, join.memberId, join, id, pick))
  }

  lemma JoinCases(g: Group, id: nat, join: Join, newId: Id, pick: Pick)
    ensures JoinCase(g, g.(protocolType := ProtocolsMatch(g, join).1), id, join, pick, HandleJoin(g, id, join, newId, pick))
  {
    JoinSteps(g, id, join, newId, pick);
    var g1 := g.(protocolType := ProtocolsMatch(g, join).1);
    if join.memberId in g1.members { RejoinCases(g1, id, join, pick); }
  }

  lemma JoinEffect(g: Group, id: nat, join: Join, newId: Id, pick: Pick)
    ensures Effect(g, HandleJoin(g, id, join, newId, pick))
  {
    JoinCases(g, id, join, newId, pick);
    CaseEffect(g, g.(protocolType := ProtocolsMatch(g, join).1), id, join, pick, HandleJoin(g, id, join, newId, pick));
  }

  lemma CaseEffect(g: Group, g1: Group, id: nat, join: Join, pick: Pick, o: Outcome)
    requires g1 == g.(protocolType := g1.protocolType) && JoinCase(g, g1, id, join, pick, o)
    ensures Effect(g, o)
  {
    if Quiet(g, id, o) {
      QuietEffect(g, o);
    } else if o.Next? {
      if join.memberId in g.pending { AddEffect(g1, join.memberId, join, id, pick); }
      if join.memberId in g.members { UpdateEffect(g1, join.memberId, join, id, pick); }
      SameEffect(g, g1, o);
    }
  }

  lemma SyncEffect(g: Group, id: nat, req: SyncRequest, pick: Pick)
    requires Inv(g)
    ensures Effect(g, HandleSync(g, id, req, pick))
  {
    if req.member in g.members && g.state == CompletingRebalance && req.generation == g.generation {
      var members := g.members[req.member := g.members[req.member].(waiting := Some(ParkedSync(id, req.generation)))];
      SyncRepliesCarry(members, g.generation, g.protocol, req.entries, pick.syncs);
    }
  }

  lemma StepEffect(g: Group, e: Event)
    requires Inv(g) && (e.SessionTimeout? ==> e.m in g.members) && (e.RebalanceTimeout? ==> g.timer)
    ensures Effect(g, Handle(g, e))
  {
    if e.JoinEvent? {
      JoinEffect(g, e.id, e.join, e.newId, e.pick);
    } else if e.SyncEvent? {
      SyncEffect(g, e.id, e.req, e.pick);
    } else if e.LeaveOne? {
      LeaveEffect(g, e.m, e.hasInstance, e.pick);
    } else if e.SessionTimeout? {
      RemoveEffect(g, e.m, e.pick);
    } else if e.RebalanceTimeout? {
      TimerEffect(g, e.pick);
    } else {
      SimpleEffect(g, e);
    }
  }

  lemma LeaveEffect(g: Group, m: Id, hasInstance: bool, pick: Pick)
    ensures Effect(g, HandleLeaveOne(g, m, hasInstance, pick))
  {
    if m in g.members { RemoveEffect(g, m, pick); }
  }

  lemma TimerEffect(g: Group, pick: Pick)
    ensures Effect(g, CompleteRebalance(g, pick))
  {
    CompleteEffect(g, pick);
    RebalanceIsEffect(g, g, CompleteRebalance(g, pick));
  }

  lemma SimpleEffect(g: Group, e: Event)
    requires e.Quit? || e.PendingTimeout? || e.HeartbeatEvent? || e.CommitEvent? || e.LeaveReply? || e.Rejected?
    ensures Effect(g, Handle(g, e))
  {
  }

  // ---------------------------------------------------------------------
  // Every step keeps the group good
  // ---------------------------------------------------------------------

  lemma StepInv(w: World, e: Event)
    requires Inv(w.g) && Possible(w, e)
    ensures var o := Handle(w.g, e);
      if o.Next? then Inv(o.g)
      else o.reason == NoCommonProtocol || (o.reason == NoMembersButNotEmpty && e.CommitEvent?)
  {
    if e.JoinEvent? {
      JoinInv(w.g, e.id, e.join, e.newId, e.pick);
    } else if e.SyncEvent? {
      SyncInv(w.g, e.id, e.req, e.pick);
    } else if e.LeaveOne? {
      LeaveInv(w.g, e.m, e.hasInstance, e.pick);
    } else if e.SessionTimeout? {
      RemoveInv(w.g, e.m, e.pick);
    } else if e.RebalanceTimeout? {
      TimerInv(w.g, e.pick);
    } else {
      SimpleInv(w.g, e);
    }
  }

  lemma SimpleInv(g: Group, e: Event)
    requires Inv(g)
    requires e.Quit? || e.PendingTimeout? || e.HeartbeatEvent? || e.CommitEvent? || e.LeaveReply? || e.Rejected?
    ensures var o := Handle(g, e);
      if o.Next? then Inv(o.g) else o.reason == NoMembersButNotEmpty && e.CommitEvent?
  {
  }

  // ---------------------------------------------------------------------
  // Generations and assignments over a run
  // ---------------------------------------------------------------------

  /** The generation counter has not yet wrapped. */
  predicate Unwrapped(w: World) { w.epoch < 0x8000_0000 }

  ghost predicate InOrder(w: World) {
    (forall i :: 0 <= i < |w.installs| ==> 0 <= w.installs[i].generation <= w.epoch) &&
    (forall i, j :: 0 <= i < j < |w.installs| ==> w.installs[i].generation < w.installs[j].generation) &&
    (w.g.state == CompletingRebalance ==> forall i :: 0 <= i < |w.installs| ==> w.installs[i].generation < w.epoch)
  }

  ghost predicate HoldsLast(w: World) {
    w.installs != [] &&
    var last := w.installs[|w.installs| - 1];
    last.generation == w.g.generation &&
    forall m :: m in w.g.members ==> w.g.members[m].assignment == Assigned(last.entries, m)
  }

  /** Some installed assignment of the reply's generation has what the reply says. */
  ghost predicate Backed(r: Reply, installs: seq<Install>) {
    r.SyncOk? ==> exists i :: 0 <= i < |installs| && Carries(r, installs[i].generation, installs[i].entries)
  }

  ghost predicate History(w: World) {
    (Unwrapped(w) ==> w.g.generation == w.epoch && InOrder(w)) &&
    (w.g.state == Stable ==> HoldsLast(w)) &&
    forall r :: r in w.replies ==> Backed(r, w.installs)
  }

  lemma OrderKept(w: World, e: Event, o: Outcome)
    requires Inv(w.g) && History(w) && Effect(w.g, o) && o.Next?
    ensures var w' := Advance(w, e, o); Unwrapped(w') ==> w'.g.generation == w'.epoch && InOrder(w')
  {
  }

  lemma BackingKept(r: Reply, installs: seq<Install>, more: Option<Install>)
    requires Backed(r, installs)
    ensures Backed(r, if more.Some? then installs + [more.value] else installs)
  {
    if r.SyncOk? {
      var i :| 0 <= i < |installs| && Carries(r, installs[i].generation, installs[i].entries);
      var all := if more.Some? then installs + [more.value] else installs;
      assert all[i] == installs[i];
    }
  }

  lemma NewBacked(w: World, o: Outcome, r: Reply)
    requires History(w) && Effect(w.g, o) && o.Next? && r in o.replies
    ensures Backed(r, if o.install.Some? then w.installs + [o.install.value] else w.installs)
  {
    if r.SyncOk? {
      var all := if o.install.Some? then w.installs + [o.install.value] else w.installs;
      if o.install.Some? {
        assert all[|all| - 1] == o.install.value;
        assert Carries(r, all[|all| - 1].generation, all[|all| - 1].entries);
      } else {
        assert Repeats(r, w.g);
        assert Carries(r, all[|all| - 1].generation, all[|all| - 1].entries);
      }
    }
  }

  lemma HistoryKept(w: World, e: Event, o: Outcome)
    requires Inv(w.g) && History(w) && Effect(w.g, o) && o.Next?
    ensures History(Advance(w, e, o))
  {
    OrderKept(w, e, o);
    var w' := Advance(w, e, o);
    forall r | r in w'.replies ensures Backed(r, w'.installs) {
      if r in w.replies { BackingKept(r, w.installs, o.install); } else { NewBacked(w, o, r); }
    }
  }

  // ---------------------------------------------------------------------
  // Every request is answered at most once
  // ---------------------------------------------------------------------

  function ParkedIds(members: map<Id, Member>): set<nat> {
    set m | m in members && members[m].waiting.Some? :: members[m].waiting.value.id
  }

  ghost predicate DistinctParked(members: map<Id, Member>) {
    forall a, b :: a in members && b in members && a != b && members[a].waiting.Some? && members[b].waiting.Some? ==>
      members[a].waiting.value.id != members[b].waiting.value.id
  }

  ghost predicate DistinctIds(replies: seq<Reply>) {
    forall i, j :: 0 <= i < j < |replies| ==> replies[i].id != replies[j].id
  }

  /** The reply answers a request parked in `before` that is no longer parked in `after`. */
  ghost predicate Answers(before: map<Id, Member>, after: map<Id, Member>, r: Reply) {
    exists m :: m in before && before[m].waiting.Some? && before[m].waiting.value.id == r.id &&
      (m !in after || after[m].waiting.None?)
  }

  ghost predicate Unparks(before: map<Id, Member>, after: map<Id, Member>, replies: seq<Reply>) {
    DistinctIds(replies) &&
    (forall i :: 0 <= i < |replies| ==> Answers(before, after, replies[i])) &&
    (forall m :: m in after && after[m].waiting.Some? ==> m in before && before[m].waiting == after[m].waiting)
  }

  lemma UnparksCompose(
      a: map<Id, Member>, b: map<Id, Member>, c: map<Id, Member>, first: seq<Reply>, second: seq<Reply>)
    requires DistinctParked(a) && Unparks(a, b, first) && Unparks(b, c, second)
    ensures Unparks(a, c, first + second)
  {
    forall i | 0 <= i < |first + second| ensures Answers(a, c, (first + second)[i]) {
      if i < |first| { assert Answers(a, b, first[i]); } else { assert Answers(b, c, second[i - |first|]); }
    }
    forall i, j | 0 <= i < |first| && 0 <= j < |second| ensures first[i].id != second[j].id {
      assert Answers(a, b, first[i]) && Answers(b, c, second[j]);
    }
  }

  lemma UnparkOne(members: map<Id, Member>, m: Id, r: Reply)
    requires m in members && members[m].waiting.Some? && r.id == members[m].waiting.value.id
    ensures Unparks(members, members[m := members[m].(waiting := None)], [r])
  {
  }

  lemma {:induction false} AnswerJoinsUnparks(g: Group, foundLeader: bool, order: seq<Id>)
    requires DistinctParked(g.members)
    ensures var o := AnswerJoins(g, foundLeader, order); o.Next? ==> Unparks(g.members, o.g.members, o.replies)
    decreases |order|
  {
    if order != [] {
      if order[0] !in g.members || g.members[order[0]].waiting.None? {
        AnswerJoinsUnparks(g, foundLeader, order[1..]);
      } else {
        var m := order[0];
        var g1 := if foundLeader then g else g.(leader := m);
        var members := g.members[m := g.members[m].(waiting := None)];
        var g2 := g1.(members := members);
        AnswerJoinsUnparks(g2, foundLeader, order[1..]);
        var reply := FillJoin(g1, g1.members[m].waiting.value.id, g1.members[m].join.memberId);
        var o := AnswerJoins(g2, foundLeader, order[1..]);
        if reply.Some? && o.Next? {
          UnparkOne(g.members, m, reply.value);
          UnparksCompose(g.members, members, o.g.members, [reply.value], o.replies);
        }
      }
    }
  }

  lemma CompleteUnparks(g: Group, pick: Pick)
    requires DistinctParked(g.members)
    ensures var o := CompleteRebalance(g, pick); o.Next? ==> Unparks(g.members, o.g.members, o.replies)
  {
    var members := Staying(g.members);
    var counts := Drop(g.protocols, Leaving(g.members));
    assert Unparks(g.members, members, []);
    if members != map[] && HasCandidate(counts, |members|) {
      var g1 := g.(timer := false, nJoining := 0, members := members, protocols := counts,
                   generation := NextGeneration(g.generation), state := CompletingRebalance,
                   protocol := Candidate(counts, |members|, pick.protocol));
      AnswerJoinsUnparks(g1, g.leader in members, pick.joins);
      var o := AnswerJoins(g1, g.leader in members, pick.joins);
      if o.Next? {
        UnparksCompose(g.members, members, o.g.members, [], o.replies);
        assert [] + o.replies == o.replies;
      }
    }
  }

  /** The reply answers a parked sync of a member in `order`. */
  ghost predicate FromSync(members: map<Id, Member>, order: seq<Id>, r: Reply) {
    exists m :: m in order && m in members && WaitsInSync(members[m]) && members[m].waiting.value.id == r.id
  }

  ghost predicate FromSyncs(members: map<Id, Member>, order: seq<Id>, replies: seq<Reply>) {
    DistinctIds(replies) && forall i :: 0 <= i < |replies| ==> FromSync(members, order, replies[i])
  }

  lemma FromSyncLater(members: map<Id, Member>, order: seq<Id>, r: Reply)
    requires order != [] && FromSync(members, order[1..], r)
    ensures FromSync(members, order, r)
  {
    var m :| m in order[1..] && m in members && WaitsInSync(members[m]) && members[m].waiting.value.id == r.id;
    assert m in order;
  }

  lemma FromSyncsGrows(members: map<Id, Member>, order: seq<Id>, first: seq<Reply>, rest: seq<Reply>)
    requires DistinctParked(members) && order != [] && order[0] !in order[1..] && FromSyncs(members, order[1..], rest)
    requires first == [] ||
      (|first| == 1 && order[0] in members && WaitsInSync(members[order[0]]) &&
       first[0].id == members[order[0]].waiting.value.id)
    ensures FromSyncs(members, order, first + rest)
  {
    forall i | 0 <= i < |rest| ensures FromSync(members, order, rest[i]) && (first != [] ==> first[0].id != rest[i].id) {
      FromSyncLater(members, order, rest[i]);
    }
    if first != [] { assert FromSync(members, order, first[0]); }
  }

  lemma {:induction false} RefusalsFromSyncs(members: map<Id, Member>, order: seq<Id>)
    requires DistinctParked(members) && forall i, j :: 0 <= i < j < |order| ==> order[i] != order[j]
    ensures FromSyncs(members, order, SyncRefusals(members, order))
    decreases |order|
  {
    if order != [] {
      RefusalsFromSyncs(members, order[1..]);
      var first := if order[0] in members && WaitsInSync(members[order[0]])
        then [Refused(members[order[0]].waiting.value.id, RebalanceInProgress)] else [];
      FromSyncsGrows(members, order, first, SyncRefusals(members, order[1..]));
    }
  }

  lemma {:induction false} RepliesFromSyncs(
      members: map<Id, Member>, protocol: string, entries: seq<(Id, Blob)>, order: seq<Id>)
    requires DistinctParked(members) && forall i, j :: 0 <= i < j < |order| ==> order[i] != order[j]
    ensures FromSyncs(members, order, SyncReplies(members, protocol, entries, order))
    decreases |order|
  {
    if order != [] {
      RepliesFromSyncs(members, protocol, entries, order[1..]);
      var first := if order[0] in members && WaitsInSync(members[order[0]])
        then [SyncOk(members[order[0]].waiting.value.id, order[0], members[order[0]].waiting.value.generation,
                     protocol, Assigned(entries, order[0]))] else [];
      FromSyncsGrows(members, order, first, SyncReplies(members, protocol, entries, order[1..]));
    }
  }

  lemma FromSyncsUnparks(members: map<Id, Member>, after: map<Id, Member>, order: seq<Id>, replies: seq<Reply>)
    requires FromSyncs(members, order, replies) && after.Keys == members.Keys
    requires forall m :: m in members ==>
      if WaitsInSync(members[m]) then after[m].waiting.None?
      else after[m].waiting == members[m].waiting || after[m].waiting.None?
    ensures Unparks(members, after, replies)
  {
    forall i | 0 <= i < |replies| ensures Answers(members, after, replies[i]) {
      assert FromSync(members, order, replies[i]);
    }
  }

  /** Clearing the parked syncs answers them. */
  lemma ClearingUnparks(g: Group, pick: Pick)
    requires DistinctParked(g.members) && Enumerates(pick.syncs, g.members.Keys)
    ensures Unparks(g.members, ClearSyncs(g.members), SyncRefusals(g.members, pick.syncs))
  {
    RefusalsFromSyncs(g.members, pick.syncs);
    FromSyncsUnparks(g.members, ClearSyncs(g.members), pick.syncs, SyncRefusals(g.members, pick.syncs));
  }

  /** `middle` and `refusals` are the members and the replies after the parked syncs have been cleared. */
  lemma ClearedUnparks(g: Group, middle: map<Id, Member>, refusals: seq<Reply>, pick: Pick)
    requires DistinctParked(g.members) && Unparks(g.members, middle, refusals)
    ensures var o := Prepend(refusals, CompleteRebalance(g.(members := middle, state := PreparingRebalance), pick));
      o.Next? ==> Unparks(g.members, o.g.members, o.replies)
  {
    var g1 := g.(members := middle, state := PreparingRebalance);
    CompleteUnparks(g1, pick);
    var o := CompleteRebalance(g1, pick);
    if o.Next? { UnparksCompose(g.members, middle, o.g.members, refusals, o.replies); }
  }

  lemma NobodyUnparks(members: map<Id, Member>)
    requires DistinctParked(members)
    ensures Unparks(members, members, [])
  {
  }

  lemma RebalanceUnparks(g: Group, pick: Pick)
    requires DistinctParked(g.members) && Enumerates(pick.syncs, g.members.Keys)
    ensures var o := Rebalance(g, pick); o.Next? ==> Unparks(g.members, o.g.members, o.replies)
  {
    if g.state == CompletingRebalance {
      ClearingUnparks(g, pick);
      ClearedUnparks(g, ClearSyncs(g.members), SyncRefusals(g.members, pick.syncs), pick);
    } else {
      NobodyUnparks(g.members);
      ClearedUnparks(g, g.members, [], pick);
    }
  }

  /** What a step that handles request `id` may answer and leave parked. */
  ghost predicate Accounts(g: Group, ids: set<nat>, o: Outcome) {
    o.Next? ==>
      DistinctIds(o.replies) && DistinctParked(o.g.members) &&
      (forall i :: 0 <= i < |o.replies| ==> o.replies[i].id in ParkedIds(g.members) + ids) &&
      (forall i :: 0 <= i < |o.replies| ==> o.replies[i].id !in ParkedIds(o.g.members)) &&
      ParkedIds(o.g.members) <= ParkedIds(g.members) + ids
  }

  /** `middle` is the membership before the rebalance that ends the step: at most the new request has been parked. */
  lemma UnparksAccounts(g: Group, ids: set<nat>, middle: map<Id, Member>, o: Outcome)
    requires DistinctParked(middle) && ParkedIds(middle) <= ParkedIds(g.members) + ids
    requires o.Next? ==> Unparks(middle, o.g.members, o.replies)
    ensures Accounts(g, ids, o)
  {
    if o.Next? {
      forall i | 0 <= i < |o.replies|
        ensures o.replies[i].id in ParkedIds(middle) && o.replies[i].id !in ParkedIds(o.g.members)
      {
        assert Answers(middle, o.g.members, o.replies[i]);
      }
    }
  }

  lemma ParkAccounts(members: map<Id, Member>, m: Id, member: Member, id: nat)
    requires DistinctParked(members) && id !in ParkedIds(members)
    requires member.waiting.Some? && member.waiting.value.id == id
    ensures DistinctParked(members[m := member]) && ParkedIds(members[m := member]) <= ParkedIds(members) + {id}
  {
    forall a | a in members[m := member] && a != m && members[a].waiting.Some?
      ensures members[a].waiting.value.id != id
    {
      assert members[a].waiting.value.id in ParkedIds(members);
    }
  }

  lemma AddAccounts(g: Group, m: Id, join: Join, id: nat, pick: Pick)
    requires DistinctParked(g.members) && id !in ParkedIds(g.members) && ValidPick(g, pick) && m in g.pending
    ensures Accounts(g, {id}, AddMember(g, m, join, id, pick))
  {
    ParkAccounts(g.members, m, Member(join, Some(ParkedJoin(id)), None), id);
    RebalanceUnparks(Added(g, m, join, id), pick);
    UnparksAccounts(g, {id}, Added(g, m, join, id).members, AddMember(g, m, join, id, pick));
  }

  lemma UpdateAccounts(g: Group, m: Id, join: Join, id: nat, pick: Pick)
    requires DistinctParked(g.members) && id !in ParkedIds(g.members) && ValidPick(g, pick) && m in g.members
    ensures Accounts(g, {id}, UpdateMember(g, m, join, id, pick))
  {
    ParkAccounts(g.members, m, Member(join, Some(ParkedJoin(id)), g.members[m].assignment), id);
    RebalanceUnparks(Updated(g, m, join, id), pick);
    UnparksAccounts(g, {id}, Updated(g, m, join, id).members, UpdateMember(g, m, join, id, pick));
  }

  lemma QuietAccounts(g: Group, id: nat, o: Outcome)
    requires DistinctParked(g.members) && id !in ParkedIds(g.members)
    requires o.Next? && o.g.members == g.members && |o.replies| == 1 && o.replies[0].id == id
    ensures Accounts(g, {id}, o)
  {
  }

  lemma SameAccounts(g: Group, g1: Group, ids: set<nat>, o: Outcome)
    requires g1.members == g.members && Accounts(g1, ids, o)
    ensures Accounts(g, ids, o)
  {
  }

  lemma JoinAccounts(g: Group, id: nat, join: Join, newId: Id, pick: Pick)
    requires DistinctParked(g.members) && id !in ParkedIds(g.members) && ValidPick(g, pick)
    ensures Accounts(g, {id}, HandleJoin(g, id, join, newId, pick))
  {
    var m := join.memberId;
    var g1 := g.(protocolType := ProtocolsMatch(g, join).1);
    var o := HandleJoin(g, id, join, newId, pick);
    JoinCases(g, id, join, newId, pick);
    if Quiet(g, id, o) {
      QuietAccounts(g, id, o);
    } else if m in g.pending && o == AddMember(g1, m, join, id, pick) {
      AddAccounts(g1, m, join, id, pick);
      SameAccounts(g, g1, {id}, o);
    } else if o.Next? {
      UpdateAccounts(g1, m, join, id, pick);
      SameAccounts(g, g1, {id}, o);
    }
  }

  lemma SyncAccounts(g: Group, id: nat, req: SyncRequest, pick: Pick)
    requires DistinctParked(g.members) && id !in ParkedIds(g.members) && ValidPick(g, pick)
    ensures Accounts(g, {id}, HandleSync(g, id, req, pick))
  {
    var o := HandleSync(g, id, req, pick);
    if o.Next? && o.g.members == g.members && |o.replies| == 1 && o.replies[0].id == id {
      QuietAccounts(g, id, o);
    } else {
      ParkedSyncAccounts(g, id, req, pick);
    }
  }

  lemma ParkedSyncAccounts(g: Group, id: nat, req: SyncRequest, pick: Pick)
    requires DistinctParked(g.members) && id !in ParkedIds(g.members) && ValidPick(g, pick)
    requires req.member in g.members && g.state == CompletingRebalance
    ensures var member := g.members[req.member].(waiting := Some(ParkedSync(id, req.generation)));
      var g1 := g.(members := g.members[req.member := member]);
      Accounts(g, {id}, Next(g1, [], None)) && Accounts(g, {id}, CompleteLeaderSync(g1, req.entries, pick.syncs))
  {
    var member := g.members[req.member].(waiting := Some(ParkedSync(id, req.generation)));
    var members := g.members[req.member := member];
    ParkAccounts(g.members, req.member, member, id);
    RepliesFromSyncs(members, g.protocol, req.entries, pick.syncs);
    var o := CompleteLeaderSync(g.(members := members), req.entries, pick.syncs);
    if o.Next? {
      FromSyncsUnparks(members, o.g.members, pick.syncs, o.replies);
      UnparksAccounts(g, {id}, members, o);
    }
  }

  lemma RemoveAccounts(g: Group, m: Id, pick: Pick)
    requires DistinctParked(g.members) && m in g.members && ValidPick(g, pick)
    ensures Accounts(g, {}, RemoveMember(g, m, pick))
  {
    RebalanceUnparks(Removed(g, m), pick);
    UnparksAccounts(g, {}, Removed(g, m).members, RemoveMember(g, m, pick));
  }

  lemma SimpleAccounts(g: Group, e: Event)
    requires DistinctParked(g.members) && (IsRequest(e) ==> e.id !in ParkedIds(g.members))
    requires e.Quit? || e.PendingTimeout? || e.HeartbeatEvent? || e.CommitEvent? || e.LeaveReply? || e.Rejected?
    ensures Accounts(g, if IsRequest(e) then {e.id} else {}, Handle(g, e))
  {
    SimpleShape(g, e);
    var o := Handle(g, e);
    if o.Next? {
      if IsRequest(e) { QuietAccounts(g, e.id, o); } else { SilentAccounts(g, o); }
    }
  }

  /** These answer their own request, if they are one, and touch no member. */
  lemma SimpleShape(g: Group, e: Event)
    requires e.Quit? || e.PendingTimeout? || e.HeartbeatEvent? || e.CommitEvent? || e.LeaveReply? || e.Rejected?
    ensures var o := Handle(g, e);
      o.Next? ==>
        o.g.members == g.members &&
        if IsRequest(e) then |o.replies| == 1 && o.replies[0].id == e.id else o.replies == []
  {
  }

  lemma SilentAccounts(g: Group, o: Outcome)
    requires DistinctParked(g.members) && o.Next? && o.g.members == g.members && o.replies == []
    ensures Accounts(g, {}, o)
  {
  }

  lemma StepAccounts(w: World, e: Event)
    requires DistinctParked(w.g.members) && Possible(w, e) && (IsRequest(e) ==> e.id !in ParkedIds(w.g.members))
    ensures Accounts(w.g, if IsRequest(e) then {e.id} else {}, Handle(w.g, e))
  {
    match e
    case JoinEvent(id, join, newId, pick) => JoinAccounts(w.g, id, join, newId, pick);
    case SyncEvent(id, req, pick) => SyncAccounts(w.g, id, req, pick);
    case LeaveOne(m, _, pick) => if m in w.g.members { RemoveAccounts(w.g, m, pick); }
    case SessionTimeout(m, pick) => RemoveAccounts(w.g, m, pick);
    case RebalanceTimeout(pick) =>
      CompleteUnparks(w.g, pick);
      UnparksAccounts(w.g, {}, w.g.members, CompleteRebalance(w.g, pick));
    case Quit => SimpleAccounts(w.g, e);
    case PendingTimeout(_) => SimpleAccounts(w.g, e);
    case HeartbeatEvent(_, _, _) => SimpleAccounts(w.g, e);
    case CommitEvent(_, _, _) => SimpleAccounts(w.g, e);
    case LeaveReply(_) => SimpleAccounts(w.g, e);
    case Rejected(_, _) => SimpleAccounts(w.g, e);
  }

  /** No request has two replies, and a parked request has none yet. */
  ghost predicate AtMostOnce(w: World) {
    DistinctIds(w.replies) && DistinctParked(w.g.members) && ParkedIds(w.g.members) <= w.seen &&
    (forall i :: 0 <= i < |w.replies| ==> w.replies[i].id in w.seen && w.replies[i].id !in ParkedIds(w.g.members))
  }

  lemma AtMostOnceKept(w: World, e: Event, o: Outcome)
    requires AtMostOnce(w) && Possible(w, e) && o.Next? && Accounts(w.g, if IsRequest(e) then {e.id} else {}, o)
    ensures AtMostOnce(Advance(w, e, o))
  {
  }

  // ---------------------------------------------------------------------
  // Theorems about runs
  // ---------------------------------------------------------------------

  ghost predicate Good(w: World) { Inv(w.g) && History(w) && AtMostOnce(w) }

  lemma StartIsGood()
    ensures Good(Start)
  {
    forall p ensures Supporters(map[], p) == {} {
    }
  }

  lemma StepIsGood(w: World, e: Event, w': World)
    requires Good(w) && Steps(w, e, w')
    ensures Good(w')
  {
    StepInv(w, e);
    StepEffect(w.g, e);
    HistoryKept(w, e, Handle(w.g, e));
    StepAccounts(w, e);
    AtMostOnceKept(w, e, Handle(w.g, e));
  }

  lemma RunStep(ws: seq<World>, es: seq<Event>, i: nat)
    requires IsRun(ws, es) && i < |es|
    ensures Steps(ws[i], es[i], ws[i + 1])
  {
  }

  lemma GoodStep(ws: seq<World>, es: seq<Event>, i: nat)
    requires IsRun(ws, es) && i < |es| && Good(ws[i])
    ensures Good(ws[i + 1])
  {
    RunStep(ws, es, i);
    StepIsGood(ws[i], es[i], ws[i + 1]);
  }

  lemma {:induction false} RunIsGood(ws: seq<World>, es: seq<Event>, i: nat)
    requires IsRun(ws, es) && i < |ws|
    ensures Good(ws[i])
  {
    if i == 0 {
      StartIsGood();
    } else {
      RunIsGood(ws, es, i - 1);
      GoodStep(ws, es, i - 1);
    }
  }
}
