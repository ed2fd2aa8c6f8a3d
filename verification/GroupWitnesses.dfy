/**
 Runs of a group from its creation: one in which two members are told that they
 lead, and one for each panic that can happen.
 */
module GroupWitnesses {
  import opened Wrappers
  import opened Varints
  import opened Groups
  import opened GroupInvariant
  import opened GroupRuns
  import opened GroupTheorems

  // ---------------------------------------------------------------------
  // Reaching a state
  // ---------------------------------------------------------------------

  ghost predicate Ends(ws: seq<World>, es: seq<Event>, w: World) { IsRun(ws, es) && ws[|es|] == w }

  ghost predicate Reached(w: World) { exists ws, es :: Ends(ws, es, w) }

  lemma StartIsReached()
    ensures Reached(Start)
  {
    assert Ends([Start], [], Start);
  }

  lemma ReachStep(w: World, e: Event, w': World)
    requires Reached(w) && Steps(w, e, w')
    ensures Reached(w')
  {
    var ws, es :| Ends(ws, es, w);
    ReachMore(ws, es, w, e, w');
  }

  lemma ReachMore(ws: seq<World>, es: seq<Event>, w: World, e: Event, w': World)
    requires Ends(ws, es, w) && Steps(w, e, w')
    ensures Reached(w')
  {
    RunMore(ws, es, w, e, w');
  }

  lemma RunMore(ws: seq<World>, es: seq<Event>, w: World, e: Event, w': World)
    requires Ends(ws, es, w) && Steps(w, e, w')
    ensures Ends(ws + [w'], es + [e], w')
  {
    Extended(ws, es, e, w', (x, y, z) => Steps(x, y, z));
  }

  /** One more step of any relation. */
  lemma Extended(ws: seq<World>, es: seq<Event>, e: Event, w': World, steps: (World, Event, World) -> bool)
    requires |ws| == |es| + 1 && steps(ws[|es|], e, w')
    requires forall i :: 0 <= i < |es| ==> steps(ws[i], es[i], ws[i + 1])
    ensures var ws', es' := ws + [w'], es + [e]; forall i :: 0 <= i < |es'| ==> steps(ws'[i], es'[i], ws'[i + 1])
  {
  }

  lemma ReachedInv(w: World)
    requires Reached(w)
    ensures Inv(w.g)
  {
    var ws, es :| Ends(ws, es, w);
    RunIsGood(ws, es, |es|);
  }

  // ---------------------------------------------------------------------
  // Three clients
  // ---------------------------------------------------------------------

  const Range := "range"

  const Sticky := "sticky"

  /** What a client sends: most list one protocol, and one of them lists another one, too. */
  function ClientJoin(m: Id): Join { Join(m, "consumer", [Protocol(Range, [])]) }

  function StickyJoin(m: Id): Join { Join(m, "consumer", [Protocol(Sticky, [])]) }

  function BothJoin(m: Id): Join { Join(m, "consumer", [Protocol(Range, []), Protocol(Sticky, [])]) }

  lemma ListedProtocols(m: Id)
    ensures Names(ClientJoin(m)) == {Range} && Names(StickyJoin(m)) == {Sticky} && Range != Sticky
    ensures Range in Names(BothJoin(m)) && Sticky in Names(BothJoin(m))
  {
    assert ClientJoin(m).protocols[0].name == Range && StickyJoin(m).protocols[0].name == Sticky;
    assert BothJoin(m).protocols[0].name == Range && BothJoin(m).protocols[1].name == Sticky;
    assert |Range| != |Sticky|;
  }

  predicate ClientSends(join: Join, m: Id) { join.memberId == m && join.protocolType == "consumer" && Range in Names(join) }

  /** Three members, and an id that nobody has. */
  ghost predicate Clients(a: Id, b: Id, c: Id, d: Id) {
    a != "" && b != "" && c != "" && d != "" && a != b && a != c && b != c && d !in {a, b, c}
  }

  function Order(a: Id, b: Id, c: Id): Pick { Pick([a, b, c], [a, b, c], Range) }

  lemma OrderIsValid(g: Group, a: Id, b: Id, c: Id, d: Id)
    requires Clients(a, b, c, d) && g.members.Keys + g.pending.Keys <= {a, b, c}
    ensures ValidPick(g, Order(a, b, c))
  {
  }

  lemma FirstOrder(a: Id, b: Id, c: Id, d: Id)
    requires Clients(a, b, c, d)
    ensures Enumerates(Order(a, b, c).joins, {a})
  {
  }

  ghost predicate Clientele(g: Group) { g.protocolType == "consumer" && Shares(g.members, Range) }

  ghost predicate SeenBelow(w: World, n: nat) { forall id :: id in w.seen ==> id < n }

  /** A join that lists a protocol of a member passes the coordinator's test. */
  lemma Matches(g: Group, join: Join, p: string, m: Id)
    requires Counted(g) && g.protocolType == "consumer" == join.protocolType && p in Names(join)
    requires m in g.members && p in Names(g.members[m].join)
    ensures ProtocolsMatch(g, join) == (true, "consumer")
  {
    assert m in Supporters(g.members, p);
    assert Count(g.protocols, p) == |Supporters(g.members, p)|;
    var i :| 0 <= i < |join.protocols| && join.protocols[i].name == p;
    assert join.protocols[i].name in g.protocols;
  }

  lemma ClientMatches(g: Group, join: Join)
    requires Counted(g) && Clientele(g) && (g.members == map[] ==> g.protocols == map[])
    requires ClientSends(join, join.memberId)
    ensures ProtocolsMatch(g, join) == (true, "consumer")
  {
    if g.members != map[] {
      var k :| k in g.members;
      Matches(g, join, Range, k);
    }
  }

  // ---------------------------------------------------------------------
  // The first three requests announce the members
  // ---------------------------------------------------------------------

  ghost predicate Announced(w: World, ids: set<Id>, n: nat) {
    Reached(w) && SeenBelow(w, n) && w.g == NewGroup.(protocolType := w.g.protocolType, pending := w.g.pending) &&
    w.g.pending.Keys == ids && (w.g.protocolType == "" || w.g.protocolType == "consumer") &&
    (ids != {} ==> w.g.protocolType == "consumer")
  }

  lemma Announce(w: World, ids: set<Id>, n: nat, m: Id, pick: Pick) returns (w': World)
    requires Announced(w, ids, n) && m != "" && m !in ids && ValidPick(w.g, pick)
    ensures Announced(w', ids + {m}, n + 1)
  {
    var e := JoinEvent(n, ClientJoin(""), m, pick);
    w' := Advance(w, e, Handle(w.g, e));
    ReachStep(w, e, w');
  }

  lemma AllAnnounced(a: Id, b: Id, c: Id, d: Id) returns (w: World)
    requires Clients(a, b, c, d)
    ensures Announced(w, {a, b, c}, 3)
  {
    StartIsReached();
    OrderIsValid(Start.g, a, b, c, d);
    var w1 := Announce(Start, {}, 0, a, Order(a, b, c));
    OrderIsValid(w1.g, a, b, c, d);
    var w2 := Announce(w1, {a}, 1, b, Order(a, b, c));
    OrderIsValid(w2.g, a, b, c, d);
    w := Announce(w2, {a, b}, 2, c, Order(a, b, c));
    assert {} + {a} + {b} + {c} == {a, b, c};
  }

  // ---------------------------------------------------------------------
  // What a rebalance comes to
  // ---------------------------------------------------------------------

  ghost predicate SameButWaiting(a: map<Id, Member>, b: map<Id, Member>) {
    a.Keys == b.Keys && forall m :: m in a ==> a[m].join == b[m].join
  }

  /** A rebalance that everybody has joined. */
  ghost predicate Formed(g: Group, o: Outcome) {
    o.Next? && SameButWaiting(g.members, o.g.members) && NobodyWaits(o.g.members) &&
    o.g.state == CompletingRebalance && o.g.nJoining == 0 && o.g.pending == g.pending && o.g.protocolType == g.protocolType &&
    o.g.leader in o.g.members && (g.leader in g.members ==> o.g.leader == g.leader)
  }

  lemma {:induction false} LeaderStays(members: map<Id, Member>, leader: Id, order: seq<Id>)
    ensures LastLeader(members, true, leader, order) == leader
    decreases |order|
  {
    if order != [] { LeaderStays(members, leader, order[1..]); }
  }

  lemma AllJoined(g: Group, pick: Pick)
    requires BeforeRebalance(g) && g.nJoining >= |g.members| && g.members != map[] && Shares(g.members, Range)
    requires Enumerates(pick.joins, g.members.Keys) && g.state == PreparingRebalance && OnlyJoinsWait(g.members)
    ensures Formed(g, CompleteRebalance(g, pick))
  {
    CountEvictsNobody(g);
    DropCounted(g);
    var g1 := Evicted(g);
    SharedIsCandidate(g1, Range);
    ChosenProtocol(g1, pick);
    AnswersForm(g1.(state := CompletingRebalance, protocol := Candidate(g1.protocols, |g1.members|, pick.protocol)),
                g.leader in g.members, pick.joins);
  }

  lemma AnswersForm(g: Group, foundLeader: bool, order: seq<Id>)
    requires Answerable(g, foundLeader) && Enumerates(order, g.members.Keys)
    ensures Formed(g, AnswerJoins(g, foundLeader, order))
  {
    AnsweredInv(g, foundLeader, order);
    AnswerJoinsEffect(g, foundLeader, order);
    if foundLeader { LeaderStays(g.members, g.leader, order); }
  }

  lemma RebalanceForms(g: Group, pick: Pick)
    requires BeforeRebalance(g) && g.nJoining >= |g.members| && g.members != map[] && Shares(g.members, Range)
    requires Enumerates(pick.joins, g.members.Keys)
    ensures Formed(g, Rebalance(g, pick))
  {
    hide BeforeRebalance, CompleteRebalance, Enumerates;
    PreparedReady(g);
    var g1 := Prepared(g);
    assert Shares(g1.members, Range);
    AllJoined(g1, pick);
  }

  lemma RebalanceHolds(g: Group, pick: Pick)
    requires g.nJoining < |g.members|
    ensures var o := Rebalance(g, pick);
      o.Next? && o.g == Prepared(g).(timer := true)
  {
    SameSize(g.members, Prepared(g).members);
  }

  // ---------------------------------------------------------------------
  // The first two members
  // ---------------------------------------------------------------------

  /** `w` can be reached, and the next request is `n`. */
  ghost predicate At(w: World, n: nat) { Reached(w) && SeenBelow(w, n) }

  /** A pending member joins. */
  lemma Enters(w: World, n: nat, join: Join, a: Id, b: Id, c: Id, d: Id) returns (w': World)
    requires Clients(a, b, c, d) && w.g.members.Keys + w.g.pending.Keys <= {a, b, c} && join.memberId in w.g.pending
    requires At(w, n) && w.g.state != Dead && Clientele(w.g) && (w.g.members == map[] ==> w.g.protocols == map[])
    requires ClientSends(join, join.memberId) && AddMember(w.g, join.memberId, join, n, Order(a, b, c)).Next?
    ensures At(w', n + 1) && w'.g == AddMember(w.g, join.memberId, join, n, Order(a, b, c)).g
  {
    hide AddMember, Reached, SeenBelow, ValidPick, Order, Clientele;
    assert join.memberId in {a, b, c} && d !in w.g.members && d !in w.g.pending;
    OrderIsValid(w.g, a, b, c, d);
    w' := EntersBy(w, n, join, d, Order(a, b, c));
  }

  lemma EntersBy(w: World, n: nat, join: Join, d: Id, pick: Pick) returns (w': World)
    requires At(w, n) && w.g.state != Dead && Clientele(w.g) && ClientSends(join, join.memberId)
    requires w.g.members == map[] ==> w.g.protocols == map[]
    requires join.memberId in w.g.pending && join.memberId != "" && ValidPick(w.g, pick)
    requires d != "" && d !in w.g.members && d !in w.g.pending
    requires AddMember(w.g, join.memberId, join, n, pick).Next?
    ensures At(w', n + 1) && w'.g == AddMember(w.g, join.memberId, join, n, pick).g
  {
    ReachedInv(w);
    ClientMatches(w.g, join);
    assert w.g.(protocolType := "consumer") == w.g;
    w' := Takes(w, JoinEvent(n, join, d, pick), n + 1);
  }

  lemma Takes(w: World, e: Event, n: nat) returns (w': World)
    requires Reached(w) && SeenBelow(w, n) && (IsRequest(e) ==> e.id < n)
    requires Possible(w, e) && Handle(w.g, e).Next?
    ensures At(w', n) && w'.g == Handle(w.g, e).g
  {
    w' := Advance(w, e, Handle(w.g, e));
    ReachStep(w, e, w');
  }

  /** `a` leads alone. */
  ghost predicate Alone(g: Group, a: Id, join: Join, pending: set<Id>) {
    Clientele(g) && g.state == CompletingRebalance && g.nJoining == 0 && g.members.Keys == {a} && g.leader == a &&
    g.pending.Keys == pending && NobodyWaits(g.members) && g.members[a].join == join
  }

  lemma FirstReady(w: World, a: Id, join: Join, ids: set<Id>)
    requires Announced(w, ids, 3) && a in ids && a != "" && join.memberId == a
    ensures BeforeRebalance(Added(w.g, a, join, 3))
  {
    ReachedInv(w);
    AddedReady(w.g, a, join, 3);
  }

  lemma FirstEnters(g: Group, a: Id, join: Join, b: Id, c: Id, pick: Pick)
    requires BeforeRebalance(Added(g, a, join, 3)) && Enumerates(pick.joins, {a}) && ClientSends(join, a)
    requires g.members == map[] && g.nJoining == 0 && g.protocolType == "consumer"
    requires g.pending.Keys == {a, b, c} && a != b && a != c
    ensures var o := AddMember(g, a, join, 3, pick); o.Next? && Alone(o.g, a, join, {b, c})
  {
    FirstAdded(g, a, join);
    var g1 := Added(g, a, join, 3);
    RebalanceForms(g1, pick);
    FormedAlone(g1, Rebalance(g1, pick), a, join, b, c);
  }

  lemma FirstAdded(g: Group, a: Id, join: Join)
    requires g.members == map[] && g.nJoining == 0 && a in g.pending && ClientSends(join, a)
    ensures var g1 := Added(g, a, join, 3);
      g1.members.Keys == {a} && g1.members[a].join == join && |g1.members| == 1 == g1.nJoining &&
      Shares(g1.members, Range) && g1.pending.Keys == g.pending.Keys - {a}
  {
    var g1 := Added(g, a, join, 3);
    assert g1.members.Keys == {a};
    assert |g1.members| == |g1.members.Keys|;
  }

  lemma FormedAlone(g: Group, o: Outcome, a: Id, join: Join, b: Id, c: Id)
    requires Formed(g, o) && g.members.Keys == {a} && g.members[a].join == join && ClientSends(join, a)
    requires g.protocolType == "consumer" && g.pending.Keys == {a, b, c} - {a} && a != b && a != c
    ensures Alone(o.g, a, join, {b, c})
  {
  }

  lemma ReachAlone(a: Id, join: Join, b: Id, c: Id, d: Id) returns (w: World)
    requires Clients(a, b, c, d) && ClientSends(join, a)
    ensures At(w, 4) && Alone(w.g, a, join, {b, c})
  {
    var w0 := AllAnnounced(a, b, c, d);
    FirstReady(w0, a, join, {a, b, c});
    FirstOrder(a, b, c, d);
    FirstEnters(w0.g, a, join, b, c, Order(a, b, c));
    w := Enters(w0, 3, join, a, b, c, d);
  }

  /** `a` leads and has to join again, and `others` wait for it. */
  ghost predicate Waiting(g: Group, a: Id, others: set<Id>, pending: set<Id>) {
    Clientele(g) && g.state == PreparingRebalance && a !in others && g.members.Keys == {a} + others &&
    g.leader == a && g.pending.Keys == pending && g.nJoining == |others| &&
    g.members[a].waiting.None? && forall m :: m in others ==> WaitsInJoin(g.members[m])
  }

  lemma SecondEnters(g: Group, a: Id, join: Join, b: Id, c: Id, pick: Pick)
    requires Alone(g, a, join, {b, c}) && a != b && b != c
    ensures var o := AddMember(g, b, ClientJoin(b), 4, pick);
      o.Next? && Waiting(o.g, a, {b}, {c}) && o.g.members[a].join == join && o.g.members[b].join == ClientJoin(b)
  {
    hide Bump, Names, Rebalance;
    ListedProtocols(b);
    SecondAdded(g, a, join, b, c);
    RebalanceHolds(Added(g, b, ClientJoin(b), 4), pick);
  }

  lemma SecondAdded(g: Group, a: Id, join: Join, b: Id, c: Id)
    requires Alone(g, a, join, {b, c}) && a != b && b != c
    ensures var g1 := Added(g, b, ClientJoin(b), 4);
      g1.members.Keys == {a} + {b} && |g1.members| == 2 && g1.nJoining == |{b}| == 1 && g1.pending.Keys == {c}
  {
    hide Bump, Names, Clientele;
    var g1 := Added(g, b, ClientJoin(b), 4);
    assert g1.members.Keys == {a, b} && {a} + {b} == {a, b};
    assert |g1.members| == |g1.members.Keys|;
  }

  lemma ReachWaiting(a: Id, join: Join, b: Id, c: Id, d: Id) returns (w: World)
    requires Clients(a, b, c, d) && ClientSends(join, a)
    ensures At(w, 5) && Waiting(w.g, a, {b}, {c})
    ensures w.g.members[a].join == join && b in w.g.members && w.g.members[b].join == ClientJoin(b)
  {
    var w0 := ReachAlone(a, join, b, c, d);
    ListedProtocols(b);
    SecondEnters(w0.g, a, join, b, c, Order(a, b, c));
    w := Enters(w0, 4, ClientJoin(b), a, b, c, d);
  }

  // ---------------------------------------------------------------------
  // Two leaders
  // ---------------------------------------------------------------------

  lemma ThirdEnters(g: Group, a: Id, b: Id, c: Id, pick: Pick)
    requires Waiting(g, a, {b}, {c}) && a != c && b != c
    ensures var o := AddMember(g, c, ClientJoin(c), 5, pick); o.Next? && Waiting(o.g, a, {b, c}, {})
  {
    hide Bump, Names, Rebalance;
    ListedProtocols(c);
    ThirdAdded(g, a, b, c);
    RebalanceHolds(Added(g, c, ClientJoin(c), 5), pick);
  }

  lemma ThirdAdded(g: Group, a: Id, b: Id, c: Id)
    requires Waiting(g, a, {b}, {c}) && a != c && b != c
    ensures var g1 := Added(g, c, ClientJoin(c), 5);
      g1.members.Keys == {a} + {b, c} && |g1.members| == 3 && g1.nJoining == |{b, c}| == 2 && g1.pending.Keys == {}
  {
    hide Bump, Names, Clientele;
    var g1 := Added(g, c, ClientJoin(c), 5);
    assert g1.members.Keys == {a, b, c} && {a} + {b, c} == {a, b, c};
    assert |g1.members| == |g1.members.Keys|;
  }

  lemma ReachTwoWaiting(a: Id, b: Id, c: Id, d: Id) returns (w: World)
    requires Clients(a, b, c, d)
    ensures At(w, 6) && Waiting(w.g, a, {b, c}, {})
  {
    hide AddMember, Reached, SeenBelow, Order, Names;
    ListedProtocols(a);
    ListedProtocols(c);
    var w0 := ReachWaiting(a, ClientJoin(a), b, c, d);
    ThirdEnters(w0.g, a, b, c, Order(a, b, c));
    w := Enters(w0, 5, ClientJoin(c), a, b, c, d);
  }

  /** While two members wait for the leader to join again it leaves, and both are told that they lead. */
  lemma TwoLeaders(a: Id, b: Id, c: Id, d: Id) returns (w: World, e: Event)
    requires Clients(a, b, c, d)
    ensures Reached(w) && Possible(w, e) && e == LeaveOne(a, false, Order(a, b, c)) && w.g.leader == a
    ensures Handle(w.g, e).Next? && !OneLeader(Handle(w.g, e).replies)
  {
    w := ReachTwoWaiting(a, b, c, d);
    e := LeaveOne(a, false, Order(a, b, c));
    MayLeave(w, a, b, c, d);
    LeaderGoes(w, a, b, c, Order(a, b, c));
  }

  lemma MayLeave(w: World, a: Id, b: Id, c: Id, d: Id)
    requires Clients(a, b, c, d) && Waiting(w.g, a, {b, c}, {})
    ensures Possible(w, LeaveOne(a, false, Order(a, b, c))) && ValidPick(w.g, Order(a, b, c))
    ensures Handle(w.g, LeaveOne(a, false, Order(a, b, c))) == RemoveMember(w.g, a, Order(a, b, c))
  {
    hide Enumerates, RemoveMember, Order, Clientele;
    OrderIsValid(w.g, a, b, c, d);
  }

  lemma LeaderGoes(w: World, a: Id, b: Id, c: Id, pick: Pick)
    requires Reached(w) && Waiting(w.g, a, {b, c}, {}) && b != c && ValidPick(w.g, pick)
    ensures var o := RemoveMember(w.g, a, pick); o.Next? && !OneLeader(o.replies)
  {
    hide Inv, ValidPick, RemoveMember, OneLeader;
    ReachedInv(w);
    SharedRemove(w.g, a, pick, Range);
    RemoveLeaders(w.g, a, pick);
    assert w.g.members.Keys - {a} == {b, c};
  }

  // ---------------------------------------------------------------------
  // No common protocol
  // ---------------------------------------------------------------------

  /** `a` has listed two protocols, `b` waits with the first, and `a` joins again with the second: a panic. */
  lemma ProtocolPanics(a: Id, b: Id, c: Id, d: Id) returns (w: World, e: Event)
    requires Clients(a, b, c, d)
    ensures Reached(w) && Possible(w, e) && e == JoinEvent(5, StickyJoin(a), d, Order(a, b, c))
    ensures Handle(w.g, e) == Panic(NoCommonProtocol)
  {
    hide UpdateMember, ValidPick, Reached, Order, Names;
    ListedProtocols(a);
    w := ReachWaiting(a, BothJoin(a), b, c, d);
    e := JoinEvent(5, StickyJoin(a), d, Order(a, b, c));
    OrderIsValid(w.g, a, b, c, d);
    Divides(w, a, b, c, Order(a, b, c));
    JoinsAgain(w, a, StickyJoin(a), d, Order(a, b, c));
  }

  lemma Divides(w: World, a: Id, b: Id, c: Id, pick: Pick)
    requires Reached(w) && Waiting(w.g, a, {b}, {c}) && w.g.members[a].join == BothJoin(a) && ValidPick(w.g, pick)
    requires w.g.members[b].join == ClientJoin(b)
    ensures UpdateMember(w.g, a, StickyJoin(a), 5, pick) == Panic(NoCommonProtocol)
    ensures ProtocolsMatch(w.g, StickyJoin(a)) == (true, "consumer")
  {
    ReachedInv(w);
    ListedProtocols(a);
    Matches(w.g, StickyJoin(a), Sticky, a);
    NothingShared(w.g, a, b, c);
    UpdatePanics(w.g, a, StickyJoin(a), 5, pick);
  }

  lemma NothingShared(g: Group, a: Id, b: Id, c: Id)
    requires Waiting(g, a, {b}, {c}) && g.members[b].join == ClientJoin(b)
    ensures var g1 := Updated(g, a, StickyJoin(a), 5); g1.nJoining == 2 == |g.members| && Divided(g1.members)
  {
    hide Bump, Names, Clientele;
    var g1 := Updated(g, a, StickyJoin(a), 5);
    assert g.members.Keys == {a, b};
    assert |g.members| == |g.members.Keys|;
    assert |{b}| == 1 && a in g1.members;
    forall p ensures !Shares(g1.members, p) {
      ListedProtocols(a);
      ListedProtocols(b);
      assert g1.members[a].join == StickyJoin(a) && g1.members[b].join == ClientJoin(b);
    }
  }

  /** A join of a member while the group prepares a rebalance. */
  lemma JoinsAgain(w: World, m: Id, join: Join, d: Id, pick: Pick)
    requires SeenBelow(w, 5) && w.g.state == PreparingRebalance && m in w.g.members && m !in w.g.pending && m != ""
    requires join.memberId == m && w.g.protocolType == "consumer" && ProtocolsMatch(w.g, join) == (true, "consumer")
    requires d != "" && d !in w.g.members && d !in w.g.pending && ValidPick(w.g, pick)
    ensures Possible(w, JoinEvent(5, join, d, pick))
    ensures Handle(w.g, JoinEvent(5, join, d, pick)) == UpdateMember(w.g, m, join, 5, pick)
  {
    assert w.g.(protocolType := "consumer") == w.g;
  }

  // ---------------------------------------------------------------------
  // No members in a group that is not empty
  // ---------------------------------------------------------------------

  /** `a` leads, `b` is the other member, and the leader's assignment is awaited. */
  ghost predicate Pair(g: Group, a: Id, b: Id, c: Id) {
    g.state == CompletingRebalance && g.nJoining == 0 && g.members.Keys == {a, b} && g.leader == a &&
    NobodyWaits(g.members) && g.pending.Keys == {c}
  }

  lemma LeaderReturns(w: World, a: Id, b: Id, c: Id, pick: Pick)
    requires Reached(w) && Waiting(w.g, a, {b}, {c}) && ValidPick(w.g, pick)
    ensures var o := UpdateMember(w.g, a, ClientJoin(a), 5, pick); o.Next? && Pair(o.g, a, b, c)
  {
    ReachedInv(w);
    UpdatedReady(w.g, a, ClientJoin(a), 5);
    UpdatedKeys(w.g, a, ClientJoin(a), 5, pick);
    BothJoined(w.g, a, b, c);
    RebalanceForms(Updated(w.g, a, ClientJoin(a), 5), pick);
  }

  lemma BothJoined(g: Group, a: Id, b: Id, c: Id)
    requires Waiting(g, a, {b}, {c})
    ensures var g1 := Updated(g, a, ClientJoin(a), 5);
      g1.nJoining == 2 == |g1.members| && Shares(g1.members, Range) && g1.members.Keys == {a, b}
  {
    var g1 := Updated(g, a, ClientJoin(a), 5);
    assert g1.members.Keys == {a, b};
    assert |g1.members| == |g1.members.Keys|;
    ListedProtocols(a);
  }

  /** A member joins again while the group waits for that. */
  lemma Returns(w: World, m: Id, d: Id, pick: Pick) returns (w': World)
    requires At(w, 5) && Clientele(w.g) && w.g.state == PreparingRebalance && m in w.g.members && m !in w.g.pending
    requires m != "" && d != "" && d !in w.g.members && d !in w.g.pending && ValidPick(w.g, pick)
    requires UpdateMember(w.g, m, ClientJoin(m), 5, pick).Next?
    ensures At(w', 6) && w'.g == UpdateMember(w.g, m, ClientJoin(m), 5, pick).g
  {
    ReachedInv(w);
    ListedProtocols(m);
    ClientMatches(w.g, ClientJoin(m));
    JoinsAgain(w, m, ClientJoin(m), d, pick);
    w' := Takes(w, JoinEvent(5, ClientJoin(m), d, pick), 6);
  }

  lemma ReachPair(a: Id, b: Id, c: Id, d: Id) returns (w: World)
    requires Clients(a, b, c, d)
    ensures At(w, 6) && Pair(w.g, a, b, c)
  {
    hide UpdateMember, ValidPick, Reached, SeenBelow, Order, Clientele;
    ListedProtocols(a);
    var w0 := ReachWaiting(a, ClientJoin(a), b, c, d);
    OrderIsValid(w0.g, a, b, c, d);
    LeaderReturns(w0, a, b, c, Order(a, b, c));
    w := Returns(w0, a, d, Order(a, b, c));
  }

  /** The other member has sent its sync. */
  ghost predicate Synced(g: Group, a: Id, b: Id, c: Id) {
    g.state == CompletingRebalance && g.nJoining == 0 && g.members.Keys == {a, b} && g.members[a].waiting.None? &&
    WaitsInSync(g.members[b]) && g.pending.Keys == {c}
  }

  lemma ReachSynced(a: Id, b: Id, c: Id, d: Id) returns (w: World)
    requires Clients(a, b, c, d)
    ensures At(w, 7) && Synced(w.g, a, b, c)
  {
    var w0 := ReachPair(a, b, c, d);
    OrderIsValid(w0.g, a, b, c, d);
    ParksSync(w0.g, b, 6, Order(a, b, c));
    w := Takes(w0, SyncEvent(6, SyncRequest(b, w0.g.generation, None, None, []), Order(a, b, c)), 7);
  }

  /** Only the leader is left, and the join count is wrong. */
  ghost predicate Miscounted(g: Group, a: Id, c: Id) {
    g.state == PreparingRebalance && g.nJoining == -1 && g.members.Keys == {a} && g.members[a].waiting.None? &&
    g.pending.Keys == {c}
  }

  lemma ReachMiscounted(a: Id, b: Id, c: Id, d: Id) returns (w: World)
    requires Clients(a, b, c, d)
    ensures At(w, 7) && Miscounted(w.g, a, c)
  {
    var w0 := ReachSynced(a, b, c, d);
    OrderIsValid(w0.g, a, b, c, d);
    SyncerLeaves(w0.g, b, a, Order(a, b, c));
    w := Takes(w0, LeaveOne(b, false, Order(a, b, c)), 7);
  }

  /** The other member syncs and leaves, then the leader leaves, and an offset commit without a member panics. */
  lemma CommitPanics(a: Id, b: Id, c: Id, d: Id) returns (w: World, e: Event)
    requires Clients(a, b, c, d)
    ensures Reached(w) && Possible(w, e) && e == CommitEvent(7, "", -1)
    ensures Handle(w.g, e) == Panic(NoMembersButNotEmpty)
  {
    var w0 := ReachMiscounted(a, b, c, d);
    OrderIsValid(w0.g, a, b, c, d);
    LastMemberPanics(w0.g, a, Order(a, b, c), 7);
    w := Takes(w0, LeaveOne(a, false, Order(a, b, c)), 7);
    e := CommitEvent(7, "", -1);
  }
}
