/**
 Group lag in `pkg/kadm/groups.go`: three passes over the assigned, the committed and
 the listed partitions fill one nested map.
 */
module Lag {
  import opened Wrappers

  type Topic = string

  datatype Error = ListMissing | Failed(code: int)

  /** A listed offset, or why there is none. */
  datatype Listed = Listed(offset: int, err: Option<Error>)

  /** A committed offset; a negative one is no commit. */
  datatype Committed = Committed(at: int, err: Option<Error>)

  datatype Assignment = Assignment(topic: Topic, partitions: seq<int>)

  /** A member whose assignment is that of a consumer, and perhaps its join topics as well. */
  datatype Member = Member(assignment: Option<seq<Assignment>>, joined: Option<seq<Topic>>)

  datatype MemberLag = MemberLag(
    member: Option<nat>, commit: int, start: Listed, end: Listed, lag: int, err: Option<Error>)

  type Offsets = map<Topic, map<int, Listed>>
  type Commits = map<Topic, map<int, Committed>>
  type Lags = map<Topic, map<int, MemberLag>>

  datatype Input = Input(members: seq<Member>, commit: Commits, start: Offsets, end: Offsets)

  // ---------------------------------------------------------------------
  // One partition
  // ---------------------------------------------------------------------

  function Lookup(o: Offsets, t: Topic, p: int): Listed {
    if t in o && p in o[t] then o[t][p] else Listed(0, Some(ListMissing))
  }

  function CommitOf(c: Commits, t: Topic, p: int): Committed {
    if t in c && p in c[t] then c[t][p] else Committed(-1, None)
  }

  predicate IsListed(o: Offsets, t: Topic, p: int) { t in o && p in o[t] }

  predicate IsCommitted(c: Commits, t: Topic, p: int) { t in c && p in c[t] }

  /** The lag of an assigned or committed partition, with the source's priority of errors. */
  function Measure(i: Input, member: Option<nat>, t: Topic, p: int): MemberLag {
    var c, s, e := CommitOf(i.commit, t, p), Lookup(i.start, t, p), Lookup(i.end, t, p);
    var err :=
      if !IsListed(i.end, t, p) then Some(ListMissing)
      else if c.err.Some? then c.err
      else e.err;
    var lag :=
      if err.Some? then -1 else
      var raw := if c.at >= 0 then e.offset - c.at else if s.err.None? then e.offset - s.offset else e.offset;
      if raw < 0 then 0 else raw;
    MemberLag(member, c.at, s, e, lag, err)
  }

  /** The lag of a partition that is only listed: entirely behind. */
  function MeasureListed(i: Input, t: Topic, p: int): MemberLag {
    var s, e := Lookup(i.start, t, p), Lookup(i.end, t, p);
    var lag :=
      if IsListed(i.start, t, p) && s.err.None? then
        if e.offset - s.offset < 0 then 0 else e.offset - s.offset
      else if e.err.None? then e.offset else -1;
    MemberLag(None, -1, s, e, lag, e.err)
  }

  // ---------------------------------------------------------------------
  // The three passes
  // ---------------------------------------------------------------------

  function Get(l: Lags, t: Topic): map<int, MemberLag> { if t in l then l[t] else map[] }

  /** A member's assigned partitions of one topic replace whatever was there. */
  function Assign(i: Input, l: Lags, m: nat, a: Assignment): Lags {
    l[a.topic := Get(l, a.topic) + map p | p in a.partitions :: Measure(i, Some(m), a.topic, p)]
  }

  function AssignAll(i: Input, l: Lags, m: nat, xs: seq<Assignment>): Lags {
    if xs == [] then l else Assign(i, AssignAll(i, l, m, xs[..|xs| - 1]), m, xs[|xs| - 1])
  }

  /** The topics a member wants are there even if nothing of them is assigned. */
  function Prime(l: Lags, ts: seq<Topic>): Lags {
    l + map t | t in ts && t !in l :: map[]
  }

  function AddMember(i: Input, l: Lags, m: nat): Lags
    requires m < |i.members|
  {
    var member := i.members[m];
    if member.assignment.None? then l else
    var l1 := AssignAll(i, l, m, member.assignment.value);
    if member.joined.None? then l1 else Prime(l1, member.joined.value)
  }

  function FromMembers(i: Input, n: nat): Lags
    requires n <= |i.members|
  {
    if n == 0 then map[] else AddMember(i, FromMembers(i, n - 1), n - 1)
  }

  /** The committed partitions of a topic that nobody is assigned. */
  function Unassigned(i: Input, l: Lags, t: Topic): map<int, MemberLag>
    requires t in i.commit
  {
    map p | p in i.commit[t] && p !in Get(l, t) :: Measure(i, None, t, p)
  }

  function WithCommits(i: Input, l: Lags): Lags {
    map t | t in l.Keys + i.commit.Keys ::
      if t in i.commit then Get(l, t) + Unassigned(i, l, t) else Get(l, t)
  }

  function Uncommitted(i: Input, l: Lags, t: Topic): map<int, MemberLag> {
    map p | t in i.end && p in i.end[t] && p !in Get(l, t) :: MeasureListed(i, t, p)
  }

  function WithListed(i: Input, l: Lags): Lags {
    map t | t in l :: l[t] + Uncommitted(i, l, t)
  }

  function Result(i: Input): Lags {
    WithListed(i, WithCommits(i, FromMembers(i, |i.members|)))
  }

  // ---------------------------------------------------------------------
  // The loops
  // ---------------------------------------------------------------------

  method AssignTopic(i: Input, l0: Lags, m: nat, a: Assignment) returns (l: Lags)
    ensures l == Assign(i, l0, m, a)
  {
    var lt := Get(l0, a.topic);
    var k := 0;
    while k < |a.partitions|
      invariant k <= |a.partitions|
      invariant lt == Get(l0, a.topic) + map p | p in a.partitions[..k] :: Measure(i, Some(m), a.topic, p)
    {
      MeasureNext(i, Get(l0, a.topic), m, a, k);
      lt := lt[a.partitions[k] := Measure(i, Some(m), a.topic, a.partitions[k])];
      k := k + 1;
    }
    assert a.partitions[..k] == a.partitions;
    l := l0[a.topic := lt];
  }

  lemma MeasureNext(i: Input, lt: map<int, MemberLag>, m: nat, a: Assignment, k: nat)
    requires k < |a.partitions|
    ensures lt + (map p | p in a.partitions[..k + 1] :: Measure(i, Some(m), a.topic, p)) ==
            (lt + map p | p in a.partitions[..k] :: Measure(i, Some(m), a.topic, p))
            [a.partitions[k] := Measure(i, Some(m), a.topic, a.partitions[k])]
  {
    assert a.partitions[..k + 1] == a.partitions[..k] + [a.partitions[k]];
  }

  method PassMembers(i: Input) returns (l: Lags)
    ensures l == FromMembers(i, |i.members|)
  {
    l := map[];
    var m := 0;
    while m < |i.members|
      invariant m <= |i.members| && l == FromMembers(i, m)
    {
      l := PassMember(i, l, m);
      m := m + 1;
    }
  }

  method PassMember(i: Input, l0: Lags, m: nat) returns (l: Lags)
    requires m < |i.members|
    ensures l == AddMember(i, l0, m)
  {
    l := l0;
    var member := i.members[m];
    if member.assignment.None? { return; }
    var xs := member.assignment.value;
    var k := 0;
    while k < |xs|
      invariant k <= |xs| && l == AssignAll(i, l0, m, xs[..k])
    {
      assert xs[..k + 1][..k] == xs[..k];
      l := AssignTopic(i, l, m, xs[k]);
      k := k + 1;
    }
    assert xs[..k] == xs;
    if member.joined.None? { return; }
    l := PrimeTopics(l, member.joined.value);
  }

  method PrimeTopics(l0: Lags, ts: seq<Topic>) returns (l: Lags)
    ensures l == Prime(l0, ts)
  {
    l := l0;
    var k := 0;
    while k < |ts|
      invariant k <= |ts| && l == Prime(l0, ts[..k])
    {
      PrimeOne(l0, ts, k);
      if ts[k] !in l { l := l[ts[k] := map[]]; }
      k := k + 1;
    }
    assert ts[..k] == ts;
  }

  lemma PrimeOne(l: Lags, ts: seq<Topic>, k: nat)
    requires k < |ts|
    ensures var before := Prime(l, ts[..k]);
      Prime(l, ts[..k + 1]) == if ts[k] in before then before else before[ts[k] := map[]]
  {
    assert ts[..k + 1] == ts[..k] + [ts[k]];
  }

  /** The committed partitions of one topic, in any order. */
  method CommitTopic(i: Input, l: Lags, t: Topic) returns (lt: map<int, MemberLag>)
    requires t in i.commit
    ensures lt == Get(l, t) + Unassigned(i, l, t)
  {
    lt := Get(l, t);
    var todo: map<int, Committed> := i.commit[t];
    CommitPartsEnd(i, l, t);
    while todo != map[]
      invariant todo.Keys <= i.commit[t].Keys && lt == Get(l, t) + CommitPartsBut(i, l, t, todo.Keys)
      decreases |todo|
    {
      var p := AnyOf(todo.Keys);
      CommitPartStep(i, l, t, todo.Keys, p);
      assert (todo - {p}).Keys == todo.Keys - {p};
      if p !in lt { lt := lt[p := Measure(i, None, t, p)]; }
      todo := todo - {p};
    }
  }

  function CommitPartsBut(i: Input, l: Lags, t: Topic, todo: set<int>): map<int, MemberLag>
    requires t in i.commit
  {
    map p | p in i.commit[t] && p !in todo && p !in Get(l, t) :: Measure(i, None, t, p)
  }

  lemma CommitPartsEnd(i: Input, l: Lags, t: Topic)
    requires t in i.commit
    ensures CommitPartsBut(i, l, t, i.commit[t].Keys) == map[] && CommitPartsBut(i, l, t, {}) == Unassigned(i, l, t)
    ensures Get(l, t) + map[] == Get(l, t)
  {
  }

  lemma CommitPartStep(i: Input, l: Lags, t: Topic, todo: set<int>, p: int)
    requires t in i.commit && p in todo && todo <= i.commit[t].Keys
    ensures var before := Get(l, t) + CommitPartsBut(i, l, t, todo);
      Get(l, t) + CommitPartsBut(i, l, t, todo - {p}) ==
      if p in before then before else before[p := Measure(i, None, t, p)]
  {
  }

  method PassCommits(i: Input, l0: Lags) returns (l: Lags)
    ensures l == WithCommits(i, l0)
  {
    l := l0;
    var todo := i.commit.Keys;
    CommitsEnds(i, l0);
    while todo != {}
      invariant todo <= i.commit.Keys && l == CommitsBut(i, l0, todo)
      decreases |todo|
    {
      var t := AnyOf(todo);
      CommitsStep(i, l0, todo, t);
      var lt := CommitTopic(i, l0, t);
      l := l[t := lt];
      todo := todo - {t};
    }
  }

  /** The map while the topics in `todo` have not been looked at. */
  function CommitsBut(i: Input, l: Lags, todo: set<Topic>): Lags {
    map t | t in l.Keys + (i.commit.Keys - todo) ::
      if t in i.commit && t !in todo then Get(l, t) + Unassigned(i, l, t) else Get(l, t)
  }

  lemma CommitsEnds(i: Input, l: Lags)
    ensures CommitsBut(i, l, i.commit.Keys) == l && CommitsBut(i, l, {}) == WithCommits(i, l)
  {
    assert l.Keys + (i.commit.Keys - i.commit.Keys) == l.Keys;
    assert i.commit.Keys - {} == i.commit.Keys;
  }

  lemma CommitsStep(i: Input, l: Lags, todo: set<Topic>, t: Topic)
    requires t in todo && todo <= i.commit.Keys
    ensures CommitsBut(i, l, todo - {t}) == CommitsBut(i, l, todo)[t := Get(l, t) + Unassigned(i, l, t)]
  {
    assert l.Keys + (i.commit.Keys - (todo - {t})) == l.Keys + (i.commit.Keys - todo) + {t};
  }

  method ListTopic(i: Input, l: Lags, t: Topic) returns (lt: map<int, MemberLag>)
    ensures lt == Get(l, t) + Uncommitted(i, l, t)
  {
    lt := Get(l, t);
    if t !in i.end { return; }
    var todo: map<int, Listed> := i.end[t];
    ListEnds(i, l, t);
    while todo != map[]
      invariant todo.Keys <= i.end[t].Keys && lt == Get(l, t) + ListedPartsBut(i, l, t, todo.Keys)
      decreases |todo|
    {
      var p := AnyOf(todo.Keys);
      ListStep(i, l, t, todo.Keys, p);
      assert (todo - {p}).Keys == todo.Keys - {p};
      if p !in lt { lt := lt[p := MeasureListed(i, t, p)]; }
      todo := todo - {p};
    }
  }

  function ListedPartsBut(i: Input, l: Lags, t: Topic, todo: set<int>): map<int, MemberLag>
    requires t in i.end
  {
    map p | p in i.end[t] && p !in todo && p !in Get(l, t) :: MeasureListed(i, t, p)
  }

  lemma ListEnds(i: Input, l: Lags, t: Topic)
    requires t in i.end
    ensures ListedPartsBut(i, l, t, i.end[t].Keys) == map[] && ListedPartsBut(i, l, t, {}) == Uncommitted(i, l, t)
    ensures Get(l, t) + map[] == Get(l, t)
  {
  }

  lemma ListStep(i: Input, l: Lags, t: Topic, todo: set<int>, p: int)
    requires t in i.end && p in todo && todo <= i.end[t].Keys
    ensures var before := Get(l, t) + ListedPartsBut(i, l, t, todo);
      Get(l, t) + ListedPartsBut(i, l, t, todo - {p}) ==
      if p in before then before else before[p := MeasureListed(i, t, p)]
  {
  }

  method PassListed(i: Input, l0: Lags) returns (l: Lags)
    ensures l == WithListed(i, l0)
  {
    l := l0;
    var todo := l0.Keys;
    while todo != {}
      invariant todo <= l0.Keys && l == ListedBut(i, l0, todo)
      decreases |todo|
    {
      var t := AnyOf(todo);
      ListedStep(i, l0, todo, t);
      var lt := ListTopic(i, l0, t);
      l := l[t := lt];
      todo := todo - {t};
    }
  }

  function ListedBut(i: Input, l: Lags, todo: set<Topic>): Lags {
    map t | t in l :: if t in todo then l[t] else l[t] + Uncommitted(i, l, t)
  }

  lemma ListedStep(i: Input, l: Lags, todo: set<Topic>, t: Topic)
    requires t in todo && todo <= l.Keys
    ensures ListedBut(i, l, todo - {t}) == ListedBut(i, l, todo)[t := Get(l, t) + Uncommitted(i, l, t)]
  {
  }

  /** The order in which Go iterates over the maps does not matter: the result is a function of the input. */
  method CalculateGroupLag(i: Input) returns (l: Lags)
    ensures l == Result(i)
  {
    l := PassMembers(i);
    l := PassCommits(i, l);
    l := PassListed(i, l);
  }

  // ---------------------------------------------------------------------
  // What the result means
  // ---------------------------------------------------------------------

  /** The assignments give this partition. */
  ghost predicate Gives(xs: seq<Assignment>, t: Topic, p: int) {
    exists k :: 0 <= k < |xs| && xs[k].topic == t && p in xs[k].partitions
  }

  ghost predicate Names(xs: seq<Assignment>, t: Topic) {
    exists k :: 0 <= k < |xs| && xs[k].topic == t
  }

  ghost predicate IsAssignee(m: Member, t: Topic, p: int) { m.assignment.Some? && Gives(m.assignment.value, t, p) }

  /** A member asks for a topic by its assignment, or by its join if it has an assignment at all. */
  ghost predicate Wants(m: Member, t: Topic) {
    m.assignment.Some? && (Names(m.assignment.value, t) || (m.joined.Some? && t in m.joined.value))
  }

  /** The last member to whom the partition is assigned. */
  ghost function Assignee(members: seq<Member>, n: nat, t: Topic, p: int): Option<nat>
    requires n <= |members|
  {
    if n == 0 then None
    else if IsAssignee(members[n - 1], t, p) then Some(n - 1)
    else Assignee(members, n - 1, t, p)
  }

  ghost predicate Wanted(members: seq<Member>, n: nat, t: Topic)
    requires n <= |members|
  {
    exists m :: 0 <= m < n && Wants(members[m], t)
  }

  /** `l` has exactly topic `t` or not, and exactly this entry or none for partition `p` of it. */
  ghost predicate Holds(l: Lags, t: Topic, p: int, topic: bool, entry: Option<MemberLag>) {
    (t in l <==> topic) && (p in Get(l, t) <==> entry.Some?) && (entry.Some? ==> Get(l, t)[p] == entry.value)
  }

  ghost function EntryOf(l: Lags, t: Topic, p: int): Option<MemberLag> {
    if p in Get(l, t) then Some(Get(l, t)[p]) else None
  }

  lemma NamesSnoc(xs: seq<Assignment>, a: Assignment, t: Topic, p: int)
    ensures Names(xs + [a], t) <==> Names(xs, t) || a.topic == t
    ensures Gives(xs + [a], t, p) <==> Gives(xs, t, p) || (a.topic == t && p in a.partitions)
  {
    var ys := xs + [a];
    assert ys[|xs|] == a;
    if Names(xs, t) { var k :| 0 <= k < |xs| && xs[k].topic == t; assert ys[k] == xs[k]; }
    if Gives(xs, t, p) {
      var k :| 0 <= k < |xs| && xs[k].topic == t && p in xs[k].partitions;
      assert ys[k] == xs[k];
    }
  }

  lemma {:induction false} AssignAllHolds(i: Input, l: Lags, m: nat, xs: seq<Assignment>, t: Topic, p: int)
    ensures Holds(AssignAll(i, l, m, xs), t, p, t in l || Names(xs, t),
                  if Gives(xs, t, p) then Some(Measure(i, Some(m), t, p)) else EntryOf(l, t, p))
    decreases |xs|
  {
    if xs != [] {
      var ys, a := xs[..|xs| - 1], xs[|xs| - 1];
      assert xs == ys + [a];
      NamesSnoc(ys, a, t, p);
      AssignAllHolds(i, l, m, ys, t, p);
    }
  }

  lemma {:induction false} MembersHold(i: Input, n: nat, t: Topic, p: int)
    requires n <= |i.members|
    ensures var who := Assignee(i.members, n, t, p);
      Holds(FromMembers(i, n), t, p, Wanted(i.members, n, t),
            if who.Some? then Some(Measure(i, who, t, p)) else None)
  {
    hide Measure;
    if n > 0 {
      var member := i.members[n - 1];
      MembersHold(i, n - 1, t, p);
      assert Wanted(i.members, n, t) <==> Wanted(i.members, n - 1, t) || Wants(member, t);
      if member.assignment.Some? {
        AssignAllHolds(i, FromMembers(i, n - 1), n - 1, member.assignment.value, t, p);
      }
    }
  }

  /** The topics of interest: wanted by a member, or committed to. */
  ghost predicate OfInterest(i: Input, t: Topic) { Wanted(i.members, |i.members|, t) || t in i.commit }

  /** What the result should hold for a partition: assigned before committed before listed. */
  ghost function Expected(i: Input, t: Topic, p: int): Option<MemberLag> {
    var who := Assignee(i.members, |i.members|, t, p);
    if who.Some? then Some(Measure(i, who, t, p))
    else if IsCommitted(i.commit, t, p) then Some(Measure(i, None, t, p))
    else if OfInterest(i, t) && IsListed(i.end, t, p) then Some(MeasureListed(i, t, p))
    else None
  }

  /** The result has the topics of interest, and of each the assigned, the committed and the listed partitions. */
  lemma ResultHolds(i: Input, t: Topic, p: int)
    ensures Holds(Result(i), t, p, OfInterest(i, t), Expected(i, t, p))
  {
    MembersHold(i, |i.members|, t, p);
    if Assignee(i.members, |i.members|, t, p).Some? { AssigneeWants(i.members, |i.members|, t, p); }
  }

  lemma {:induction false} AssigneeWants(members: seq<Member>, n: nat, t: Topic, p: int)
    requires n <= |members| && Assignee(members, n, t, p).Some?
    ensures Wanted(members, n, t)
  {
    if IsAssignee(members[n - 1], t, p) {
      assert Wants(members[n - 1], t);
    } else {
      AssigneeWants(members, n - 1, t, p);
    }
  }

  /**
   An assigned or committed partition has lag -1 if and only if it has an
   error, and otherwise the distance from its commit, or else from the listed
   start, or else from zero, to the end, but never less than zero.
   */
  lemma AssignedOrCommitted(i: Input, t: Topic, p: int)
    requires Assignee(i.members, |i.members|, t, p).Some? || IsCommitted(i.commit, t, p)
    ensures t in Result(i) && p in Result(i)[t]
    ensures var r := Result(i)[t][p];
      Reports(i, t, p, r) && (r.lag == -1 <==> r.err.Some?) &&
      (r.member.None? <==> forall m :: 0 <= m < |i.members| ==> !IsAssignee(i.members[m], t, p)) &&
      (r.member.Some? ==> LastAssigned(i.members, r.member.value, t, p)) &&
      r.err == (if !(t in i.end && p in i.end[t]) then Some(ListMissing)
                else if t in i.commit && p in i.commit[t] && i.commit[t][p].err.Some? then i.commit[t][p].err
                else i.end[t][p].err) &&
      (r.err.None? <==> IsListed(i.end, t, p) && i.end[t][p].err.None? && CommitOf(i.commit, t, p).err.None?) &&
      (r.err.None? ==>
        var from := if CommitOf(i.commit, t, p).at >= 0 then CommitOf(i.commit, t, p).at
                    else if IsListed(i.start, t, p) && i.start[t][p].err.None? then i.start[t][p].offset else 0;
        r.lag == if i.end[t][p].offset < from then 0 else i.end[t][p].offset - from)
  {
    ResultHolds(i, t, p);
    AssigneeIsLast(i.members, |i.members|, t, p);
  }

  /** The entry shows the commit, the listed start and the listed end of the partition, or that there is none. */
  ghost predicate Reports(i: Input, t: Topic, p: int, r: MemberLag) {
    r.commit == (if t in i.commit && p in i.commit[t] then i.commit[t][p].at else -1) &&
    r.start == (if t in i.start && p in i.start[t] then i.start[t][p] else Listed(0, Some(ListMissing))) &&
    r.end == (if t in i.end && p in i.end[t] then i.end[t][p] else Listed(0, Some(ListMissing)))
  }

  /** The member is assigned the partition, and none after it is. */
  ghost predicate LastAssigned(members: seq<Member>, m: nat, t: Topic, p: int) {
    m < |members| && IsAssignee(members[m], t, p) &&
    forall k :: m < k < |members| ==> !IsAssignee(members[k], t, p)
  }

  lemma {:induction false} AssigneeIsLast(members: seq<Member>, n: nat, t: Topic, p: int)
    requires n <= |members|
    ensures var who := Assignee(members, n, t, p);
      (who.None? <==> forall m :: 0 <= m < n ==> !IsAssignee(members[m], t, p)) &&
      (who.Some? ==> who.value < n && IsAssignee(members[who.value], t, p) &&
                     forall k :: who.value < k < n ==> !IsAssignee(members[k], t, p))
  {
    if n > 0 { AssigneeIsLast(members, n - 1, t, p); }
  }

  /**
   A partition that is only listed has lag -1 exactly if its end has an error
   and no start is known, or if its end is listed as -1 without error and no
   start is known: with a start, it gets a lag although it has an error.
   */
  lemma OnlyListed(i: Input, t: Topic, p: int)
    requires Assignee(i.members, |i.members|, t, p).None? && !IsCommitted(i.commit, t, p)
    requires OfInterest(i, t) && IsListed(i.end, t, p)
    ensures t in Result(i) && p in Result(i)[t]
    ensures var r := Result(i)[t][p];
      var started := IsListed(i.start, t, p) && i.start[t][p].err.None?;
      Reports(i, t, p, r) && r.err == i.end[t][p].err && r.member.None? &&
      r.lag == (if started then Floored(i.end[t][p].offset - i.start[t][p].offset)
                else if r.err.None? then i.end[t][p].offset else -1) &&
      (r.lag == -1 <==> !started && (r.err.Some? || i.end[t][p].offset == -1)) &&
      (r.err.Some? && r.lag != -1 <==> r.err.Some? && started)
  {
    ResultHolds(i, t, p);
  }

  function Floored(lag: int): nat { if lag < 0 then 0 else lag }

  /** An end that could not be listed, and a start at 3: the partition has an error and a lag. */
  lemma ErrorWithLag(t: Topic, code: int, offset: int)
    ensures
      var i := Input([], map[t := map[]], map[t := map[0 := Listed(3, None)]],
                     map[t := map[0 := Listed(offset, Some(Failed(code)))]]);
      t in Result(i) && 0 in Result(i)[t] &&
      Result(i)[t][0].err == Some(Failed(code)) && Result(i)[t][0].lag == Floored(offset - 3)
  {
    var i := Input([], map[t := map[]], map[t := map[0 := Listed(3, None)]],
                   map[t := map[0 := Listed(offset, Some(Failed(code)))]]);
    OnlyListed(i, t, 0);
  }

  // ---------------------------------------------------------------------
  // Totals
  // ---------------------------------------------------------------------

  function Behind(m: MemberLag): nat { if m.lag > 0 then m.lag else 0 }

  ghost function AnyKey<K(!new)>(keys: set<K>): (k: K)
    requires keys != {}
    ensures k in keys
  {
    var k :| k in keys;
    k
  }

  /** The sum over a map does not depend on the order; this is the sum in some order. */
  ghost function Sum(ps: map<int, MemberLag>): nat
    decreases |ps|
  {
    if ps == map[] then 0 else
    var p := AnyKey(ps.Keys);
    Behind(ps[p]) + Sum(ps - {p})
  }

  /** Any partition can be taken out of the sum, and counts with its lag unless that is negative. */
  lemma {:induction false} SumWithout(ps: map<int, MemberLag>, p: int)
    requires p in ps
    ensures Sum(ps) == Sum(ps - {p}) + if ps[p].lag < 0 then 0 else ps[p].lag
    decreases |ps|
  {
    var q := AnyKey(ps.Keys);
    if q != p {
      SumWithout(ps - {q}, p);
      SumWithout(ps - {p}, q);
      assert ps - {q} - {p} == ps - {p} - {q};
    }
  }

  /** A topic's total is the sum of its positive lags. */
  method TotalOfTopic(ps: map<int, MemberLag>) returns (total: nat)
    ensures total == Sum(ps)
  {
    total := 0;
    var todo := ps;
    while todo != map[]
      invariant total + Sum(todo) == Sum(ps)
      decreases |todo|
    {
      var p := AnyOf(todo.Keys);
      SumWithout(todo, p);
      total := total + Behind(todo[p]);
      todo := todo - {p};
    }
  }

  ghost function SumAll(l: Lags): nat
    decreases |l|
  {
    if l == map[] then 0 else
    var t := AnyKey(l.Keys);
    Sum(l[t]) + SumAll(l - {t})
  }

  lemma {:induction false} SumAllWithout(l: Lags, t: Topic)
    requires t in l
    ensures SumAll(l) == Sum(l[t]) + SumAll(l - {t})
    decreases |l|
  {
    var q := AnyKey(l.Keys);
    if q != t {
      SumAllWithout(l - {q}, t);
      SumAllWithout(l - {t}, q);
      assert l - {q} - {t} == l - {t} - {q};
    }
  }

  method TotalByTopic(l: Lags) returns (byTopic: map<Topic, nat>)
    ensures byTopic == map t | t in l :: Sum(l[t])
  {
    byTopic := map[];
    var todo := l.Keys;
    while todo != {}
      invariant todo <= l.Keys && byTopic == map t | t in l && t !in todo :: Sum(l[t])
      decreases |todo|
    {
      var t := AnyOf(todo);
      var lag := TotalOfTopic(l[t]);
      byTopic := byTopic[t := lag];
      todo := todo - {t};
    }
  }

  /** The group's total counts every partition once, in any order of iteration. */
  method Total(l: Lags) returns (total: nat)
    ensures total == SumAll(l)
  {
    var byTopic := TotalByTopic(l);
    total := 0;
    var todo := l;
    while todo != map[]
      invariant todo == map t | t in todo.Keys && t in l :: l[t]
      invariant todo.Keys <= l.Keys && total + SumAll(todo) == SumAll(l)
      decreases |todo|
    {
      var t := AnyOf(todo.Keys);
      SumAllWithout(todo, t);
      total := total + byTopic[t];
      todo := todo - {t};
    }
  }
}
