/** The local session registry: lookups and the ranking of delivery targets. */
module Registry {
  import opened Prelude

  /** One registry entry; absent keys are None. */
  datatype Session = Session(
    pid: int,
    sessionId: Option<string>,
    cwd: string,
    sock: Option<string>,
    kind: Option<string>,
    statusUpdatedAt: Option<int>,
    peerProtocol: Option<int>)

  const PROTOCOL_VERSION := 1

  predicate ProtocolOk(s: Session) {
    s.peerProtocol == Some(PROTOCOL_VERSION)
  }

  predicate IsBg(s: Session) {
    s.kind == Some("bg")
  }

  predicate IsOther(s: Session) {
    !IsBg(s)
  }

  function Status(s: Session): int {
    if s.statusUpdatedAt.Some? then s.statusUpdatedAt.value else 0
  }

  // ---- lookups ----

  predicate HasSocket(s: Session, path: string) {
    s.sock == Some(path)
  }

  /** A sender names its socket with or without the scheme. */
  function SocketPath(sock: string): string {
    if "uds:" <= sock then sock[4..] else sock
  }

  lemma SocketNamed(path: string)
    ensures SocketPath("uds:" + path) == path
    ensures !("uds:" <= path) ==> SocketPath(path) == path
  {
    assert ("uds:" + path)[4..] == path;
  }

  /** `r` is the earliest session that satisfies `p`, if one does. */
  ghost predicate Earliest(sessions: seq<Session>, p: Session -> bool, r: Option<Session>) {
    match r
    case None => forall s :: s in sessions ==> !p(s)
    case Some(s) => p(s) && exists i :: 0 <= i < |sessions| && sessions[i] == s && forall j :: 0 <= j < i ==> !p(sessions[j])
  }

  function First(sessions: seq<Session>, p: Session -> bool): (r: Option<Session>)
    ensures Earliest(sessions, p, r)
  {
    if sessions == [] then None
    else if p(sessions[0]) then Some(sessions[0])
    else
      var r := First(sessions[1..], p);
      assert sessions == [sessions[0]] + sessions[1..];
      r
  }

  function SessionBySocket(sessions: seq<Session>, sock: string): Option<Session> {
    First(sessions, (s: Session) => HasSocket(s, SocketPath(sock)))
  }

  function SessionById(sessions: seq<Session>, id: string): Option<Session> {
    First(sessions, (s: Session) => s.sessionId == Some(id) && ProtocolOk(s))
  }

  lemma {:induction false} FirstIsEarliest(sessions: seq<Session>, p: Session -> bool, r: Option<Session>)
    requires Earliest(sessions, p, r)
    ensures First(sessions, p) == r
  {
    var f := First(sessions, p);
    if f.Some? && r.Some? {
      var i :| 0 <= i < |sessions| && sessions[i] == r.value && forall j :: 0 <= j < i ==> !p(sessions[j]);
      var k :| 0 <= k < |sessions| && sessions[k] == f.value && forall j :: 0 <= j < k ==> !p(sessions[j]);
      assert !(i < k) && !(k < i);
    }
  }

  method FindBySocket(sessions: seq<Session>, sock: string) returns (r: Option<Session>)
    ensures r == SessionBySocket(sessions, sock)
  {
    var path := SocketPath(sock);
    ghost var p := (s: Session) => HasSocket(s, path);
    var i := 0;
    while i < |sessions|
      invariant 0 <= i <= |sessions|
      invariant forall j :: 0 <= j < i ==> !p(sessions[j])
    {
      if HasSocket(sessions[i], path) {
        FirstIsEarliest(sessions, p, Some(sessions[i]));
        return Some(sessions[i]);
      }
      i := i + 1;
    }
    FirstIsEarliest(sessions, p, None);
    return None;
  }

  method FindById(sessions: seq<Session>, id: string) returns (r: Option<Session>)
    ensures r == SessionById(sessions, id)
  {
    ghost var p := (s: Session) => s.sessionId == Some(id) && ProtocolOk(s);
    var i := 0;
    while i < |sessions|
      invariant 0 <= i <= |sessions|
      invariant forall j :: 0 <= j < i ==> !p(sessions[j])
    {
      if sessions[i].sessionId == Some(id) && ProtocolOk(sessions[i]) {
        FirstIsEarliest(sessions, p, Some(sessions[i]));
        return Some(sessions[i]);
      }
      i := i + 1;
    }
    FirstIsEarliest(sessions, p, None);
    return None;
  }

  // ---- ranking ----

  function Filter(s: seq<Session>, p: Session -> bool): seq<Session> {
    if s == [] then []
    else if p(s[0]) then [s[0]] + Filter(s[1..], p)
    else Filter(s[1..], p)
  }

  /** Before the first entry that is not strictly fresher. */
  function Insert(x: Session, l: seq<Session>): seq<Session> {
    if l == [] || Status(l[0]) <= Status(x) then [x] + l
    else [l[0]] + Insert(x, l[1..])
  }

  /** The stable sort by descending status time. */
  function SortByStatus(l: seq<Session>): seq<Session> {
    if l == [] then [] else Insert(l[0], SortByStatus(l[1..]))
  }

  predicate Fits(s: Session, project: string, projectOf: string -> Option<string>) {
    projectOf(s.cwd) == Some(project) && ProtocolOk(s)
  }

  function Eligible(sessions: seq<Session>, project: string, projectOf: string -> Option<string>): seq<Session> {
    Filter(Filter(sessions, (s: Session) => projectOf(s.cwd) == Some(project)), ProtocolOk)
  }

  function ByKind(matches: seq<Session>): seq<Session> {
    Filter(matches, IsBg) + Filter(matches, IsOther)
  }

  function RankTargets(sessions: seq<Session>, project: string, projectOf: string -> Option<string>): seq<Session> {
    ByKind(SortByStatus(Eligible(sessions, project, projectOf)))
  }

  /** `a` may stand before `b`: background first, then the fresher one. */
  predicate MayPrecede(a: Session, b: Session) {
    (IsBg(a) && !IsBg(b)) || (IsBg(a) == IsBg(b) && Status(a) >= Status(b))
  }

  /** The sessions that rank alike. */
  function Alike(bg: bool, status: int): Session -> bool {
    (s: Session) => IsBg(s) == bg && Status(s) == status
  }

  /** `r` lists the sessions of `from`, best first, with ties in their given order. */
  ghost predicate Ranking(r: seq<Session>, from: seq<Session>) {
    && (forall i, j :: 0 <= i < j < |r| ==> MayPrecede(r[i], r[j]))
    && (forall bg, v :: Filter(r, Alike(bg, v)) == Filter(from, Alike(bg, v)))
  }

  lemma {:induction false} FilterMembers(s: seq<Session>, p: Session -> bool)
    ensures forall x :: x in Filter(s, p) <==> x in s && p(x)
    ensures multiset(Filter(s, p)) <= multiset(s)
  {
    if s != [] {
      FilterMembers(s[1..], p);
      assert s == [s[0]] + s[1..];
    }
  }

  lemma {:induction false} FilterCounts(s: seq<Session>, p: Session -> bool, x: Session)
    ensures multiset(Filter(s, p))[x] == if p(x) then multiset(s)[x] else 0
  {
    if s != [] {
      FilterCounts(s[1..], p, x);
      assert s == [s[0]] + s[1..];
    }
  }

  /** Searching a filtered list is searching the list for both. */
  lemma {:induction false} FirstOfFiltered(s: seq<Session>, p: Session -> bool, q: Session -> bool, both: Session -> bool)
    requires forall x :: both(x) == (p(x) && q(x))
    ensures First(Filter(s, p), q) == First(s, both)
  {
    if s != [] {
      FirstOfFiltered(s[1..], p, q, both);
      if p(s[0]) {
        assert Filter(s, p)[1..] == Filter(s[1..], p);
      }
    }
  }

  lemma {:induction false} FilterAppend(a: seq<Session>, b: seq<Session>, p: Session -> bool)
    ensures Filter(a + b, p) == Filter(a, p) + Filter(b, p)
  {
    if a == [] {
      assert a + b == b;
    } else {
      FilterAppend(a[1..], b, p);
      assert (a + b)[1..] == a[1..] + b;
    }
  }

  lemma {:induction false} FilterTwice(s: seq<Session>, p: Session -> bool, q: Session -> bool)
    ensures (forall x :: q(x) ==> p(x)) ==> Filter(Filter(s, p), q) == Filter(s, q)
    ensures (forall x :: q(x) ==> !p(x)) ==> Filter(Filter(s, p), q) == []
  {
    if s != [] {
      FilterTwice(s[1..], p, q);
    }
  }

  lemma {:induction false} InsertSorted(x: Session, l: seq<Session>)
    requires forall i, j :: 0 <= i < j < |l| ==> Status(l[i]) >= Status(l[j])
    ensures var r := Insert(x, l);
            && (forall i, j :: 0 <= i < j < |r| ==> Status(r[i]) >= Status(r[j]))
            && multiset(r) == multiset(l) + multiset{x}
  {
    hide Status;
    if l != [] && Status(l[0]) > Status(x) {
      var rest := Insert(x, l[1..]);
      InsertSorted(x, l[1..]);
      assert l == [l[0]] + l[1..];
      forall j | 0 <= j < |rest|
        ensures Status(l[0]) >= Status(rest[j])
      {
        assert rest[j] in multiset(rest);
        assert rest[j] == x || rest[j] in l[1..];
      }
    }
  }

  lemma {:induction false} InsertStable(x: Session, l: seq<Session>, bg: bool, v: int)
    requires forall i, j :: 0 <= i < j < |l| ==> Status(l[i]) >= Status(l[j])
    ensures Filter(Insert(x, l), Alike(bg, v)) == Filter([x] + l, Alike(bg, v))
  {
    if l != [] && Status(l[0]) > Status(x) {
      InsertStable(x, l[1..], bg, v);
      FilterAppend([x], l, Alike(bg, v));
      FilterAppend([x], l[1..], Alike(bg, v));
      FilterAppend([l[0]], Insert(x, l[1..]), Alike(bg, v));
    }
  }

  lemma {:induction false} SortSorts(l: seq<Session>)
    ensures var r := SortByStatus(l);
            && (forall i, j :: 0 <= i < j < |r| ==> Status(r[i]) >= Status(r[j]))
            && multiset(r) == multiset(l)
  {
    if l != [] {
      SortSorts(l[1..]);
      InsertSorted(l[0], SortByStatus(l[1..]));
      assert l == [l[0]] + l[1..];
    }
  }

  lemma {:induction false} SortIsStable(l: seq<Session>, bg: bool, v: int)
    ensures Filter(SortByStatus(l), Alike(bg, v)) == Filter(l, Alike(bg, v))
  {
    if l != [] {
      var rest := SortByStatus(l[1..]);
      SortSorts(l[1..]);
      SortIsStable(l[1..], bg, v);
      InsertStable(l[0], rest, bg, v);
      FilterAppend([l[0]], rest, Alike(bg, v));
      FilterAppend([l[0]], l[1..], Alike(bg, v));
      assert l == [l[0]] + l[1..];
    }
  }

  lemma {:induction false} FilterSorted(l: seq<Session>, p: Session -> bool)
    requires forall i, j :: 0 <= i < j < |l| ==> Status(l[i]) >= Status(l[j])
    ensures var r := Filter(l, p);
            forall i, j :: 0 <= i < j < |r| ==> Status(r[i]) >= Status(r[j])
  {
    if l != [] {
      var rest := Filter(l[1..], p);
      FilterSorted(l[1..], p);
      FilterMembers(l[1..], p);
      forall x | x in rest
        ensures Status(l[0]) >= Status(x)
      {
        var k :| 0 <= k < |l[1..]| && l[1..][k] == x;
        assert l[k + 1] == x;
      }
      if p(l[0]) {
        var r := [l[0]] + rest;
        forall i, j | 0 <= i < j < |r|
          ensures Status(r[i]) >= Status(r[j])
        {
          assert r[j] == rest[j - 1] && rest[j - 1] in rest;
          assert i > 0 ==> r[i] == rest[i - 1];
        }
      }
    }
  }

  lemma {:induction false} FilterSplits(l: seq<Session>)
    ensures multiset(ByKind(l)) == multiset(l)
  {
    if l != [] {
      FilterSplits(l[1..]);
      assert l == [l[0]] + l[1..];
    }
  }

  /** Splitting a sorted list by kind puts it in rank order. */
  lemma SplitIsOrdered(m: seq<Session>)
    requires forall i, j :: 0 <= i < j < |m| ==> Status(m[i]) >= Status(m[j])
    ensures var r := ByKind(m);
            forall i, j :: 0 <= i < j < |r| ==> MayPrecede(r[i], r[j])
  {
    var front, back := Filter(m, IsBg), Filter(m, IsOther);
    FilterMembers(m, IsBg);
    FilterMembers(m, IsOther);
    FilterSorted(m, IsBg);
    FilterSorted(m, IsOther);
    forall i, j | 0 <= i < j < |front + back|
      ensures MayPrecede((front + back)[i], (front + back)[j])
    {
      if i < |front| {
        assert front[i] in front;
      } else {
        assert back[i - |front|] in back;
      }
      if j < |front| {
        assert front[j] in front;
      } else {
        assert back[j - |front|] in back;
      }
    }
  }

  lemma SplitIsStable(m: seq<Session>, bg: bool, v: int)
    ensures Filter(ByKind(m), Alike(bg, v)) == Filter(m, Alike(bg, v))
  {
    FilterAppend(Filter(m, IsBg), Filter(m, IsOther), Alike(bg, v));
    FilterTwice(m, IsBg, Alike(bg, v));
    FilterTwice(m, IsOther, Alike(bg, v));
  }

  /** Ranking: background before the rest, each group by nonincreasing status time,
      ties in registry order. */
  lemma RankTargetsRanks(sessions: seq<Session>, project: string, projectOf: string -> Option<string>)
    ensures Ranking(RankTargets(sessions, project, projectOf), Eligible(sessions, project, projectOf))
  {
    var from := Eligible(sessions, project, projectOf);
    SortSorts(from);
    SplitIsOrdered(SortByStatus(from));
    forall bg, v
      ensures Filter(RankTargets(sessions, project, projectOf), Alike(bg, v)) == Filter(from, Alike(bg, v))
    {
      SortIsStable(from, bg, v);
      SplitIsStable(SortByStatus(from), bg, v);
    }
  }

  /** A permutation of exactly the eligible sessions. */
  lemma RankTargetsPermutes(sessions: seq<Session>, project: string, projectOf: string -> Option<string>)
    ensures var r := RankTargets(sessions, project, projectOf);
            && multiset(r) == multiset(Eligible(sessions, project, projectOf))
            && (forall s :: s in r <==> s in sessions && Fits(s, project, projectOf))
  {
    var from, r := Eligible(sessions, project, projectOf), RankTargets(sessions, project, projectOf);
    SortSorts(from);
    FilterSplits(SortByStatus(from));
    var p := (s: Session) => projectOf(s.cwd) == Some(project);
    FilterMembers(sessions, p);
    FilterMembers(Filter(sessions, p), ProtocolOk);
    forall s
      ensures s in r <==> s in sessions && Fits(s, project, projectOf)
    {
      assert s in r <==> s in multiset(r);
      assert s in from <==> s in multiset(from);
    }
  }

  /** The conditions leave no choice: there is one ranking. */
  lemma {:induction false} RankingUnique(r1: seq<Session>, r2: seq<Session>, from: seq<Session>)
    requires Ranking(r1, from) && Ranking(r2, from)
    ensures r1 == r2
  {
    SameClassesSameList(r1, r2);
  }

  lemma {:induction false} SameClassesSameList(r1: seq<Session>, r2: seq<Session>)
    requires forall i, j :: 0 <= i < j < |r1| ==> MayPrecede(r1[i], r1[j])
    requires forall i, j :: 0 <= i < j < |r2| ==> MayPrecede(r2[i], r2[j])
    requires forall bg, v :: Filter(r1, Alike(bg, v)) == Filter(r2, Alike(bg, v))
    ensures r1 == r2
    decreases |r1| + |r2|
  {
    if r1 != [] {
      HeadComesFirst(r1, r2);
    }
    if r2 != [] {
      HeadComesFirst(r2, r1);
    }
    if r1 != [] {
      var c := Alike(IsBg(r1[0]), Status(r1[0]));
      assert Filter(r1, c)[0] == r1[0] && Filter(r2, c)[0] == r2[0];
      forall bg, v
        ensures Filter(r1[1..], Alike(bg, v)) == Filter(r2[1..], Alike(bg, v))
      {
        var p := Alike(bg, v);
        assert Filter(r1, p) == Filter(r2, p);
        if p(r1[0]) {
          assert Filter(r1[1..], p) == Filter(r1, p)[1..];
          assert Filter(r2[1..], p) == Filter(r2, p)[1..];
        }
      }
      SameClassesSameList(r1[1..], r2[1..]);
    }
  }

  lemma HeadComesFirst(a: seq<Session>, b: seq<Session>)
    requires a != []
    requires forall i, j :: 0 <= i < j < |b| ==> MayPrecede(b[i], b[j])
    requires forall bg, v :: Filter(a, Alike(bg, v)) == Filter(b, Alike(bg, v))
    ensures b != [] && MayPrecede(b[0], a[0])
  {
    var c := Alike(IsBg(a[0]), Status(a[0]));
    FilterMembers(a, c);
    FilterMembers(b, c);
    assert a[0] in Filter(b, c);
    var k :| 0 <= k < |b| && b[k] == a[0];
  }
}
