/** What the mailbox promises over whole runs. */
module MailboxLaws {
  import opened Prelude
  import opened Envelopes
  import opened MailboxModel

  // ---- ordered listings ----

  lemma ListingDistinct(l: seq<Envelope>, rows: set<Envelope>)
    requires Listing(l, rows)
    ensures Distinct(l) && |l| == |rows|
  {
    forall i, j | 0 <= i < j < |l|
      ensures l[i] != l[j]
    {
      OlderIrreflexive(l[i], l[j]);
    }
    DistinctCardinality(l);
  }

  lemma ListingTail(l: seq<Envelope>, rows: set<Envelope>)
    requires Listing(l, rows) && l != []
    ensures Listing(l[1..], rows - {l[0]})
  {
    ListingDistinct(l, rows);
    assert l == [l[0]] + l[1..];
  }

  /** An ordered query has one answer. */
  lemma {:induction false} ListingUnique(l1: seq<Envelope>, l2: seq<Envelope>, rows: set<Envelope>)
    requires Listing(l1, rows) && Listing(l2, rows)
    ensures l1 == l2
  {
    ListingDistinct(l1, rows);
    ListingDistinct(l2, rows);
    if l1 != [] {
      assert l1[0] in rows && l2[0] in rows;
      OlderIrreflexive(l1[0], l2[0]);
      assert l1[0] == l2[0];
      ListingTail(l1, rows);
      ListingTail(l2, rows);
      ListingUnique(l1[1..], l2[1..], rows - {l1[0]});
      assert l1 == [l1[0]] + l1[1..] && l2 == [l2[0]] + l2[1..];
    }
  }

  /** In the listing of one project's rows, the rows above entry `i` are those
      listed after it. */
  lemma ListingRank(l: seq<Envelope>, rows: set<Envelope>, project: string, i: nat)
    requires Listing(l, set e | e in rows && e.project == project) && i < |l|
    ensures |Above(rows, l[i])| == |l| - 1 - i
  {
    var mine := set e | e in rows && e.project == project;
    assert l[i] in mine;
    forall x
      ensures x in Above(rows, l[i]) <==> x in l[i + 1..]
    {
      if x in Above(rows, l[i]) {
        assert x in mine;
        var k :| 0 <= k < |l| && l[k] == x;
        OlderIrreflexive(l[i], x);
        assert k > i;
        assert x == l[i + 1..][k - i - 1];
      }
      if x in l[i + 1..] {
        assert x in mine;
      }
    }
    assert Above(rows, l[i]) == Members(l[i + 1..]);
    ListingDistinct(l, mine);
    DistinctCardinality(l[i + 1..]);
  }

  // ---- the cap ----

  lemma {:induction false} OldestExists(rows: set<Envelope>) returns (m: Envelope)
    requires OneEnvelopePerId(rows) && rows != {}
    ensures m in rows && forall x :: x in rows && x != m ==> Older(m, x)
  {
    m :| m in rows;
    if rows != {m} {
      var rest := rows - {m};
      assert rows == rest + {m};
      var n := OldestExists(rest);
      OlderTotal(rows);
      if Older(n, m) {
        m := n;
      } else {
        assert Older(m, n);
        forall x | x in rest && x != n
          ensures Older(m, x)
        {
          OlderTransitive(m, n, x);
        }
      }
    }
  }

  lemma AboveGrows(small: set<Envelope>, large: set<Envelope>, e: Envelope)
    requires small <= large
    ensures Above(small, e) <= Above(large, e)
    ensures |Above(small, e)| <= |Above(large, e)|
  {
    Cardinality(Above(small, e), Above(large, e));
  }

  lemma {:induction false} Cardinality<T>(a: set<T>, b: set<T>)
    requires a <= b
    ensures |a| <= |b|
    ensures |a| == |b| ==> a == b
  {
    if a != {} {
      var x :| x in a;
      Cardinality(a - {x}, b - {x});
    }
  }

  /** A row that misses the cut has at least `max` kept rows above it. */
  lemma {:induction false} CutIsFull(rows: set<Envelope>, max: nat, y: Envelope)
    requires OneEnvelopePerId(rows) && y in rows && |Above(rows, y)| >= max
    ensures |Above(Newest(rows, max), y)| >= max
    decreases |Above(rows, y)|
  {
    var above := Above(rows, y);
    forall b | b in above
      ensures Above(rows, b) <= above - {b}
    {
      forall x | x in Above(rows, b)
        ensures x in above - {b}
      {
        OlderTransitive(y, b, x);
        OlderIrreflexive(b, x);
      }
    }
    if |above| == max {
      forall b | b in above
        ensures b in Above(Newest(rows, max), y)
      {
        Cardinality(Above(rows, b), above - {b});
      }
      assert Above(Newest(rows, max), y) == above;
    } else {
      var m := OldestExists(above);
      assert Above(rows, m) == above - {m};
      CutIsFull(rows, max, m);
      var keptAboveM := Above(Newest(rows, max), m);
      forall x | x in keptAboveM
        ensures x in Above(Newest(rows, max), y)
      {
        OlderTransitive(y, m, x);
      }
      Cardinality(keptAboveM, Above(Newest(rows, max), y));
    }
  }

  /** Cutting, adding one row and cutting again is cutting once at the end. */
  lemma CutOnce(rows: set<Envelope>, e: Envelope, max: nat)
    requires OneEnvelopePerId(rows + {e})
    ensures Newest(Newest(rows, max) + {e}, max) == Newest(rows + {e}, max)
  {
    var all, kept := rows + {e}, Newest(rows, max) + {e};
    forall x | x in all
      ensures x in Newest(all, max) <==> x in Newest(kept, max)
    {
      AboveGrows(kept, all, x);
      AboveGrows(rows, all, x);
      if x in kept && !(Above(all, x) <= Above(kept, x)) {
        var y :| y in Above(all, x) && y !in kept;
        CutIsFull(rows, max, y);
        var full := Above(Newest(rows, max), y);
        forall z | z in full
          ensures z in Above(kept, x)
        {
          OlderTransitive(x, y, z);
        }
        Cardinality(full, Above(kept, x));
        Cardinality(Above(kept, x), Above(all, x));
      } else if x in kept {
        assert Above(all, x) == Above(kept, x);
      }
    }
  }

  /** No project holds more than its cap. */
  ghost predicate WithinCap(s: Store, max: nat) {
    forall e :: e in Rows(s) ==> |Above(Rows(s), e)| < max
  }

  lemma KeyedRows(s: Store)
    requires Keyed(s)
    ensures OneEnvelopePerId(Rows(s))
    ensures forall e :: e in Rows(s) ==> e.msgId in s.messages && s.messages[e.msgId] == e
  {
  }

  lemma StoredIds(s: Store)
    requires Keyed(s)
    ensures forall id :: id in s.messages <==> exists e :: e in Rows(s) && e.msgId == id
  {
    forall id | id in s.messages
      ensures exists e :: e in Rows(s) && e.msgId == id
    {
      assert s.messages[id] in Rows(s);
    }
  }

  /** The count behind the rank form of the cap. */
  lemma WithinCapCounts(s: Store, max: nat, project: string)
    requires Keyed(s) && WithinCap(s, max)
    ensures |ProjectRows(s, project)| <= max
  {
    var mine := ProjectRows(s, project);
    if mine != {} {
      KeyedRows(s);
      var m := OldestExists(mine);
      Cardinality(mine - {m}, Above(Rows(s), m));
    }
  }

  lemma DeleteKeepsCap(s: Store, ids: set<string>, max: nat)
    requires WithinCap(s, max)
    ensures WithinCap(Delete(s, ids), max)
  {
    forall e | e in Rows(Delete(s, ids))
      ensures |Above(Rows(Delete(s, ids)), e)| < max
    {
      AboveGrows(Rows(Delete(s, ids)), Rows(s), e);
    }
  }

  /** First writer wins: a put whose id is stored changes nothing at all. */
  lemma PutStoredIsNoOp(s: Store, e: Envelope, max: nat)
    requires WithinCap(s, max) && e.msgId in s.messages
    ensures Put(s, e, max) == s
  {
    if Valid(e) {
      forall id | id in s.messages
        ensures id !in OverCap(s, e.project, max)
      {
        assert s.messages[id] in Rows(s);
      }
      assert OverCap(s, e.project, max) == {};
      assert s.messages - {} == s.messages;
      assert (set a | a in s.acks && a.0 !in OverCap(s, e.project, max)) == s.acks;
    }
  }

  lemma InsertAddsRow(s: Store, e: Envelope)
    requires Keyed(s) && e.msgId !in s.messages
    ensures Rows(Insert(s, e)) == Rows(s) + {e}
  {
    var s1 := Insert(s, e);
    assert s1.messages[e.msgId] == e;
    forall x | x in Rows(s)
      ensures x in Rows(s1)
    {
      var id :| id in s.messages && s.messages[id] == x;
      assert s1.messages[id] == x;
    }
  }

  lemma RowsAfterDelete(s: Store, ids: set<string>, x: Envelope)
    requires Keyed(s)
    ensures Keyed(Delete(s, ids))
    ensures x in Rows(Delete(s, ids)) <==> x in Rows(s) && x.msgId !in ids
  {
    if x in Rows(s) && x.msgId !in ids {
      assert Delete(s, ids).messages[x.msgId] == x;
    }
  }

  /** Offset `max` into one project's rows, newest first, is where the victims start. */
  lemma VictimsAreOldest(s: Store, project: string, l: seq<Envelope>, max: nat, id: string)
    requires Keyed(s) && Listing(l, ProjectRows(s, project))
    ensures id in OverCap(s, project, max) <==> exists k :: 0 <= k < |l| - max && l[k].msgId == id
  {
    ListingDistinct(l, ProjectRows(s, project));
    if id in OverCap(s, project, max) {
      assert s.messages[id] in Members(l);
      var k :| 0 <= k < |l| && l[k] == s.messages[id];
      ListingRank(l, Rows(s), project, k);
    }
    if k :| 0 <= k < |l| - max && l[k].msgId == id {
      assert l[k] in Members(l);
      ListingRank(l, Rows(s), project, k);
    }
  }

  /** A put keeps exactly the newest rows of what was there plus the newcomer. */
  lemma PutKeepsNewest(s: Store, e: Envelope, max: nat)
    requires Keyed(s) && WithinCap(s, max) && Valid(e) && e.msgId !in s.messages
    ensures Keyed(Put(s, e, max))
    ensures Rows(Put(s, e, max)) == Newest(Rows(s) + {e}, max)
  {
    InsertAddsRow(s, e);
    var s1 := Insert(s, e);
    var victims := PutVictims(s, e, max);
    forall x
      ensures x in Rows(Put(s, e, max)) <==> x in Newest(Rows(s1), max)
    {
      RowsAfterDelete(s1, victims, x);
      if x in Rows(s1) {
        if x.project == e.project {
          assert x.msgId in victims <==> |Above(Rows(s1), x)| >= max;
        } else {
          assert Above(Rows(s1), x) == Above(Rows(s), x);
        }
      }
    }
    RowsAfterDelete(s1, victims, e);
  }

  lemma PutKeepsCap(s: Store, e: Envelope, max: nat)
    requires Keyed(s) && WithinCap(s, max)
    ensures Keyed(Put(s, e, max)) && WithinCap(Put(s, e, max), max)
  {
    if Valid(e) {
      if e.msgId in s.messages {
        PutStoredIsNoOp(s, e, max);
      } else {
        PutKeepsNewest(s, e, max);
        var all := Rows(s) + {e};
        forall x | x in Newest(all, max)
          ensures |Above(Newest(all, max), x)| < max
        {
          AboveGrows(Newest(all, max), all, x);
        }
      }
    }
  }

  /** From an empty mailbox every run keeps every project within its cap. */
  lemma {:induction false} CapHolds(ops: seq<Operation>, max: nat)
    ensures Keyed(Run(EMPTY, ops, max)) && WithinCap(Run(EMPTY, ops, max), max)
    ensures forall project :: |ProjectRows(Run(EMPTY, ops, max), project)| <= max
  {
    if ops != [] {
      var n := |ops| - 1;
      CapHolds(ops[..n], max);
      var s := Run(EMPTY, ops[..n], max);
      match ops[n] {
        case PutOp(e) => PutKeepsCap(s, e, max);
        case SweepOp(now) => DeleteKeepsCap(s, Expired(s, now), max);
        case AckOp(id, host) => assert Rows(Ack(s, id, host)) == Rows(s);
      }
    }
    forall project
      ensures |ProjectRows(Run(EMPTY, ops, max), project)| <= max
    {
      WithinCapCounts(Run(EMPTY, ops, max), max, project);
    }
  }

  function Puts(envs: seq<Envelope>): seq<Operation> {
    seq(|envs|, i requires 0 <= i < |envs| => PutOp(envs[i]))
  }

  ghost function PutAll(envs: seq<Envelope>, max: nat): Store {
    Run(EMPTY, Puts(envs), max)
  }

  ghost function Accepted(envs: seq<Envelope>): set<Envelope> {
    set e | e in envs && Valid(e)
  }

  lemma PutsLast(envs: seq<Envelope>, n: nat)
    requires n + 1 == |envs|
    ensures Puts(envs)[..n] == Puts(envs[..n]) && Puts(envs)[n] == PutOp(envs[n])
    ensures Accepted(envs) == Accepted(envs[..n]) + if Valid(envs[n]) then {envs[n]} else {}
  {
    assert envs == envs[..n] + [envs[n]];
  }

  lemma CapKeepsAll(s: Store, max: nat)
    requires WithinCap(s, max)
    ensures Newest(Rows(s), max) == Rows(s)
  {
  }

  /** Puts on top of what is stored, in any order and with any repetition, leave the
      newest `max` rows per project of all of it. */
  lemma {:induction false} StreamingCapFrom(s: Store, envs: seq<Envelope>, max: nat)
    requires Keyed(s) && WithinCap(s, max) && OneEnvelopePerId(Rows(s) + Accepted(envs))
    ensures Keyed(Run(s, Puts(envs), max)) && WithinCap(Run(s, Puts(envs), max), max)
    ensures Rows(Run(s, Puts(envs), max)) == Newest(Rows(s) + Accepted(envs), max)
  {
    hide Newest;
    hide Put;
    hide Rows;
    hide Keyed;
    hide WithinCap;
    if envs == [] {
      assert Rows(s) + Accepted(envs) == Rows(s);
      CapKeepsAll(s, max);
    } else {
      var n := |envs| - 1;
      var before, e := envs[..n], envs[n];
      PutsLast(envs, n);
      assert Rows(s) + Accepted(envs) == Rows(s) + Accepted(before) + if Valid(e) then {e} else {};
      StreamingCapFrom(s, before, max);
      OnePutMore(Run(s, Puts(before), max), Rows(s) + Accepted(before), e, max);
    }
  }

  /** Holding the newest of `ever`, a put leaves the newest of `ever` and the envelope. */
  lemma OnePutMore(s: Store, ever: set<Envelope>, e: Envelope, max: nat)
    requires Keyed(s) && WithinCap(s, max) && Rows(s) == Newest(ever, max)
    requires Valid(e) ==> OneEnvelopePerId(ever + {e})
    ensures Keyed(Put(s, e, max)) && WithinCap(Put(s, e, max), max)
    ensures Rows(Put(s, e, max)) == Newest(ever + if Valid(e) then {e} else {}, max)
  {
    PutKeepsCap(s, e, max);
    if !Valid(e) {
      assert ever + {} == ever;
    } else {
      CutOnce(ever, e, max);
      if e.msgId in s.messages {
        assert s.messages[e.msgId] in Rows(s);
        assert s.messages[e.msgId] == e && ever + {e} == ever;
        PutStoredIsNoOp(s, e, max);
      } else {
        PutKeepsNewest(s, e, max);
      }
    }
  }

  /** The streaming cap is the offline one: after any puts, in any order and with
      any repetition, the rows held are the newest `max` per project of everything
      ever put. */
  lemma StreamingCap(envs: seq<Envelope>, max: nat)
    requires OneEnvelopePerId(Accepted(envs))
    ensures Keyed(PutAll(envs, max)) && WithinCap(PutAll(envs, max), max)
    ensures Rows(PutAll(envs, max)) == Newest(Accepted(envs), max)
  {
    assert Rows(EMPTY) == {} && {} + Accepted(envs) == Accepted(envs);
    StreamingCapFrom(EMPTY, envs, max);
  }

  /** So arrival order and repetition are not observable in what is stored. */
  lemma ArrivalOrderIsIrrelevant(envs1: seq<Envelope>, envs2: seq<Envelope>, max: nat)
    requires Members(envs1) == Members(envs2) && OneEnvelopePerId(Accepted(envs1))
    ensures PutAll(envs1, max).messages == PutAll(envs2, max).messages
  {
    forall e
      ensures e in envs1 <==> e in envs2
    {
      assert e in Members(envs1) <==> e in Members(envs2);
    }
    assert Accepted(envs1) == Accepted(envs2);
    StreamingCap(envs1, max);
    StreamingCap(envs2, max);
    SameRowsSameTable(PutAll(envs1, max), PutAll(envs2, max));
  }

  lemma SameRowsSameTable(s1: Store, s2: Store)
    requires Keyed(s1) && Keyed(s2) && Rows(s1) == Rows(s2)
    ensures s1.messages == s2.messages
  {
    forall id
      ensures id in s1.messages <==> id in s2.messages
      ensures id in s1.messages && id in s2.messages ==> s1.messages[id] == s2.messages[id]
    {
      if id in s1.messages {
        assert s1.messages[id] in Rows(s2);
      }
      if id in s2.messages {
        assert s2.messages[id] in Rows(s1);
      }
    }
  }

  // ---- sweeping ----

  /** Sweeping is invisible to every later query, down to the order of its answer,
      and removes exactly the rows that had expired. */
  lemma SweepIsUnobservable(s: Store, t1: int, t2: int, host: string, projects: set<string>,
                            before: seq<Envelope>, after: seq<Envelope>)
    requires Keyed(s) && t1 <= t2
    requires Listing(before, Pending(s, host, projects, t2))
    requires Listing(after, Pending(Sweep(s, t1), host, projects, t2))
    ensures before == after
    ensures |s.messages| == |Sweep(s, t1).messages| + |Expired(s, t1)|
  {
    var swept := Sweep(s, t1);
    forall e
      ensures e in Pending(s, host, projects, t2) <==> e in Pending(swept, host, projects, t2)
    {
      if e in Pending(s, host, projects, t2) {
        assert swept.messages[e.msgId] == e;
      }
      if e in Pending(swept, host, projects, t2) {
        assert s.messages[e.msgId] == e;
      }
    }
    assert Pending(s, host, projects, t2) == Pending(swept, host, projects, t2);
    ListingUnique(before, after, Pending(s, host, projects, t2));
    assert swept.messages.Keys == s.messages.Keys - Expired(s, t1);
    assert Expired(s, t1) <= s.messages.Keys;
  }

  // ---- runs ----

  lemma {:induction false} RunConcat(s: Store, a: seq<Operation>, b: seq<Operation>, max: nat)
    ensures Run(s, a + b, max) == Run(Run(s, a, max), b, max)
  {
    if b == [] {
      assert a + b == a;
    } else {
      var n := |b| - 1;
      RunConcat(s, a, b[..n], max);
      assert (a + b)[..|a + b| - 1] == a + b[..n];
    }
  }

  lemma {:induction false} RunKeyed(s: Store, ops: seq<Operation>, max: nat)
    requires Keyed(s)
    ensures Keyed(Run(s, ops, max))
  {
    if ops != [] {
      RunKeyed(s, ops[..|ops| - 1], max);
    }
  }

  /** A row put between the older and the newer ones of a listing. */
  lemma ListingInsert(l: seq<Envelope>, listed: set<Envelope>, e: Envelope, at: nat)
    requires Listing(l, listed) && e !in listed && at <= |l|
    requires forall k :: 0 <= k < at ==> Older(l[k], e)
    requires forall k :: at <= k < |l| ==> Older(e, l[k])
    ensures Listing(l[..at] + [e] + l[at..], listed + {e})
  {
    var l' := l[..at] + [e] + l[at..];
    assert l == l[..at] + l[at..];
    assert Members(l') == Members(l) + {e};
    hide Older;
    assert forall k :: 0 <= k < |l'| ==> l'[k] == if k < at then l[k] else if k == at then e else l[k - 1];
  }
}
