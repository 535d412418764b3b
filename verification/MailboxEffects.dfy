/** What the mailbox keeps, drops and hands out, said of the columns of its rows alone. */
module MailboxEffects {
  import opened Prelude
  import opened Envelopes
  import opened MailboxModel
  import opened MailboxLaws

  // ---- the order ----

  /** `x` is a proper prefix of `y`, or smaller where they first differ. */
  ghost predicate TextBelow(x: string, y: string) {
    x < y || exists i :: 0 <= i < |x| && i < |y| && x[i] < y[i] && x[..i] == y[..i]
  }

  lemma {:induction false} TextLessIsBelow(x: string, y: string)
    ensures TextLess(x, y) <==> TextBelow(x, y)
  {
    if x != "" && y != "" && x[0] == y[0] {
      TextLessIsBelow(x[1..], y[1..]);
      TailBelow(x, y);
    } else if x != "" && y != "" && x[0] < y[0] {
      assert x[..0] == y[..0];
    }
  }

  lemma TailBelow(x: string, y: string)
    requires x != "" && y != "" && x[0] == y[0]
    ensures TextBelow(x[1..], y[1..]) <==> TextBelow(x, y)
  {
    assert x == [x[0]] + x[1..] && y == [y[0]] + y[1..];
    if i :| 0 <= i < |x[1..]| && i < |y[1..]| && x[1..][i] < y[1..][i] && x[1..][..i] == y[1..][..i] {
      assert x[..i + 1] == [x[0]] + x[1..][..i] && y[..i + 1] == [y[0]] + y[1..][..i];
      assert x[i + 1] < y[i + 1];
    }
    if i :| 0 <= i < |x| && i < |y| && x[i] < y[i] && x[..i] == y[..i] {
      assert x[1..][..i - 1] == x[..i][1..] && y[1..][..i - 1] == y[..i][1..];
      assert x[1..][i - 1] < y[1..][i - 1];
    }
    if x < y {
      assert x[1..] < y[1..];
    }
  }

  /** Created earlier, or at the same time with the smaller id. */
  ghost predicate Earlier(a: Envelope, b: Envelope) {
    a.createdAt < b.createdAt || (a.createdAt == b.createdAt && TextBelow(a.msgId, b.msgId))
  }

  lemma OlderIsEarlier(a: Envelope, b: Envelope)
    ensures Older(a, b) <==> Earlier(a, b)
  {
    TextLessIsBelow(a.msgId, b.msgId);
  }

  // ---- what a query hands out ----

  predicate Owed(s: Store, host: string, projects: set<string>, now: int, e: Envelope) {
    && e.msgId in s.messages && s.messages[e.msgId] == e
    && e.createdAt + e.ttlS * 1000 > now
    && (e.msgId, host) !in s.acks
    && match e.target
       case ToHost(h, _) => h == host
       case ToProject(_) => e.originHost != host && e.project in projects
  }

  /** `out` lists exactly what is owed, by creation time and then id. */
  ghost predicate Drains(s: Store, host: string, projects: set<string>, now: int, out: seq<Envelope>) {
    && (forall e :: e in out <==> Owed(s, host, projects, now, e))
    && (forall i, j :: 0 <= i < j < |out| ==> Earlier(out[i], out[j]))
  }

  lemma PendingIsOwed(s: Store, host: string, projects: set<string>, now: int, e: Envelope)
    requires Keyed(s)
    ensures e in Pending(s, host, projects, now) <==> Owed(s, host, projects, now, e)
  {
    KeyedRows(s);
    assert e.msgId in s.messages && s.messages[e.msgId] == e ==> e in Rows(s);
  }

  lemma ListingDrains(s: Store, host: string, projects: set<string>, now: int, out: seq<Envelope>)
    requires Keyed(s)
    ensures Listing(out, Pending(s, host, projects, now)) <==> Drains(s, host, projects, now, out)
  {
    hide Owed;
    hide Pending;
    hide Earlier;
    hide Older;
    forall e
      ensures e in Pending(s, host, projects, now) <==> Owed(s, host, projects, now, e)
    {
      PendingIsOwed(s, host, projects, now, e);
    }
    forall a, b
      ensures Older(a, b) <==> Earlier(a, b)
    {
      OlderIsEarlier(a, b);
    }
    assert forall e :: e in out <==> e in Members(out);
  }

  // ---- what a put keeps ----

  /** Every project within its cap, by count. */
  ghost predicate Capped(s: Store, max: nat) {
    forall project :: |ProjectRows(s, project)| <= max
  }

  lemma CappedIsWithinCap(s: Store, max: nat)
    requires Keyed(s)
    ensures Capped(s, max) <==> WithinCap(s, max)
  {
    if Capped(s, max) {
      forall e | e in Rows(s)
        ensures |Above(Rows(s), e)| < max
      {
        OlderIrreflexive(e, e);
        assert Above(Rows(s), e) <= ProjectRows(s, e.project) - {e};
        Cardinality(Above(Rows(s), e), ProjectRows(s, e.project) - {e});
      }
    }
    if WithinCap(s, max) {
      forall project
        ensures |ProjectRows(s, project)| <= max
      {
        WithinCapCounts(s, max, project);
      }
    }
  }

  /** From `s` to `t` by a put of `e`: nothing but `e` comes in, and what goes is of its
      project, earlier than every row of it that is kept, and only because exactly `max`
      rows are kept. */
  ghost predicate PutKeepsLatest(s: Store, t: Store, e: Envelope, max: nat) {
    && Capped(t, max)
    && (forall x :: x in Rows(t) ==> x in Rows(s) || x == e)
    && (forall y, x :: (y in Rows(s) || y == e) && y !in Rows(t) && x in Rows(t) && x.project == y.project ==> Earlier(y, x))
    && (forall y :: (y in Rows(s) || y == e) && y !in Rows(t)
          ==> y.project == e.project && |ProjectRows(t, e.project)| == max)
  }

  lemma PutIsLatest(s: Store, e: Envelope, max: nat)
    requires Keyed(s) && Capped(s, max) && Valid(e) && e.msgId !in s.messages
    ensures PutKeepsLatest(s, Put(s, e, max), e, max)
  {
    CappedIsWithinCap(s, max);
    PutKeepsCap(s, e, max);
    PutKeepsNewest(s, e, max);
    var t, all := Put(s, e, max), Rows(s) + {e};
    CappedIsWithinCap(t, max);
    InsertAddsRow(s, e);
    KeyedRows(Insert(s, e));
    forall y | y in all && y !in Rows(t)
      ensures y.project == e.project && |ProjectRows(t, e.project)| == max
      ensures forall x :: x in Rows(t) && x.project == y.project ==> Earlier(y, x)
    {
      GoneIsOldest(s, e, max, y);
    }
  }

  lemma GoneIsOldest(s: Store, e: Envelope, max: nat, y: Envelope)
    requires Keyed(s) && WithinCap(s, max) && Valid(e) && e.msgId !in s.messages
    requires OneEnvelopePerId(Rows(s) + {e}) && y in Rows(s) + {e} && y !in Rows(Put(s, e, max))
    requires Keyed(Put(s, e, max)) && WithinCap(Put(s, e, max), max)
    requires Rows(Put(s, e, max)) == Newest(Rows(s) + {e}, max)
    ensures y.project == e.project && |ProjectRows(Put(s, e, max), e.project)| == max
    ensures forall x :: x in Rows(Put(s, e, max)) && x.project == y.project ==> Earlier(y, x)
  {
    hide Put;
    var t, all := Put(s, e, max), Rows(s) + {e};
    assert y.project != e.project ==> Above(all, y) == Above(Rows(s), y);
    CutIsFull(all, max, y);
    assert Above(Rows(t), y) <= ProjectRows(t, y.project);
    Cardinality(Above(Rows(t), y), ProjectRows(t, y.project));
    WithinCapCounts(t, max, y.project);
    forall x | x in Rows(t) && x.project == y.project
      ensures Earlier(y, x)
    {
      KeptIsNewer(all, max, x, y);
      OlderIsEarlier(y, x);
    }
  }

  lemma KeptIsNewer(all: set<Envelope>, max: nat, x: Envelope, y: Envelope)
    requires OneEnvelopePerId(all) && x in Newest(all, max) && y in all && y !in Newest(all, max) && x.project == y.project
    ensures Older(y, x)
  {
    OlderTotal(all);
    if Older(x, y) {
      forall z | z in Above(all, y)
        ensures z in Above(all, x)
      {
        OlderTransitive(x, y, z);
      }
      Cardinality(Above(all, y), Above(all, x));
    }
  }

  // ---- what a sweep removes ----

  lemma SweepRemoves(s: Store, now: int)
    requires Keyed(s)
    ensures var t := Sweep(s, now);
            && (forall id :: id in t.messages
                  <==> id in s.messages && s.messages[id].createdAt + s.messages[id].ttlS * 1000 > now)
            && (forall id :: id in t.messages ==> t.messages[id] == s.messages[id])
            && (forall id, h :: (id, h) in t.acks <==> (id, h) in s.acks && (id in s.messages ==> id in t.messages))
  {
  }
}
