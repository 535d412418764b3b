/** The mailbox itself: two tables changed in place, each method proved to do
    exactly what the model says. */
module Mailboxes {
  import opened Prelude
  import opened Envelopes
  import opened MailboxModel
  import opened MailboxLaws
  import opened MailboxEffects

  class Mailbox {
    const max: nat
    var messages: map<string, Envelope>
    var acks: set<(string, string)>

    ghost function State(): Store
      reads this
    {
      Store(messages, acks)
    }

    ghost predicate Consistent()
      reads this
    {
      Keyed(State()) && WithinCap(State(), max)
    }

    constructor (maxPerProject: nat)
      ensures max == maxPerProject && State() == EMPTY && Consistent()
    {
      max := maxPerProject;
      messages := map[];
      acks := {};
    }

    /** ORDER BY created_at ASC, msg_id ASC. */
    method OldestFirst(rows: set<Envelope>) returns (l: seq<Envelope>)
      requires OneEnvelopePerId(rows)
      ensures Listing(l, rows)
    {
      l := [];
      var rest := rows;
      while rest != {}
        invariant rest <= rows
        invariant Listing(l, rows - rest)
        decreases rest
      {
        var e :| e in rest;
        rest := rest - {e};
        l := InsertInOrder(l, e, rows - rest - {e}, rows);
        assert rows - rest == (rows - rest - {e}) + {e};
      }
    }

    method InsertInOrder(l: seq<Envelope>, e: Envelope, ghost listed: set<Envelope>, ghost rows: set<Envelope>)
      returns (l': seq<Envelope>)
      requires OneEnvelopePerId(rows) && listed + {e} <= rows && e !in listed && Listing(l, listed)
      ensures Listing(l', listed + {e})
    {
      var at := |l|;
      while at > 0 && Older(e, l[at - 1])
        invariant 0 <= at <= |l|
        invariant forall k :: at <= k < |l| ==> Older(e, l[k])
      {
        at := at - 1;
      }
      OlderTotal(rows);
      if at > 0 {
        assert l[at - 1] in listed;
        forall k | 0 <= k < at
          ensures Older(l[k], e)
        {
          if k < at - 1 {
            OlderTransitive(l[k], l[at - 1], e);
          }
        }
      }
      ListingInsert(l, listed, e, at);
      l' := l[..at] + [e] + l[at..];
    }

    /** The ids of one project's rows, newest first, from offset `max` on: the
        oldest rows beyond the cap. */
    method SelectOverCap(project: string) returns (victims: seq<string>)
      requires Keyed(State())
      ensures Members(victims) == OverCap(State(), project, max)
    {
      var ids := set id | id in messages && messages[id].project == project;
      var rows := set id | id in ids :: messages[id];
      assert rows == ProjectRows(State(), project);
      var l := OldestFirst(rows);
      victims := [];
      while |victims| + max < |l|
        invariant |victims| == 0 || |victims| - 1 + max < |l|
        invariant forall k :: 0 <= k < |victims| ==> victims[k] == l[k].msgId
      {
        victims := victims + [l[|victims|].msgId];
      }
      forall id
        ensures id in Members(victims) <==> id in OverCap(State(), project, max)
      {
        VictimsAreOldest(State(), project, l, max, id);
        if id in OverCap(State(), project, max) {
          var k :| 0 <= k < |l| - max && l[k].msgId == id;
          assert victims[k] == id;
        }
      }
    }

    /** One DELETE per victim in each table. */
    method DeleteAll(ids: seq<string>)
      modifies this
      ensures State() == Delete(old(State()), Members(ids))
    {
      var i := 0;
      while i < |ids|
        invariant 0 <= i <= |ids|
        invariant messages == old(messages) - Members(ids[..i])
        invariant acks == set a | a in old(acks) && a.0 !in Members(ids[..i])
      {
        messages := messages - {ids[i]};
        acks := set a | a in acks && a.0 != ids[i];
        assert Members(ids[..i + 1]) == Members(ids[..i]) + {ids[i]};
        i := i + 1;
      }
      assert ids[..i] == ids;
    }

    method PutEnvelope(env: Envelope) returns (fault: Option<Fault>)
      requires Consistent()
      modifies this
      ensures fault == Validate(env)
      ensures State() == Put(old(State()), env, max)
      ensures Consistent()
      ensures fault.Some? || env.msgId in old(messages) ==> State() == old(State())
      ensures fault.None? && env.msgId !in old(messages)
              ==> Rows(State()) == Newest(Rows(old(State())) + {env}, max)
      ensures fault.None? && env.msgId !in old(messages) ==> PutKeepsLatest(old(State()), State(), env, max)
    {
      PutKeepsCap(State(), env, max);
      fault := Validate(env);
      if fault.Some? {
        return;
      }
      if env.msgId in messages {
        PutStoredIsNoOp(State(), env, max);
      } else {
        PutKeepsNewest(State(), env, max);
        CappedIsWithinCap(State(), max);
        PutIsLatest(State(), env, max);
        messages := messages[env.msgId := env];
      }
      var victims := SelectOverCap(env.project);
      DeleteAll(victims);
    }

    method SweepExpired(now: int) returns (count: nat)
      requires Consistent()
      modifies this
      ensures State() == Sweep(old(State()), now)
      ensures forall id :: id in messages
                <==> id in old(messages) && old(messages)[id].createdAt + old(messages)[id].ttlS * 1000 > now
      ensures count == |Expired(old(State()), now)|
      ensures Consistent()
    {
      SweepRemoves(State(), now);
      var ids := set id | id in messages && ExpiresAt(messages[id]) <= now;
      count := |ids|;
      var rows := FetchAll(ids);
      DeleteKeepsCap(State(), ids, max);
      DeleteAll(rows);
    }

    /** An unordered query fetches its ids in some order. */
    method FetchAll(ids: set<string>) returns (rows: seq<string>)
      ensures Members(rows) == ids
    {
      rows := [];
      var rest := ids;
      while rest != {}
        invariant rest <= ids && Members(rows) == ids - rest
        decreases rest
      {
        var id :| id in rest;
        MembersAppend(rows, id);
        rest, rows := rest - {id}, rows + [id];
      }
    }

    /** The query orders the rows the host may see; the loop drops fan-out rows of
        projects it has not announced. */
    method PendingFor(host: string, projects: set<string>, now: int) returns (out: seq<Envelope>)
      requires Consistent()
      ensures Listing(out, Pending(State(), host, projects, now))
      ensures Drains(State(), host, projects, now, out)
    {
      var ids := set id | id in messages && ExpiresAt(messages[id]) > now && (id, host) !in acks
                          && (match messages[id].target
                              case ToHost(h, _) => h == host
                              case ToProject(_) => messages[id].originHost != host);
      var selected := set id | id in ids :: messages[id];
      var rows := OldestFirst(selected);
      out := [];
      var i := 0;
      while i < |rows|
        invariant 0 <= i <= |rows|
        invariant Members(out) == set e | e in rows[..i] && Addressed(e, host, projects)
        invariant forall a, b :: 0 <= a < b < |out| ==> Older(out[a], out[b])
      {
        var e := rows[i];
        assert rows[..i + 1] == rows[..i] + [e];
        if !(e.target.ToProject? && e.project !in projects) {
          assert e in Members(rows) && Addressed(e, host, projects);
          forall x | x in out
            ensures Older(x, e)
          {
            assert x in Members(out);
            assert x in rows[..i];
          }
          MembersAppend(out, e);
          out := out + [e];
        }
        i := i + 1;
      }
      assert rows[..i] == rows;
      forall e
        ensures e in Members(out) <==> e in Pending(State(), host, projects, now)
      {
        assert e in rows <==> e in Members(rows);
      }
      ListingDrains(State(), host, projects, now, out);
    }

    method AckMessage(id: string, host: string)
      requires Consistent()
      modifies this`acks
      ensures State() == Ack(old(State()), id, host)
      ensures Consistent()
    {
      acks := acks + {(id, host)};
      assert Rows(State()) == Rows(old(State()));
    }
  }
}
