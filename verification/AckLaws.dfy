/** How long an ack holds: exactly until its message is deleted, unless the host acks
    again. What can bring an acked message back follows from that. */
module AckLaws {
  import opened Prelude
  import opened Envelopes
  import opened MailboxModel
  import opened MailboxLaws

  ghost predicate DeletedAt(s: Store, ops: seq<Operation>, max: nat, id: string, i: nat)
  {
    i < |ops| && id in Deleted(Run(s, ops[..i], max), ops[i], max)
  }

  ghost predicate StoredAt(s: Store, ops: seq<Operation>, max: nat, id: string, i: nat)
  {
    && i < |ops| && ops[i].PutOp? && ops[i].env.msgId == id
    && id !in Run(s, ops[..i], max).messages
    && id in Run(s, ops[..i + 1], max).messages
  }

  ghost predicate Gone(s: Store, ops: seq<Operation>, max: nat, id: string) {
    exists i :: DeletedAt(s, ops, max, id, i)
  }

  ghost predicate Returned(s: Store, ops: seq<Operation>, max: nat, id: string) {
    exists i, j :: i < j && DeletedAt(s, ops, max, id, i) && StoredAt(s, ops, max, id, j)
  }

  lemma HistoryGrows(s: Store, ops: seq<Operation>, op: Operation, max: nat, id: string)
    ensures Gone(s, ops, max, id) ==> Gone(s, ops + [op], max, id)
    ensures Returned(s, ops, max, id) ==> Returned(s, ops + [op], max, id)
  {
    var longer := ops + [op];
    forall i: nat | i <= |ops|
      ensures longer[..i] == ops[..i]
    {
    }
    if Gone(s, ops, max, id) {
      var i :| DeletedAt(s, ops, max, id, i);
      assert DeletedAt(s, longer, max, id, i);
    }
    if Returned(s, ops, max, id) {
      var i, j :| i < j && DeletedAt(s, ops, max, id, i) && StoredAt(s, ops, max, id, j);
      assert DeletedAt(s, longer, max, id, i) && StoredAt(s, longer, max, id, j);
    }
  }

  /** An ack row lives until its message is deleted. */
  lemma {:induction false} AckPersists(s: Store, ops: seq<Operation>, max: nat, id: string, host: string)
    requires (id, host) in s.acks
    ensures (id, host) in Run(s, ops, max).acks
            || Returned(s, ops, max, id)
            || (Gone(s, ops, max, id) && id !in Run(s, ops, max).messages)
  {
    if ops != [] {
      var n := |ops| - 1;
      var before, op := ops[..n], ops[n];
      AckPersists(s, before, max, id, host);
      assert ops == before + [op];
      HistoryGrows(s, before, op, max, id);
      assert ops[..n + 1] == ops;
      if id in Deleted(Run(s, before, max), op, max) {
        assert DeletedAt(s, ops, max, id, n);
      } else if (id, host) !in Run(s, before, max).acks && !Returned(s, before, max, id) {
        if id in Run(s, ops, max).messages {
          var i: nat :| DeletedAt(s, before, max, id, i);
          assert ops[..i] == before[..i];
          assert DeletedAt(s, ops, max, id, i) && StoredAt(s, ops, max, id, n);
        }
      }
    }
  }

  // ---- the exact condition ----

  /** The last thing that happened to the ack: the run deleted the message, and the host
      has not acked it since. */
  ghost predicate Forgotten(s: Store, ops: seq<Operation>, max: nat, id: string, host: string) {
    exists i: nat :: ForgottenAt(s, ops, max, id, host, i)
  }

  ghost predicate ForgottenAt(s: Store, ops: seq<Operation>, max: nat, id: string, host: string, i: nat) {
    DeletedAt(s, ops, max, id, i) && forall j :: i < j < |ops| ==> ops[j] != AckOp(id, host)
  }

  lemma ForgottenStep(s: Store, ops: seq<Operation>, op: Operation, max: nat, id: string, host: string)
    ensures Forgotten(s, ops + [op], max, id, host)
            <==> id in Deleted(Run(s, ops, max), op, max) || (Forgotten(s, ops, max, id, host) && op != AckOp(id, host))
  {
    var n, longer := |ops|, ops + [op];
    assert longer[..n] == ops;
    hide Run;
    hide Deleted;
    forall i: nat | i < n
      ensures DeletedAt(s, longer, max, id, i) == DeletedAt(s, ops, max, id, i)
    {
      assert longer[..i] == ops[..i];
    }
    if id in Deleted(Run(s, ops, max), op, max) {
      assert ForgottenAt(s, longer, max, id, host, n);
    } else if Forgotten(s, ops, max, id, host) && op != AckOp(id, host) {
      var i: nat :| ForgottenAt(s, ops, max, id, host, i);
      assert ForgottenAt(s, longer, max, id, host, i);
    }
    if i: nat :| ForgottenAt(s, longer, max, id, host, i) && i < n {
      assert longer[n] == op;
      assert forall j :: i < j < n ==> longer[j] == ops[j];
      assert ForgottenAt(s, ops, max, id, host, i);
    }
  }

  lemma AckStep(s: Store, op: Operation, max: nat, id: string, host: string)
    ensures (id, host) in Apply(s, op, max).acks
            <==> op == AckOp(id, host) || ((id, host) in s.acks && id !in Deleted(s, op, max))
  {
  }

  /** An ack row is there at the end of a run exactly when the host has acked since the
      last deletion of the message. */
  lemma {:induction false} AckRowLives(s: Store, ops: seq<Operation>, max: nat, id: string, host: string)
    requires (id, host) in s.acks
    ensures (id, host) in Run(s, ops, max).acks <==> !Forgotten(s, ops, max, id, host)
  {
    if ops == [] {
      assert !Forgotten(s, ops, max, id, host);
    } else {
      var n := |ops| - 1;
      AckRowLives(s, ops[..n], max, id, host);
      assert ops == ops[..n] + [ops[n]];
      ForgottenStep(s, ops[..n], ops[n], max, id, host);
      AckStep(Run(s, ops[..n], max), ops[n], max, id, host);
    }
  }

  /** Ack finality, exactly: after an ack, a later query for that host returns a row of
      the id if and only if the row is stored, unexpired and addressed to the host, and
      the message has been deleted with no ack since. The row must then have been stored
      again. */
  lemma AckIsFinal(s: Store, ops: seq<Operation>, max: nat, id: string, host: string,
                   projects: set<string>, now: int, e: Envelope)
    requires Keyed(s) && e.msgId == id
    ensures var start := Ack(s, id, host);
            var later := Run(start, ops, max);
            && (e in Pending(later, host, projects, now)
                <==> e in Rows(later) && ExpiresAt(e) > now && Addressed(e, host, projects)
                     && Forgotten(start, ops, max, id, host))
            && (e in Pending(later, host, projects, now) ==> Returned(start, ops, max, id))
  {
    var start := Ack(s, id, host);
    AckRowLives(start, ops, max, id, host);
    AckPersists(start, ops, max, id, host);
    RunKeyed(start, ops, max);
  }

  // ---- what can bring an acked message back ----

  ghost predicate OnlyNames(s: Store, ops: seq<Operation>, id: string, e: Envelope) {
    && (id in s.messages ==> s.messages[id] == e)
    && (forall k :: 0 <= k < |ops| && ops[k].PutOp? && ops[k].env.msgId == id ==> ops[k].env == e)
  }

  lemma {:induction false} RowOfName(s: Store, ops: seq<Operation>, max: nat, id: string, e: Envelope)
    requires OnlyNames(s, ops, id, e)
    ensures OnlyNames(Run(s, ops, max), [], id, e)
  {
    if ops != [] {
      var n := |ops| - 1;
      RowOfName(s, ops[..n], max, id, e);
    }
  }

  /** The message was pushed out by the cap, and the host has not acked it since. */
  ghost predicate EvictedSinceAck(s: Store, ops: seq<Operation>, max: nat, id: string, host: string) {
    exists i: nat :: ForgottenAt(s, ops, max, id, host, i) && ops[i].PutOp?
  }

  /** Under a clock that does not go back, and with the id naming one envelope, a sweep
      brings nothing back: an acked envelope is offered again exactly when the cap has
      evicted it since and it has been stored again. */
  lemma OnlyEvictionForgets(s: Store, ops: seq<Operation>, max: nat, host: string,
                            projects: set<string>, now: int, e: Envelope)
    requires Keyed(s) && OnlyNames(s, ops, e.msgId, e)
    requires forall k :: 0 <= k < |ops| && ops[k].SweepOp? ==> ops[k].now <= now
    ensures var start := Ack(s, e.msgId, host);
            var later := Run(start, ops, max);
            e in Pending(later, host, projects, now)
            <==> e in Rows(later) && ExpiresAt(e) > now && Addressed(e, host, projects)
                 && EvictedSinceAck(start, ops, max, e.msgId, host)
  {
    var id, start := e.msgId, Ack(s, e.msgId, host);
    AckIsFinal(s, ops, max, id, host, projects, now, e);
    if Forgotten(start, ops, max, id, host) && ExpiresAt(e) > now {
      var i: nat :| ForgottenAt(start, ops, max, id, host, i);
      assert i < |ops|;
      RowOfName(start, ops[..i], max, id, e);
      assert ops[i].PutOp?;
    }
  }

  // ---- the exceptions happen ----

  /** A message that is no longer stored at the end of a run was deleted by it. */
  lemma {:induction false} VanishedIsDeleted(s: Store, ops: seq<Operation>, max: nat, id: string) returns (i: nat)
    requires id in s.messages && id !in Run(s, ops, max).messages
    ensures DeletedAt(s, ops, max, id, i)
  {
    i := |ops| - 1;
    if id !in Run(s, ops[..i], max).messages {
      var before := ops[..i];
      i := VanishedIsDeleted(s, before, max, id);
      assert ops[..i] == before[..i];
    }
  }

  /** A full project of newer envelopes evicts an acked one together with its ack. Once
      they have expired and been swept, posting the old one again makes it pending for
      the host that had acked it: the clock only goes forward. */
  lemma AckCanBeForgotten(e: Envelope, newer: seq<Envelope>, host: string, projects: set<string>, max: nat,
                          sweptAt: int, now: int)
    requires Valid(e) && max > 0 && |newer| == max && Distinct(newer) && OneEnvelopePerId({e} + Members(newer))
    requires forall f :: f in newer ==> Valid(f) && f.project == e.project && Older(e, f) && ExpiresAt(f) <= sweptAt
    requires sweptAt <= now < ExpiresAt(e) && Addressed(e, host, projects)
    ensures e in Pending(Run(EMPTY, [PutOp(e), AckOp(e.msgId, host)] + Puts(newer) + [SweepOp(sweptAt), PutOp(e)], max),
                         host, projects, now)
  {
    var first, last := [PutOp(e), AckOp(e.msgId, host)], [SweepOp(sweptAt), PutOp(e)];
    RunConcat(EMPTY, first + Puts(newer), last, max);
    RunConcat(EMPTY, first, Puts(newer), max);
    var s2 := Run(EMPTY, first, max);
    AckedAlone(e, host, max);
    CapHolds(first, max);
    NewerEvict(s2, e, newer, host, max);
    var s3 := Run(s2, Puts(newer), max);
    var s4 := Sweep(s3, sweptAt);
    assert s4.messages == map[] by {
      forall id | id in s3.messages
        ensures id in Expired(s3, sweptAt)
      {
        assert s3.messages[id] in Rows(s3);
      }
    }
    assert last[..1] == [SweepOp(sweptAt)] && last[..1][..0] == [];
    assert Run(s3, last[..1], max) == s4;
    AloneIsKept(s4, e, max);
    assert Run(s3, last, max) == Put(s4, e, max);
  }

  lemma AckedAlone(e: Envelope, host: string, max: nat)
    requires Valid(e) && max > 0
    ensures Run(EMPTY, [PutOp(e), AckOp(e.msgId, host)], max) == Store(map[e.msgId := e], {(e.msgId, host)})
  {
    var ops := [PutOp(e), AckOp(e.msgId, host)];
    assert ops[..1][..0] == [];
    AloneIsKept(EMPTY, e, max);
    assert Run(EMPTY, ops[..1], max) == Put(Run(EMPTY, ops[..1][..0], max), e, max);
  }

  lemma NewerEvict(s: Store, e: Envelope, newer: seq<Envelope>, host: string, max: nat)
    requires Keyed(s) && WithinCap(s, max) && s == Store(map[e.msgId := e], {(e.msgId, host)})
    requires |newer| == max && Distinct(newer) && OneEnvelopePerId({e} + Members(newer))
    requires forall f :: f in newer ==> Valid(f) && f.project == e.project && Older(e, f)
    ensures Rows(Run(s, Puts(newer), max)) <= Members(newer)
    ensures (e.msgId, host) !in Run(s, Puts(newer), max).acks
  {
    var later, all := Run(s, Puts(newer), max), {e} + Members(newer);
    assert Rows(s) == {e} by {
      assert s.messages[e.msgId] == e;
    }
    assert Accepted(newer) == Members(newer);
    StreamingCapFrom(s, newer, max);
    DistinctCardinality(newer);
    assert Members(newer) <= Above(all, e);
    Cardinality(Members(newer), Above(all, e));
    assert e !in Rows(later);
    StoredIds(later);
    assert e.msgId !in later.messages;
    var i := VanishedIsDeleted(s, Puts(newer), max, e.msgId);
    assert ForgottenAt(s, Puts(newer), max, e.msgId, host, i);
    AckRowLives(s, Puts(newer), max, e.msgId, host);
  }

  /** An id used again for an envelope that lives longer: after the sweep of the first
      one, the second is pending for the host that had acked the id. */
  lemma ReusedIdIsOffered(e: Envelope, f: Envelope, host: string, projects: set<string>, max: nat, now: int)
    requires Valid(e) && Valid(f) && e.msgId == f.msgId && max > 0
    requires ExpiresAt(e) <= now < ExpiresAt(f) && Addressed(f, host, projects)
    ensures f in Pending(Run(EMPTY, [PutOp(e), AckOp(e.msgId, host), SweepOp(ExpiresAt(e)), PutOp(f)], max),
                         host, projects, now)
  {
    var ops := [PutOp(e), AckOp(e.msgId, host), SweepOp(ExpiresAt(e)), PutOp(f)];
    var s1, s2, s3 := Run(EMPTY, ops[..1], max), Run(EMPTY, ops[..2], max), Run(EMPTY, ops[..3], max);
    assert ops[..1][..0] == [] && ops[..2][..1] == ops[..1] && ops[..3][..2] == ops[..2];
    AloneIsKept(EMPTY, e, max);
    assert s1 == Put(Run(EMPTY, [], max), e, max);
    assert s1.messages == map[e.msgId := e];
    assert s3.messages == map[] && (e.msgId, host) !in s3.acks;
    AloneIsKept(s3, f, max);
  }

  lemma AloneIsKept(s: Store, e: Envelope, max: nat)
    requires Valid(e) && max > 0 && s.messages == map[]
    ensures Put(s, e, max) == Store(map[e.msgId := e], s.acks)
  {
    var s1 := Insert(s, e);
    assert Rows(s1) == {e};
    OlderIrreflexive(e, e);
    assert Above(Rows(s1), e) == {};
    assert OverCap(s1, e.project, max) == {};
    assert (set a | a in s.acks && a.0 !in OverCap(s1, e.project, max)) == s.acks;
  }
}
