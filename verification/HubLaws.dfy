/** What the hub keeps over every interleaving of its handlers. */
module HubLaws {
  import opened Prelude
  import opened Envelopes
  import opened MailboxModel
  import opened MailboxLaws
  import opened HubModel

  // ---- the connection table ----

  /** The connection of `host` that registered last. */
  ghost predicate Latest(s: Hub, host: string, c: nat) {
    c < |s.owners| && s.owners[c] == host && forall k :: c < k < |s.owners| ==> s.owners[k] != host
  }

  /** `_conns[h]` is the newest connection of `h` while that one's handler runs. */
  ghost predicate TableExact(s: Hub) {
    && (forall c :: c in s.handlers ==> c < |s.owners| && s.handlers[c].host == s.owners[c])
    && (forall h :: h in s.conns ==> Latest(s, h, s.conns[h]) && s.conns[h] in s.handlers)
    && (forall h, c :: Latest(s, h, c) && c in s.handlers ==> h in s.conns && s.conns[h] == c)
  }

  lemma LatestUnique(s: Hub, host: string, c: nat, d: nat)
    requires Latest(s, host, c) && Latest(s, host, d)
    ensures c == d
  {
  }

  lemma LeaveKeepsTable(s: Hub, c: nat)
    requires TableExact(s) && c in s.handlers
    ensures TableExact(Leave(s, c))
  {
    var s', host := Leave(s, c), s.handlers[c].host;
    forall h, d: nat | Latest(s', h, d) && d in s'.handlers
      ensures h in s'.conns && s'.conns[h] == d
    {
      assert Latest(s, h, d);
    }
    forall h | h in s'.conns
      ensures Latest(s', h, s'.conns[h]) && s'.conns[h] in s'.handlers
    {
      assert Latest(s, h, s.conns[h]) && s.conns[h] in s.handlers;
      assert s.handlers[s.conns[h]].host == h;
    }
  }

  lemma RegisterKeepsTable(s: Hub, a: Action)
    requires TableExact(s) && a.Register? && Enabled(s, a)
    ensures TableExact(Step(s, a))
  {
    var s', c := Step(s, a), |s.owners|;
    forall h, d: nat | Latest(s', h, d) && d in s'.handlers
      ensures h in s'.conns && s'.conns[h] == d
    {
      if h == a.host {
        assert Latest(s', h, c);
        LatestUnique(s', h, c, d);
      } else {
        assert d < c;
        assert forall k :: 0 <= k < c ==> s'.owners[k] == s.owners[k];
        assert Latest(s, h, d);
      }
    }
    forall h | h in s'.conns
      ensures Latest(s', h, s'.conns[h]) && s'.conns[h] in s'.handlers
    {
      if h != a.host {
        assert Latest(s, h, s.conns[h]);
      }
    }
  }

  lemma SameTable(s: Hub, s': Hub)
    requires TableExact(s) && s'.owners == s.owners && s'.conns == s.conns
    requires s'.handlers.Keys == s.handlers.Keys
    requires forall c :: c in s.handlers ==> s'.handlers[c].host == s.handlers[c].host
    ensures TableExact(s')
  {
    forall h, c
      ensures Latest(s', h, c) <==> Latest(s, h, c)
    {
    }
  }

  lemma SendKeepsTable(s: Hub, a: Action)
    requires TableExact(s) && a.SendHead? && Enabled(s, a)
    ensures TableExact(Step(s, a))
  {
    var h := s.handlers[a.conn];
    var s1 := s.(attempted := s.attempted + {(h.todo[0].conn, h.todo[0].env)});
    SameTable(s, s1);
    if h.activity.Draining? && a.closed {
      LeaveKeepsTable(s1, a.conn);
    } else {
      SameTable(s1, Step(s, a));
    }
  }

  lemma QuietStepKeepsTable(s: Hub, a: Action)
    requires TableExact(s) && Enabled(s, a)
    requires a.Announce? || a.Post? || a.AckMsg? || a.SweepAll? || a.Tick?
    ensures TableExact(Step(s, a))
  {
    SameTable(s, Step(s, a));
  }

  lemma StepKeepsTable(s: Hub, a: Action)
    requires TableExact(s) && Enabled(s, a)
    ensures TableExact(Step(s, a))
  {
    match a {
      case Register(_, _, _) => RegisterKeepsTable(s, a);
      case Exit(c) => LeaveKeepsTable(s, c);
      case SendHead(_, _) => SendKeepsTable(s, a);
      case Restart =>
      case _ => QuietStepKeepsTable(s, a);
    }
  }

  // ---- no missed wake-up ----

  /** A deliver of `e` on `c` has begun or is still on some handler's list. */
  ghost predicate Covered(s: Hub, c: nat, e: Envelope) {
    (c, e) in s.attempted || exists k :: k in s.handlers && Send(c, e) in s.handlers[k].todo
  }

  ghost predicate NoMissedWakeup(s: Hub) {
    forall h, e :: h in s.conns && s.conns[h] in s.handlers
                   && e in Pending(s.store, h, s.handlers[s.conns[h]].projects, s.clock)
      ==> Covered(s, s.conns[h], e)
  }

  /** A drain list is aimed at the connection that is draining. */
  ghost predicate DrainsSelf(s: Hub) {
    forall c, x :: c in s.handlers && s.handlers[c].activity.Draining? && x in s.handlers[c].todo ==> x.conn == c
  }

  ghost predicate HubInv(s: Hub) {
    && Keyed(s.store) && WithinCap(s.store, s.cap)
    && TableExact(s) && DrainsSelf(s) && NoMissedWakeup(s)
  }

  /** Nothing on any list is lost and no delivery is forgotten. */
  ghost predicate ListsKept(s: Hub, s': Hub) {
    forall c, e :: Covered(s, c, e) ==> Covered(s', c, e)
  }

  /** The two paths agree: a stored, unexpired envelope that `h` has not acked is
      pushed to the registered connection of `h` exactly when a drain would send it. */
  lemma FastPathAgrees(s: Hub, env: Envelope, h: string)
    requires Keyed(s.store) && TableExact(s) && h in s.conns
    requires env in Rows(s.store) && ExpiresAt(env) > s.clock && (env.msgId, h) !in s.store.acks
    ensures s.conns[h] in Recipients(s, env)
            <==> env in Pending(s.store, h, s.handlers[s.conns[h]].projects, s.clock)
  {
    if env.target.ToHost? && env.target.host in s.conns && s.conns[env.target.host] == s.conns[h] {
      assert Latest(s, env.target.host, s.conns[h]) && Latest(s, h, s.conns[h]);
    }
    if env.target.ToProject? && s.conns[h] in Recipients(s, env) {
      var g :| g in s.conns && s.conns[g] == s.conns[h];
      assert Latest(s, g, s.conns[h]) && Latest(s, h, s.conns[h]);
    }
  }

  lemma AimAt(c: nat, envs: seq<Envelope>, e: Envelope)
    ensures e in envs ==> Send(c, e) in Aim(c, envs)
  {
    if e in envs {
      var i :| 0 <= i < |envs| && envs[i] == e;
      assert Aim(c, envs)[i] == Send(c, e);
    }
  }

  /** Replacing an idle handler's record loses no list. */
  lemma IdleHandlerReplaced(s: Hub, s': Hub, c: nat)
    requires c !in s.handlers || s.handlers[c].todo == []
    requires c in s'.handlers && s'.handlers.Keys == s.handlers.Keys + {c}
    requires forall k :: k in s.handlers && k != c ==> s'.handlers[k] == s.handlers[k]
    requires s.attempted <= s'.attempted
    ensures ListsKept(s, s')
  {
    forall d: nat, e | Covered(s, d, e)
      ensures Covered(s', d, e)
    {
      if (d, e) !in s.attempted {
        var k :| k in s.handlers && Send(d, e) in s.handlers[k].todo;
        assert k in s'.handlers && Send(d, e) in s'.handlers[k].todo;
      }
    }
  }

  lemma RegisterWakes(s: Hub, a: Action)
    requires HubInv(s) && a.Register? && Enabled(s, a)
    ensures NoMissedWakeup(Step(s, a)) && DrainsSelf(Step(s, a))
  {
    var s', c := Step(s, a), |s.owners|;
    IdleHandlerReplaced(s, s', c);
    forall h, e | h in s'.conns && s'.conns[h] in s'.handlers
                  && e in Pending(s'.store, h, s'.handlers[s'.conns[h]].projects, s'.clock)
      ensures Covered(s', s'.conns[h], e)
    {
      if h == a.host {
        assert e in Members(a.drain);
        AimAt(c, a.drain, e);
        assert Send(c, e) in s'.handlers[c].todo;
      } else {
        assert Latest(s, h, s.conns[h]);
        assert Covered(s, s.conns[h], e);
      }
    }
  }

  lemma AnnounceWakes(s: Hub, a: Action)
    requires HubInv(s) && a.Announce? && Enabled(s, a)
    ensures NoMissedWakeup(Step(s, a)) && DrainsSelf(Step(s, a))
  {
    var s', c := Step(s, a), a.conn;
    IdleHandlerReplaced(s, s', c);
    forall h, e | h in s'.conns && s'.conns[h] in s'.handlers
                  && e in Pending(s'.store, h, s'.handlers[s'.conns[h]].projects, s'.clock)
      ensures Covered(s', s'.conns[h], e)
    {
      if s.conns[h] == c {
        assert Latest(s, h, c);
        assert e in Members(a.drain);
        AimAt(c, a.drain, e);
        assert Send(c, e) in s'.handlers[c].todo;
      } else {
        assert Covered(s, s.conns[h], e);
      }
    }
  }

  /** What is pending after a put was pending before, or is the row just stored. */
  lemma PendingAfterPut(s: Store, env: Envelope, cap: nat, h: string, projects: set<string>, now: int, e: Envelope)
    requires Keyed(s) && Valid(env) && e in Pending(Put(s, env, cap), h, projects, now)
    ensures e in Pending(s, h, projects, now) || (e == env && env.msgId !in s.messages)
    ensures e.msgId == env.msgId && env.msgId !in s.messages ==> e == env
  {
    var s1 := Insert(s, env);
    RowsAfterDelete(s1, PutVictims(s, env, cap), e);
    if env.msgId !in s.messages {
      InsertAddsRow(s, env);
    }
  }

  /** A push list names every connection whose host the envelope is addressed to. */
  lemma AddressedIsPushed(s: Hub, a: Action, h: string)
    requires TableExact(s) && a.Post? && Enabled(s, a) && Valid(a.env) && h in s.conns
    requires Addressed(a.env, h, s.handlers[s.conns[h]].projects)
    ensures Covered(Step(s, a), s.conns[h], a.env)
  {
    var d := s.conns[h];
    assert s.handlers[d].host == h;
    assert d in Members(a.order);
    var i :| 0 <= i < |a.order| && a.order[i] == d;
    assert Fan(a.order, a.env)[i] == Send(d, a.env);
    assert Send(d, a.env) in Step(s, a).handlers[a.conn].todo;
  }

  /** A post whose id is stored changes nothing in the store, whatever else it holds, and
      is pushed all the same: of two envelopes under one id a host may be sent either. */
  lemma ReusedIdIsPushed(s: Hub, a: Action, h: string)
    requires HubInv(s) && a.Post? && Enabled(s, a) && Valid(a.env) && h in s.conns
    requires a.env.msgId in s.store.messages && Addressed(a.env, h, s.handlers[s.conns[h]].projects)
    ensures Step(s, a).store == s.store
    ensures Send(s.conns[h], a.env) in Step(s, a).handlers[a.conn].todo
  {
    PutStoredIsNoOp(s.store, a.env, s.cap);
    assert s.conns[h] in Members(a.order) && s.handlers[s.conns[h]].host == h;
    var k :| 0 <= k < |a.order| && a.order[k] == s.conns[h];
    assert Fan(a.order, a.env)[k] == Send(s.conns[h], a.env);
  }

  /** Other rows stay on their lists and keep their attempts. */
  lemma PostKeepsOthers(s: Hub, a: Action, d: nat, e: Envelope)
    requires a.Post? && Enabled(s, a) && Valid(a.env) && Covered(s, d, e)
    requires e.msgId != a.env.msgId || a.env.msgId in s.store.messages
    ensures Covered(Step(s, a), d, e)
  {
    var s' := Step(s, a);
    if (d, e) !in s.attempted {
      var k :| k in s.handlers && Send(d, e) in s.handlers[k].todo;
      assert k in s'.handlers && Send(d, e) in s'.handlers[k].todo;
    }
  }

  lemma PostWakes(s: Hub, a: Action)
    requires HubInv(s) && a.Post? && Enabled(s, a) && Valid(a.env)
    ensures NoMissedWakeup(Step(s, a)) && DrainsSelf(Step(s, a))
  {
    var s' := Step(s, a);
    forall h, e | h in s'.conns && s'.conns[h] in s'.handlers
                  && e in Pending(s'.store, h, s'.handlers[s'.conns[h]].projects, s'.clock)
      ensures Covered(s', s'.conns[h], e)
    {
      PendingAfterPut(s.store, a.env, s.cap, h, s.handlers[s.conns[h]].projects, s.clock, e);
      if e == a.env && a.env.msgId !in s.store.messages {
        AddressedIsPushed(s, a, h);
      } else {
        PostKeepsOthers(s, a, s.conns[h], e);
      }
    }
  }

  /** Less pending, same lists: the invariant carries over. */
  lemma FewerPending(s: Hub, s': Hub)
    requires NoMissedWakeup(s) && DrainsSelf(s)
    requires s'.conns == s.conns && s'.handlers == s.handlers && s'.attempted == s.attempted
    requires forall h, projects :: Pending(s'.store, h, projects, s'.clock) <= Pending(s.store, h, projects, s.clock)
    ensures NoMissedWakeup(s') && DrainsSelf(s')
  {
    forall h, e | h in s'.conns && s'.conns[h] in s'.handlers
                  && e in Pending(s'.store, h, s'.handlers[s'.conns[h]].projects, s'.clock)
      ensures Covered(s', s'.conns[h], e)
    {
      assert Covered(s, s.conns[h], e);
    }
  }

  /** A handler that leaves with a list takes only delivers to itself along. */
  lemma LeaveWakes(s: Hub, c: nat)
    requires TableExact(s) && DrainsSelf(s) && NoMissedWakeup(s) && c in s.handlers
    requires s.handlers[c].todo == [] || s.handlers[c].activity.Draining?
    ensures NoMissedWakeup(Leave(s, c)) && DrainsSelf(Leave(s, c))
  {
    var s' := Leave(s, c);
    forall h, e | h in s'.conns && s'.conns[h] in s'.handlers
                  && e in Pending(s'.store, h, s'.handlers[s'.conns[h]].projects, s'.clock)
      ensures Covered(s', s'.conns[h], e)
    {
      var d := s.conns[h];
      assert Covered(s, d, e);
      if (d, e) !in s.attempted {
        var k :| k in s.handlers && Send(d, e) in s.handlers[k].todo;
        assert k != c;
        assert Send(d, e) in s'.handlers[k].todo;
      }
    }
  }

  /** The head's attempt is noted; the rest of the list stays. */
  lemma SendKeepsCover(s: Hub, a: Action, d: nat, e: Envelope)
    requires a.SendHead? && Enabled(s, a) && Covered(s, d, e)
    requires !(s.handlers[a.conn].activity.Draining? && a.closed)
    ensures Covered(Step(s, a), d, e)
  {
    var s', h := Step(s, a), s.handlers[a.conn];
    if (d, e) !in s'.attempted {
      var k :| k in s.handlers && Send(d, e) in s.handlers[k].todo;
      assert h.todo == [h.todo[0]] + h.todo[1..];
      assert k in s'.handlers && Send(d, e) in s'.handlers[k].todo;
    }
  }

  lemma SendWakes(s: Hub, a: Action)
    requires HubInv(s) && a.SendHead? && Enabled(s, a)
    ensures NoMissedWakeup(Step(s, a)) && DrainsSelf(Step(s, a))
  {
    var s', h0 := Step(s, a), s.handlers[a.conn];
    if h0.activity.Draining? && a.closed {
      var s1 := s.(attempted := s.attempted + {(h0.todo[0].conn, h0.todo[0].env)});
      MoreAttempted(s, s1);
      SameTable(s, s1);
      LeaveWakes(s1, a.conn);
    } else {
      forall h, e | h in s'.conns && s'.conns[h] in s'.handlers
                    && e in Pending(s'.store, h, s'.handlers[s'.conns[h]].projects, s'.clock)
        ensures Covered(s', s'.conns[h], e)
      {
        SendKeepsCover(s, a, s.conns[h], e);
      }
    }
  }

  lemma MoreAttempted(s: Hub, s': Hub)
    requires NoMissedWakeup(s)
    requires s'.conns == s.conns && s'.handlers == s.handlers && s.attempted <= s'.attempted
    requires s'.store == s.store && s'.clock == s.clock
    ensures NoMissedWakeup(s')
  {
    forall h, e | h in s'.conns && s'.conns[h] in s'.handlers
                  && e in Pending(s'.store, h, s'.handlers[s'.conns[h]].projects, s'.clock)
      ensures Covered(s', s'.conns[h], e)
    {
      assert Covered(s, s.conns[h], e);
    }
  }

  lemma StepWakes(s: Hub, a: Action)
    requires HubInv(s) && Enabled(s, a)
    ensures NoMissedWakeup(Step(s, a)) && DrainsSelf(Step(s, a))
  {
    match a {
      case Register(_, _, _) => RegisterWakes(s, a);
      case Announce(_, _, _) => AnnounceWakes(s, a);
      case Post(_, env, _) => if Valid(env) { PostWakes(s, a); }
      case SendHead(_, _) => SendWakes(s, a);
      case Exit(c) => LeaveWakes(s, c);
      case AckMsg(_, _) => FewerPending(s, Step(s, a));
      case SweepAll => FewerPending(s, Step(s, a));
      case Tick(_) => FewerPending(s, Step(s, a));
      case Restart =>
    }
  }

  lemma StepKeepsStore(s: Hub, a: Action)
    requires HubInv(s) && Enabled(s, a)
    ensures Step(s, a).cap == s.cap
    ensures Keyed(Step(s, a).store) && WithinCap(Step(s, a).store, s.cap)
  {
    match a {
      case Post(_, env, _) => PutKeepsCap(s.store, env, s.cap);
      case SweepAll => DeleteKeepsCap(s.store, Expired(s.store, s.clock), s.cap);
      case AckMsg(c, id) => assert Rows(Ack(s.store, id, s.handlers[c].host)) == Rows(s.store);
      case _ =>
    }
  }

  lemma StepKeepsInv(s: Hub, a: Action)
    requires HubInv(s) && Enabled(s, a)
    ensures HubInv(Step(s, a)) && Step(s, a).cap == s.cap
  {
    StepKeepsStore(s, a);
    StepKeepsTable(s, a);
    StepWakes(s, a);
  }

  /** Every reachable hub state: the table is exact, and each message a registered
      connection's host is owed has been tried on it or is still on a list for it. */
  lemma {:induction false} EveryRun(cap: nat, clock: int, acts: seq<Action>)
    requires Legal(Fresh(cap, clock), acts)
    ensures HubInv(After(Fresh(cap, clock), acts)) && After(Fresh(cap, clock), acts).cap == cap
  {
    if acts != [] {
      EveryRun(cap, clock, acts[..|acts| - 1]);
      StepKeepsInv(After(Fresh(cap, clock), acts[..|acts| - 1]), acts[|acts| - 1]);
    }
  }

  /** A superseded handler's exit leaves its successor registered. */
  lemma StaleExitKeepsSuccessor(s: Hub, c: nat, d: nat)
    requires TableExact(s) && c in s.handlers && d in s.handlers && c < d
    requires s.owners[c] == s.owners[d] && Latest(s, s.owners[d], d)
    ensures var s' := Leave(s, c);
            s.owners[d] in s'.conns && s'.conns[s.owners[d]] == d && s'.conns == s.conns
  {
    assert s.conns[s.owners[d]] == d;
  }
}
