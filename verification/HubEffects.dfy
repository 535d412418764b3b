/** What each step of the hub does and what it leaves alone, said of its tables and the
    handlers' lists. */
module HubEffects {
  import opened Prelude
  import opened Envelopes
  import opened MailboxModel
  import opened MailboxLaws
  import opened MailboxEffects
  import opened HubModel
  import opened HubLaws

  /** `todo` sends exactly what `host` is owed to connection `c`, earliest first. */
  ghost predicate DrainsTo(s: Store, host: string, projects: set<string>, now: int, c: nat, todo: seq<Send>) {
    exists out :: Drains(s, host, projects, now, out) && |todo| == |out|
                  && forall k :: 0 <= k < |todo| ==> todo[k] == Send(c, out[k])
  }

  ghost predicate OthersStay(s: Hub, s': Hub, c: nat) {
    && (forall d :: d in s.handlers && d != c ==> d in s'.handlers && s'.handlers[d] == s.handlers[d])
    && (forall d :: d in s'.handlers && d != c ==> d in s.handlers)
  }

  lemma AimDrains(s: Store, host: string, projects: set<string>, now: int, c: nat, drain: seq<Envelope>)
    requires Keyed(s) && Listing(drain, Pending(s, host, projects, now))
    ensures DrainsTo(s, host, projects, now, c, Aim(c, drain))
  {
    ListingDrains(s, host, projects, now, drain);
  }

  /** A hello puts the new connection in its host's place, with the projects it named, and
      sends it what they are owed. */
  lemma RegisterEffect(s: Hub, a: Action)
    requires HubInv(s) && a.Register? && Enabled(s, a)
    ensures var s', c := Step(s, a), |s.owners|;
            && s'.conns == s.conns[a.host := c] && s'.owners == s.owners + [a.host] && s'.store == s.store
            && c in s'.handlers && s'.handlers[c].host == a.host && s'.handlers[c].projects == a.projects
            && s'.handlers[c].activity.Draining?
            && DrainsTo(s.store, a.host, a.projects, s.clock, c, s'.handlers[c].todo) && OthersStay(s, s', c)
  {
    AimDrains(s.store, a.host, a.projects, s.clock, |s.owners|, a.drain);
  }

  /** An announce replaces the connection's projects and sends it what they are owed. */
  lemma AnnounceEffect(s: Hub, a: Action)
    requires HubInv(s) && a.Announce? && Enabled(s, a)
    ensures var s', c := Step(s, a), a.conn;
            && s'.conns == s.conns && s'.owners == s.owners && s'.store == s.store
            && c in s'.handlers && s'.handlers[c].host == s.handlers[c].host && s'.handlers[c].projects == a.projects
            && s'.handlers[c].activity.Draining?
            && DrainsTo(s.store, s.handlers[c].host, a.projects, s.clock, c, s'.handlers[c].todo) && OthersStay(s, s', c)
  {
    AimDrains(s.store, s.handlers[a.conn].host, a.projects, s.clock, a.conn, a.drain);
  }

  /** So each row a host is owed under the projects it has just announced is on the list. */
  lemma AnnouncedIsDrained(s: Hub, a: Action, e: Envelope)
    requires HubInv(s) && a.Announce? && Enabled(s, a)
    requires Owed(s.store, s.handlers[a.conn].host, a.projects, s.clock, e)
    ensures Send(a.conn, e) in Step(s, a).handlers[a.conn].todo
  {
    AnnounceEffect(s, a);
    hide Step;
    var todo := Step(s, a).handlers[a.conn].todo;
    var out :| Drains(s.store, s.handlers[a.conn].host, a.projects, s.clock, out) && |todo| == |out|
               && forall k :: 0 <= k < |todo| ==> todo[k] == Send(a.conn, out[k]);
    assert e in out;
  }

  /** And a fan-out that another host posts next, on a project just announced, is pushed to
      the connection while it is its host's. */
  lemma FanOutFollowsAnnounce(s: Hub, a: Action, p: Action)
    requires HubInv(s) && a.Announce? && Enabled(s, a) && p.Post? && Enabled(Step(s, a), p) && Valid(p.env)
    requires var h := s.handlers[a.conn].host; h in s.conns && s.conns[h] == a.conn && p.env.originHost != h
    requires p.env.target.ToProject? && p.env.project in a.projects
    ensures Send(a.conn, p.env) in Step(Step(s, a), p).handlers[p.conn].todo
  {
    AnnounceEffect(s, a);
    StepKeepsInv(s, a);
    PostEffect(Step(s, a), p);
  }

  /** Whom a post is pushed to: the current connection of the host it names, or of every
      host but its origin that has announced its project. */
  ghost predicate PushesTo(s: Hub, e: Envelope, c: nat) {
    exists h :: h in s.conns && s.conns[h] == c && c in s.handlers
                && match e.target
                   case ToHost(host, _) => h == host
                   case ToProject(_) => h != e.originHost && e.project in s.handlers[c].projects
  }

  /** A valid post is stored by the mailbox and pushed once to each of those; an invalid
      one does nothing. */
  lemma PostEffect(s: Hub, a: Action)
    requires HubInv(s) && a.Post? && Enabled(s, a)
    ensures var s' := Step(s, a);
            && s'.conns == s.conns && s'.owners == s.owners && OthersStay(s, s', a.conn)
            && (!Valid(a.env) ==> s' == s)
            && (Valid(a.env) && a.env.msgId in s.store.messages ==> s'.store == s.store)
            && (Valid(a.env) && a.env.msgId !in s.store.messages ==> PutKeepsLatest(s.store, s'.store, a.env, s.cap))
    ensures var h' := Step(s, a).handlers[a.conn];
            Valid(a.env) ==>
              && h'.activity.Pushing? && h'.host == s.handlers[a.conn].host && h'.projects == s.handlers[a.conn].projects
              && Distinct(h'.todo) && (forall x :: x in h'.todo ==> x.env == a.env)
              && (forall c :: Send(c, a.env) in h'.todo <==> PushesTo(s, a.env, c))
  {
    CappedIsWithinCap(s.store, s.cap);
    if Valid(a.env) {
      if a.env.msgId in s.store.messages {
        PutStoredIsNoOp(s.store, a.env, s.cap);
      } else {
        PutIsLatest(s.store, a.env, s.cap);
      }
      FanNames(s, a.order, a.env);
    }
  }

  lemma FanNames(s: Hub, order: seq<nat>, e: Envelope)
    requires TableExact(s) && Distinct(order) && Members(order) == Recipients(s, e)
    ensures Distinct(Fan(order, e)) && (forall x :: x in Fan(order, e) ==> x.env == e)
    ensures forall c :: Send(c, e) in Fan(order, e) <==> PushesTo(s, e, c)
  {
    forall c
      ensures Send(c, e) in Fan(order, e) <==> PushesTo(s, e, c)
    {
      assert c in order <==> c in Members(order);
      if c in order {
        var k :| 0 <= k < |order| && order[k] == c;
        assert Fan(order, e)[k] == Send(c, e);
      }
      RecipientIsPushed(s, e, c);
    }
  }

  lemma RecipientIsPushed(s: Hub, e: Envelope, c: nat)
    requires TableExact(s)
    ensures c in Recipients(s, e) <==> PushesTo(s, e, c)
  {
    forall h | h in s.conns
      ensures s.conns[h] in s.handlers && s.handlers[s.conns[h]].host == h
    {
      assert Latest(s, h, s.conns[h]);
    }
  }

  /** An ack settles its id for the connection's host, for good as far as the tables go:
      no query of that host returns it, under any projects and at any time. What other
      hosts are owed, and what is owed under other ids, is as before. */
  lemma AckEffect(s: Hub, a: Action)
    requires HubInv(s) && a.AckMsg? && Enabled(s, a)
    ensures var s', h := Step(s, a), s.handlers[a.conn].host;
            && s' == s.(store := s'.store) && s'.store.messages == s.store.messages
            && (forall projects, now, e: Envelope :: Owed(s'.store, h, projects, now, e) ==> e.msgId != a.id)
            && (forall g, projects, now, e: Envelope :: g != h || e.msgId != a.id
                  ==> (Owed(s'.store, g, projects, now, e) <==> Owed(s.store, g, projects, now, e)))
  {
  }

  /** One send: the head of the list is begun and leaves it. A drain whose connection has
      closed ends its handler instead. */
  lemma SendEffect(s: Hub, a: Action)
    requires HubInv(s) && a.SendHead? && Enabled(s, a)
    ensures var s', h := Step(s, a), s.handlers[a.conn];
            && s'.store == s.store && s'.owners == s.owners && OthersStay(s, s', a.conn)
            && s'.attempted == s.attempted + {(h.todo[0].conn, h.todo[0].env)}
            && (if h.activity.Draining? && a.closed then Gone(s, s', a.conn)
                else s'.conns == s.conns && a.conn in s'.handlers && s'.handlers[a.conn] == h.(todo := h.todo[1..]))
  {
  }

  /** The handler of `c` has ended: its host is registered no more, unless by another. */
  ghost predicate Gone(s: Hub, s': Hub, c: nat) {
    && c !in s'.handlers
    && (forall h :: h in s'.conns <==> h in s.conns && s.conns[h] != c)
    && (forall h :: h in s'.conns ==> s'.conns[h] == s.conns[h])
  }

  lemma ExitEffect(s: Hub, a: Action)
    requires HubInv(s) && a.Exit? && Enabled(s, a)
    ensures var s' := Step(s, a);
            && s'.store == s.store && s'.owners == s.owners && s'.attempted == s.attempted
            && OthersStay(s, s', a.conn) && Gone(s, s', a.conn)
  {
    forall h | h in s.conns && s.conns[h] == a.conn
      ensures h == s.handlers[a.conn].host
    {
      assert Latest(s, h, s.conns[h]);
    }
  }

  /** A sweep removes what has expired, a tick moves the clock, and a restart ends every
      handler; none does anything else. */
  lemma HousekeepingEffect(s: Hub, a: Action)
    requires HubInv(s) && (a.SweepAll? || a.Tick? || a.Restart?) && Enabled(s, a)
    ensures var s' := Step(s, a);
            && s'.owners == s.owners && s'.attempted == s.attempted
            && (forall id :: id in s'.store.messages
                  <==> id in s.store.messages
                       && (a.SweepAll? ==> s.store.messages[id].createdAt + s.store.messages[id].ttlS * 1000 > s.clock))
            && (forall id :: id in s'.store.messages ==> s'.store.messages[id] == s.store.messages[id])
            && (a.SweepAll? || s'.store == s.store)
            && (if a.Restart? then s'.conns == map[] && s'.handlers == map[]
                else s'.conns == s.conns && s'.handlers == s.handlers)
            && s'.clock == if a.Tick? then a.clock else s.clock
  {
  }
}
