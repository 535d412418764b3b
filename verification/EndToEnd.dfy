/** At-least-once, end to end: what was stored is accepted, pending, expired or crowded
    out by newer rows, in every reachable state. */
module EndToEnd {
  import opened Prelude
  import opened Envelopes
  import M = MailboxModel
  import ML = MailboxLaws
  import H = HubModel
  import HL = HubLaws
  import F = FerryModel
  import FD = FerryDelivery
  import O = OutboxModel
  import P = Provenance
  import opened SystemModel

  /** Some envelope with this id was accepted at `h`. */
  ghost predicate IdAccepted(s: Sys, h: string, id: string) {
    exists e :: (h, e) in s.accepted && e.msgId == id
  }

  /** A host's part of the chain: what it has accepted is on record, and it has queued
      acks for nothing else. */
  ghost predicate NodeInv(s: Sys, h: string) {
    h in s.nodes ==>
      var n := s.nodes[h];
      && FD.SeenInv(n.ferry)
      && AcceptedBy(h, n.ferry) <= s.accepted
      && (forall op :: op in n.box.log && op.AckMsg? ==> IdAccepted(s, h, op.id))
      && O.Inv(n.box)
  }

  /** Acks in transit were sent by the host that owns the connection. */
  ghost predicate ChannelInv(s: Sys) {
    && (forall c, op :: c in s.up && op in s.up[c] && op.AckMsg?
          ==> c < |s.hub.owners| && (s.hub.owners[c], op.id) in s.ackSent)
    && (forall h, op :: h in s.early && op in s.early[h] && op.AckMsg? ==> (h, op.id) in s.ackSent)
  }

  /** ack row => ack sent => accepted (and recorded, which is the same step). */
  ghost predicate ChainInv(s: Sys) {
    && (forall id, h :: (id, h) in s.hub.store.acks ==> (h, id) in s.ackSent)
    && (forall h, id :: (h, id) in s.ackSent ==> IdAccepted(s, h, id))
  }

  ghost predicate Chain(s: Sys) {
    ChainInv(s) && ChannelInv(s) && forall h :: NodeInv(s, h)
  }

  ghost predicate Inv(s: Sys) {
    P.Inv(s) && Chain(s)
  }

  // ---- steps of the hub ----

  lemma HubKeepsChain(s: Sys, a: H.Action)
    requires ChainInv(s) && ChannelInv(s) && H.Enabled(s.hub, a)
    requires a.AckMsg? ==> (s.hub.handlers[a.conn].host, a.id) in s.ackSent
    ensures ChainInv(HubMoves(s, a)) && ChannelInv(HubMoves(s, a))
  {
    P.HubKeepsOwners(s.hub, a);
    SameAccepted(s, HubMoves(s, a));
  }

  lemma SameAccepted(s: Sys, s': Sys)
    requires s.accepted <= s'.accepted
    ensures forall h, id :: IdAccepted(s, h, id) ==> IdAccepted(s', h, id)
  {
  }

  /** Hosts are not touched. */
  lemma SameNodes(s: Sys, s': Sys)
    requires (forall h :: NodeInv(s, h)) && s'.nodes == s.nodes && s'.accepted == s.accepted
    ensures forall h :: NodeInv(s', h)
  {
    hide IdAccepted;
    SameAccepted(s, s');
    forall h
      ensures NodeInv(s', h)
    {
      assert NodeInv(s, h);
    }
  }

  lemma HubKeepsInv(s: Sys, a: H.Action)
    requires Inv(s) && H.Enabled(s.hub, a)
    requires a.AckMsg? ==> (s.hub.handlers[a.conn].host, a.id) in s.ackSent
    ensures Inv(HubMoves(s, a))
  {
    hide P.Inv;
    hide NodeInv;
    hide ChainInv;
    hide ChannelInv;
    P.HubKeepsInv(s, a);
    HubKeepsChain(s, a);
    SameNodes(s, HubMoves(s, a));
  }

  /** Frames moved about on their way up with no new ack among them, and any change of
      the way down. */
  lemma OffStage(s: Sys, s': Sys)
    requires Chain(s) && s' == s.(up := s'.up, early := s'.early, down := s'.down, foreign := s'.foreign)
    requires forall c, op :: c in s'.up && op in s'.up[c] && op.AckMsg?
               ==> op in Frames(s.up, c) || (c < |s.hub.owners| && op in Frames(s.early, s.hub.owners[c]))
    requires forall h, op :: h in s'.early && op in s'.early[h] ==> op in Frames(s.early, h)
    ensures Chain(s')
  {
    hide NodeInv;
    hide IdAccepted;
    SameNodes(s, s');
    SameAccepted(s, s');
  }

  lemma ReceiveKeepsInv(s: Sys, a: Action)
    requires Inv(s) && a.HubReceive? && Enabled(s, a)
    ensures Inv(Step(s, a))
  {
    var c, op := a.conn, Frames(s.up, a.conn)[0];
    var s1 := s.(up := s.up[c := Frames(s.up, c)[1..]]);
    P.UpKeepsInv(s, s1);
    OffStage(s, s1);
    if !EmptyAck(s, c) {
      if op.AckMsg? {
        assert op in s.up[c];
        assert s.hub.handlers[c].host == s.hub.owners[c];
      }
      HubKeepsInv(s1, Received(s, c, a.drain, a.order));
    }
  }

  lemma SendKeepsInv(s: Sys, a: Action)
    requires Inv(s) && a.HubSend? && Enabled(s, a)
    ensures Inv(Step(s, a))
  {
    var x := s.hub.handlers[a.conn].todo[0];
    var s1 := s.(down := if a.written then s.down[x.conn := Frames(s.down, x.conn) + [x.env]] else s.down);
    assert P.OnConnection(s, x.env, x.conn);
    P.DownKeepsInv(s, s1.down);
    OffStage(s, s1);
    hide Chain;
    hide P.Inv;
    HubKeepsInv(s1, H.SendHead(a.conn, a.closed));
  }

  /** Registering a connection hands over what its host has written to it. */
  lemma HelloKeepsInv(s: Sys, a: Action)
    requires Inv(s) && a.Hello? && Enabled(s, a)
    ensures Inv(Step(s, a))
  {
    hide P.Inv;
    hide NodeInv;
    hide IdAccepted;
    hide ChainInv;
    var s1 := HubMoves(s, H.Register(a.host, a.projects, a.drain));
    HubKeepsInv(s, H.Register(a.host, a.projects, a.drain));
    P.UpKeepsInv(s1, Step(s, a));
    assert s1.hub.owners == s.hub.owners + [a.host];
    OffStage(s1, Step(s, a));
  }

  // ---- steps of a host ----

  /** A step of one host that leaves the hub alone and writes no ack. */
  lemma NodeStep(s: Sys, s': Sys, h: string)
    requires Chain(s) && NodeInv(s', h) && h in s'.nodes && s'.nodes == s.nodes[h := s'.nodes[h]]
    requires s'.hub == s.hub && s.accepted <= s'.accepted
    requires ChannelInv(s')
    requires forall g, id :: (g, id) in s'.ackSent ==> (g, id) in s.ackSent || IdAccepted(s, g, id)
    requires s.ackSent <= s'.ackSent
    ensures Chain(s')
  {
    hide IdAccepted;
    SameAccepted(s, s');
    forall g
      ensures NodeInv(s', g)
    {
      assert NodeInv(s, g);
    }
  }

  /** A ferry step queues an ack only for what is on record as accepted. */
  lemma AcksOnRecord(s: Sys, h: string, a: F.Action, op: F.Op)
    requires Enabled(s, FerryStep(h, a)) && FD.SeenInv(s.nodes[h].ferry)
    requires op in F.Step(s.nodes[h].cfg, s.nodes[h].ferry, a).1 && op.AckMsg?
    ensures IdAccepted(FerryMoves(s, h, a), h, op.id)
  {
    var n := s.nodes[h];
    FD.AckMeansAccepted(n.cfg, n.ferry, a, op.id);
    var w := F.Step(n.cfg, n.ferry, a).0;
    var k :| 0 <= k < |w.h.acceptances| && w.h.acceptances[k].env.msgId == op.id;
    assert (h, w.h.acceptances[k].env) in AcceptedBy(h, w);
  }

  lemma FerryNodeOk(s: Sys, h: string, a: F.Action)
    requires NodeInv(s, h) && Enabled(s, FerryStep(h, a))
    ensures NodeInv(FerryMoves(s, h, a), h)
  {
    var s', n := FerryMoves(s, h, a), s.nodes[h];
    var (w, ops) := F.Step(n.cfg, n.ferry, a);
    FD.StepKeepsSeen(n.cfg, n.ferry, a);
    O.EnqueueAllEffect(n.box, ops);
    SameAccepted(s, s');
    forall op | op in n.box.log + ops && op.AckMsg?
      ensures IdAccepted(s', h, op.id)
    {
      if op in ops {
        AcksOnRecord(s, h, a, op);
      }
    }
  }

  /** What a ferry step leaves alone. */
  lemma FerryFrame(s: Sys, h: string, a: F.Action)
    requires Enabled(s, FerryStep(h, a))
    ensures var s' := FerryMoves(s, h, a);
            && h in s'.nodes && s'.nodes == s.nodes[h := s'.nodes[h]]
            && s'.hub == s.hub && s'.up == s.up && s'.early == s.early && s'.ackSent == s.ackSent
            && s.accepted <= s'.accepted
  {
    hide F.Step;
  }

  lemma FerryKeepsChain(s: Sys, h: string, a: F.Action)
    requires Chain(s) && Enabled(s, FerryStep(h, a))
    ensures Chain(FerryMoves(s, h, a))
  {
    hide Enabled;
    hide FerryMoves;
    hide NodeInv;
    hide IdAccepted;
    FerryNodeOk(s, h, a);
    FerryFrame(s, h, a);
    NodeStep(s, FerryMoves(s, h, a), h);
  }

  lemma AnnounceKeepsChain(s: Sys, a: Action)
    requires Chain(s) && a.Announce? && Enabled(s, a)
    ensures Chain(Step(s, a))
  {
    hide O.Inv;
    hide FD.SeenInv;
    hide IdAccepted;
    assert NodeInv(s, a.host);
    O.EnqueueAllEffect(s.nodes[a.host].box, [F.Announcement(a.projects)]);
    SameAccepted(s, Step(s, a));
    NodeStep(s, Step(s, a), a.host);
  }

  /** An outbox that stays in order with the same ops enqueued. */
  lemma BoxStepOk(s: Sys, s': Sys, h: string, a: O.Action<F.Op>)
    requires NodeInv(s, h) && h in s.nodes && !a.Enqueue? && O.Enabled(s.nodes[h].box, a)
    requires h in s'.nodes && s'.nodes[h] == s.nodes[h].(box := O.Step(s.nodes[h].box, a)) && s'.accepted == s.accepted
    ensures NodeInv(s', h)
  {
    hide O.Inv;
    hide FD.SeenInv;
    hide IdAccepted;
    O.StepKeepsInv(s.nodes[h].box, a);
    SameAccepted(s, s');
  }

  /** What a send puts in transit was queued, so an ack among it is for an accepted id. */
  lemma BeginKeepsChannel(s: Sys, h: string, on: Wire)
    requires ChannelInv(s) && Enabled(s, BeginSend(h, on)) && P.LinkOk(s, h, s.nodes[h].link)
    ensures ChannelInv(SendBegins(s, h, on))
  {
    var s', n := SendBegins(s, h, on), s.nodes[h];
    forall c, x | c in s'.up && x in s'.up[c] && x.AckMsg?
      ensures c < |s'.hub.owners| && (s'.hub.owners[c], x.id) in s'.ackSent
    {
      if c !in s.up || x !in s.up[c] {
        assert on == On(c) && x == n.box.log[n.box.queue[0]];
      }
    }
  }

  lemma BeginKeepsChain(s: Sys, h: string, on: Wire)
    requires Chain(s) && Enabled(s, BeginSend(h, on)) && P.LinkOk(s, h, s.nodes[h].link)
    ensures Chain(SendBegins(s, h, on))
  {
    hide O.Inv;
    hide FD.SeenInv;
    hide IdAccepted;
    hide ChannelInv;
    var s', n := SendBegins(s, h, on), s.nodes[h];
    assert NodeInv(s, h) && n.box.log[n.box.queue[0]] in n.box.log;
    BoxStepOk(s, s', h, O.BeginSend);
    BeginKeepsChannel(s, h, on);
    NodeStep(s, s', h);
  }

  lemma EndKeepsChain(s: Sys, h: string, closed: bool)
    requires Chain(s) && Enabled(s, EndSend(h, closed))
    ensures Chain(Step(s, EndSend(h, closed)))
  {
    hide NodeInv;
    hide IdAccepted;
    BoxStepOk(s, Step(s, EndSend(h, closed)), h, if closed then O.SendClosed else O.SendDone);
    NodeStep(s, Step(s, EndSend(h, closed)), h);
  }

  lemma LinkKeepsChain(s: Sys, a: Action)
    requires Chain(s) && (a.Welcome? || a.Disconnect?) && Enabled(s, a)
    ensures Chain(Step(s, a))
  {
    hide O.Inv;
    hide FD.SeenInv;
    hide IdAccepted;
    assert NodeInv(s, a.host);
    SameAccepted(s, Step(s, a));
    NodeStep(s, Step(s, a), a.host);
  }

  lemma FreshNodeOk(s: Sys, h: string)
    requires h in s.nodes && s.nodes[h] == FreshNode(s.nodes[h].cfg, s.nodes[h].ferry.h.clock)
    ensures NodeInv(s, h)
  {
  }

  lemma RestartKeepsChain(s: Sys, a: Action)
    requires Chain(s) && a.FerryRestart? && Enabled(s, a)
    ensures Chain(Step(s, a))
  {
    hide NodeInv;
    FreshNodeOk(Step(s, a), a.host);
    NodeStep(s, Step(s, a), a.host);
  }

  lemma HostKeepsChain(s: Sys, a: Action)
    requires Inv(s) && Enabled(s, a)
    requires !a.Hello? && !a.Dial? && !a.Foreign? && !a.HubReceive? && !a.HubSend? && !a.HubAlone?
    ensures Chain(Step(s, a))
  {
    match a {
      case Welcome(_, _) => LinkKeepsChain(s, a);
      case Disconnect(_) => LinkKeepsChain(s, a);
      case FerryStep(h, fa) => FerryKeepsChain(s, h, fa);
      case Announce(_, _) => AnnounceKeepsChain(s, a);
      case BeginSend(h, on) =>
        assert P.NodeOk(s, h);
        BeginKeepsChain(s, h, on);
      case EndSend(h, closed) => EndKeepsChain(s, h, closed);
      case FerryRestart(_, _) => RestartKeepsChain(s, a);
    }
  }

  lemma WireKeepsInv(s: Sys, a: Action)
    requires Inv(s) && (a.Dial? || a.Foreign?) && Enabled(s, a)
    ensures Inv(Step(s, a))
  {
    hide P.Inv;
    P.UpKeepsInv(s, Step(s, a));
    OffStage(s, Step(s, a));
  }

  lemma StepKeepsInv(s: Sys, a: Action)
    requires Inv(s) && Enabled(s, a)
    ensures Inv(Step(s, a))
  {
    hide P.Inv;
    hide Chain;
    match a {
      case Dial(_) => WireKeepsInv(s, a);
      case Foreign(_, _) => WireKeepsInv(s, a);
      case Hello(_, _, _) => HelloKeepsInv(s, a);
      case HubReceive(_, _, _) => ReceiveKeepsInv(s, a);
      case HubSend(_, _, _) => SendKeepsInv(s, a);
      case HubAlone(ha) => HubKeepsInv(s, ha);
      case _ =>
        P.StepKeepsInv(s, a);
        HostKeepsChain(s, a);
    }
  }

  lemma InitialInv(s: Sys)
    requires Initial(s)
    ensures Inv(s)
  {
    P.InitialInv(s);
    forall h
      ensures NodeInv(s, h)
    {
      if h in s.nodes {
        FreshNodeOk(s, h);
      }
    }
  }

  lemma {:induction false} EveryState(ss: seq<Sys>, acts: seq<Action>, k: nat)
    requires IsRun(ss, acts) && k < |ss|
    ensures Inv(ss[k])
  {
    if k == 0 {
      InitialInv(ss[0]);
    } else {
      hide Inv;
      EveryState(ss, acts, k - 1);
      assert StepsTo(ss[k - 1], acts[k - 1], ss[k - 1 + 1]);
      StepKeepsInv(ss[k - 1], acts[k - 1]);
    }
  }

  /** The chain, in every reachable state: the hub holds an ack row of `h` for `id`
      only if that host wrote the ack to a connection of its own, which it does only
      for an id under which one of its sessions accepted a posted envelope. */
  lemma AckRowMeansAccepted(ss: seq<Sys>, acts: seq<Action>, k: nat, id: string, h: string)
    requires IsRun(ss, acts) && k < |ss| && (id, h) in ss[k].hub.store.acks
    ensures (h, id) in ss[k].ackSent
    ensures exists e :: (h, e) in ss[k].accepted && e.msgId == id && e in ss[k].posted
  {
    EveryState(ss, acts, k);
    var s := ss[k];
    assert IdAccepted(s, h, id);
    var e :| (h, e) in s.accepted && e.msgId == id;
    assert P.AtHost(s, (h, e).1, (h, e).0);
  }

  // ---- what becomes of a stored row ----

  /** The hub holds at least as many newer rows of the project as the cap allows. */
  ghost predicate CrowdedOut(s: Sys, e: Envelope) {
    |M.Above(M.Rows(s.hub.store), e)| >= s.hub.cap
  }

  /** A put deletes only what then has a full project above it. */
  lemma PostKeepsRow(hub: H.Hub, a: H.Action, e: Envelope)
    requires HL.HubInv(hub) && a.Post? && H.Enabled(hub, a)
    requires e in M.Rows(hub.store) || e in Inserted(hub, a)
    ensures var rows := M.Rows(H.Step(hub, a).store);
            e in rows || |M.Above(rows, e)| >= hub.cap
  {
    if Valid(a.env) {
      var all := M.Rows(hub.store) + {a.env};
      if a.env.msgId in hub.store.messages {
        ML.PutStoredIsNoOp(hub.store, a.env, hub.cap);
      } else {
        ML.InsertAddsRow(hub.store, a.env);
        ML.KeyedRows(M.Insert(hub.store, a.env));
        ML.PutKeepsNewest(hub.store, a.env, hub.cap);
        if |M.Above(all, e)| >= hub.cap {
          ML.CutIsFull(all, hub.cap, e);
        }
      }
    }
  }

  lemma HubKeepsRow(s: Sys, a: H.Action, e: Envelope)
    requires HL.HubInv(s.hub) && H.Enabled(s.hub, a)
    requires e in M.Rows(s.hub.store) || e in Inserted(s.hub, a)
    ensures var s' := HubMoves(s, a);
            e in M.Rows(s'.hub.store) || ExpiresAt(e) <= s'.hub.clock || CrowdedOut(s', e)
  {
    match a {
      case Post(_, env, _) => PostKeepsRow(s.hub, a, e);
      case SweepAll => ML.RowsAfterDelete(s.hub.store, M.Expired(s.hub.store, s.hub.clock), e);
      case AckMsg(c, id) => assert M.Rows(M.Ack(s.hub.store, id, s.hub.handlers[c].host)) == M.Rows(s.hub.store);
      case _ =>
    }
  }

  lemma RowIfStored(s: Sys, a: H.Action, e: Envelope)
    requires HL.HubInv(s.hub) && H.Enabled(s.hub, a)
    requires e in s.stored ==> e in M.Rows(s.hub.store)
    ensures var s' := HubMoves(s, a);
            e in s'.stored ==>
              e in M.Rows(s'.hub.store) || ExpiresAt(e) <= s'.hub.clock || CrowdedOut(s', e)
  {
    hide H.Step;
    hide HL.HubInv;
    if e in HubMoves(s, a).stored {
      HubKeepsRow(s, a, e);
    }
  }

  lemma FerryStoresNothing(s: Sys, a: Action)
    requires Enabled(s, a)
    ensures a.FerryStep? ==> Step(s, a).stored == s.stored && Step(s, a).hub == s.hub
    ensures a.BeginSend? ==> Step(s, a).stored == s.stored && Step(s, a).hub == s.hub
  {
    hide F.Step;
  }

  /** One step of the whole: a row that is there, or is stored by the step, stays, or has
      expired, or is crowded out there and then. The clock does not go back. */
  lemma StepKeepsRow(s: Sys, a: Action, e: Envelope)
    requires HL.HubInv(s.hub) && Enabled(s, a)
    requires e in s.stored ==> e in M.Rows(s.hub.store)
    ensures var s' := Step(s, a);
            e in s'.stored ==>
              e in M.Rows(s'.hub.store) || ExpiresAt(e) <= s'.hub.clock || CrowdedOut(s', e)
  {
    hide HL.HubInv;
    hide FerryMoves;
    hide SendBegins;
    FerryStoresNothing(s, a);
    match a {
      case Hello(h, projects, drain) => RowIfStored(s, H.Register(h, projects, drain), e);
      case HubReceive(c, drain, order) =>
        if !EmptyAck(s, c) {
          RowIfStored(s.(up := s.up[c := Frames(s.up, c)[1..]]), Received(s, c, drain, order), e);
        }
      case HubSend(c, closed, _) => RowIfStored(s, H.SendHead(c, closed), e);
      case HubAlone(ha) => RowIfStored(s, ha, e);
      case _ =>
    }
  }

  lemma ClockGoesOn(s: Sys, a: Action)
    requires Enabled(s, a)
    ensures s.hub.clock <= Step(s, a).hub.clock
  {
    hide F.Step;
    hide O.Step;
    hide O.EnqueueAll;
    hide M.Put;
  }

  /** In some state from its storing up to the `k`-th, the project was full of rows newer
      than `e`. */
  ghost predicate CrowdedBy(ss: seq<Sys>, k: nat, e: Envelope)
    requires k < |ss|
  {
    exists j: nat :: j <= k && e in ss[j].stored && CrowdedOut(ss[j], e)
  }

  lemma {:induction false} StoredStays(ss: seq<Sys>, acts: seq<Action>, k: nat, e: Envelope)
    requires IsRun(ss, acts) && k < |ss| && e in ss[k].stored
    ensures e in M.Rows(ss[k].hub.store) || ExpiresAt(e) <= ss[k].hub.clock || CrowdedBy(ss, k, e)
  {
    hide Step;
    hide Enabled;
    hide P.Inv;
    if k > 0 {
      var s, s' := ss[k - 1], ss[k - 1 + 1];
      assert StepsTo(s, acts[k - 1], s');
      P.EveryState(ss, acts, k - 1);
      ClockGoesOn(s, acts[k - 1]);
      if e in s.stored {
        StoredStays(ss, acts, k - 1, e);
      }
      if e in s.stored && e !in M.Rows(s.hub.store) {
        if CrowdedBy(ss, k - 1, e) {
          var j: nat :| j <= k - 1 && e in ss[j].stored && CrowdedOut(ss[j], e);
        }
      } else {
        P.HubHolds(s);
        StepKeepsRow(s, acts[k - 1], e);
      }
    }
  }

  /** Still handed out to `h`, or expired, or since its storing crowded out at one moment
      by as many newer rows of its project as the cap allows. */
  ghost predicate PendingOrDue(ss: seq<Sys>, k: nat, e: Envelope, h: string, projects: set<string>)
    requires k < |ss|
  {
    || e in M.Pending(ss[k].hub.store, h, projects, ss[k].hub.clock)
    || ExpiresAt(e) <= ss[k].hub.clock
    || CrowdedBy(ss, k, e)
  }

  /** No loss by id, in every reachable state and with links, ferries and the hub failing
      anywhere: for an envelope once stored and every host it is addressed to, some
      envelope posted under its id was accepted by a session there, or it is still
      handed out to that host, or it has expired, or there was a moment at which the hub
      held it no more for as many newer envelopes of its project as the cap allows. */
  lemma NoIdIsLost(ss: seq<Sys>, acts: seq<Action>, k: nat, e: Envelope, h: string, projects: set<string>)
    requires IsRun(ss, acts) && k < |ss|
    requires e in ss[k].stored && M.Addressed(e, h, projects)
    ensures (exists x :: (h, x) in ss[k].accepted && x.msgId == e.msgId && x in ss[k].posted)
            || PendingOrDue(ss, k, e, h, projects)
  {
    StoredStays(ss, acts, k, e);
    if (e.msgId, h) in ss[k].hub.store.acks {
      AckRowMeansAccepted(ss, acts, k, e.msgId, h);
    }
  }

  /** No loss: where nothing else was posted under its id, it is that very envelope
      which was accepted. */
  lemma NothingIsLost(ss: seq<Sys>, acts: seq<Action>, k: nat, e: Envelope, h: string, projects: set<string>)
    requires IsRun(ss, acts) && k < |ss|
    requires e in ss[k].stored && M.Addressed(e, h, projects)
    requires forall x :: x in ss[k].posted && x.msgId == e.msgId ==> x == e
    ensures (h, e) in ss[k].accepted || PendingOrDue(ss, k, e, h, projects)
  {
    NoIdIsLost(ss, acts, k, e, h, projects);
  }

  /** While an envelope is pending for a host that is connected, a deliver of it on that
      connection has begun or is on a list for it. */
  lemma PendingIsUnderWay(ss: seq<Sys>, acts: seq<Action>, k: nat, e: Envelope, h: string)
    requires IsRun(ss, acts) && k < |ss| && h in ss[k].hub.conns
    ensures var hub := ss[k].hub;
            && hub.conns[h] in hub.handlers
            && (e in M.Pending(hub.store, h, hub.handlers[hub.conns[h]].projects, hub.clock)
                ==> HL.Covered(hub, hub.conns[h], e))
  {
    EveryState(ss, acts, k);
  }
}
