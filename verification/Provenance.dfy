/** Where delivers come from: whatever is on a list, in transit, offered or accepted was
    posted to the hub and is addressed to the host it is with. */
module Provenance {
  import opened Prelude
  import opened Envelopes
  import M = MailboxModel
  import ML = MailboxLaws
  import H = HubModel
  import HL = HubLaws
  import F = FerryModel
  import opened SystemModel

  /** What a host may receive: what names it, and fan-outs that others posted. */
  predicate MayReceive(e: Envelope, h: string) {
    match e.target
    case ToHost(host, _) => host == h
    case ToProject(_) => e.originHost != h
  }

  /** `e` may be with the host of connection `c`. */
  ghost predicate OnConnection(s: Sys, e: Envelope, c: nat) {
    c < |s.hub.owners| && e in s.posted && MayReceive(e, s.hub.owners[c])
  }

  ghost predicate ListsOk(s: Sys) {
    forall c, x :: c in s.hub.handlers && x in s.hub.handlers[c].todo ==> OnConnection(s, x.env, x.conn)
  }

  ghost predicate DownOk(s: Sys) {
    forall c, e :: c in s.down && e in s.down[c] ==> OnConnection(s, e, c)
  }

  ghost predicate AtHost(s: Sys, e: Envelope, h: string) {
    e in s.posted && MayReceive(e, h)
  }

  ghost predicate LinkOk(s: Sys, h: string, link: Option<nat>) {
    link.Some? ==> link.value < |s.hub.owners| && s.hub.owners[link.value] == h
  }

  ghost predicate FerryOk(s: Sys, h: string, w: F.World) {
    && (w.f.inflight.Some? ==> AtHost(s, w.f.inflight.value.env, h))
    && (forall k :: 0 <= k < |w.h.offers| ==> AtHost(s, w.h.offers[k].env, h))
    && (forall k :: 0 <= k < |w.h.acceptances| ==> AtHost(s, w.h.acceptances[k].env, h))
  }

  ghost predicate NodeOk(s: Sys, h: string) {
    h in s.nodes ==> LinkOk(s, h, s.nodes[h].link) && FerryOk(s, h, s.nodes[h].ferry)
  }

  ghost predicate RecordOk(s: Sys) {
    && (forall p :: p in s.accepted ==> AtHost(s, p.1, p.0))
    && (forall p :: p in s.heard ==> AtHost(s, p.1.env, p.0))
  }

  ghost predicate Inv(s: Sys) {
    && HL.HubInv(s.hub)
    && M.Rows(s.hub.store) <= s.stored <= s.posted
    && ListsOk(s) && DownOk(s) && RecordOk(s)
    && forall h :: NodeOk(s, h)
  }

  lemma HubHolds(s: Sys)
    requires Inv(s)
    ensures HL.HubInv(s.hub)
  {
  }

  // ---- steps of the hub ----

  lemma HubKeepsOwners(hub: H.Hub, a: H.Action)
    requires H.Enabled(hub, a)
    ensures hub.owners <= H.Step(hub, a).owners
  {
  }

  lemma RowsComeFromPosts(hub: H.Hub, a: H.Action)
    requires HL.HubInv(hub) && H.Enabled(hub, a)
    ensures M.Rows(H.Step(hub, a).store) <= M.Rows(hub.store) + Inserted(hub, a)
  {
    match a {
      case Post(_, env, _) =>
        if Valid(env) && env.msgId !in hub.store.messages {
          ML.InsertAddsRow(hub.store, env);
        }
      case _ =>
    }
  }

  lemma DrainedMayReceive(s: Sys, h: string, projects: set<string>, drain: seq<Envelope>, c: nat, x: H.Send)
    requires Inv(s) && M.Listing(drain, M.Pending(s.hub.store, h, projects, s.hub.clock)) && x in H.Aim(c, drain)
    ensures x.conn == c && x.env in s.posted && MayReceive(x.env, h)
  {
    hide HL.HubInv;
    assert x.env in Members(drain);
  }

  /** An entry of a list after a step was there before, or is a row drained to the
      connection it was drained for, or is the post pushed to a recipient. */
  lemma NewEntry(s: Sys, a: H.Action, c: nat, x: H.Send)
    requires Inv(s) && H.Enabled(s.hub, a)
    requires c in H.Step(s.hub, a).handlers && x in H.Step(s.hub, a).handlers[c].todo
    ensures OnConnection(HubMoves(s, a), x.env, x.conn)
  {
    hide M.Put;
    hide M.Pending;
    hide M.Listing;
    hide HL.NoMissedWakeup;
    hide NodeOk;
    hide RecordOk;
    hide DownOk;
    HubKeepsOwners(s.hub, a);
    if c in s.hub.handlers && x in s.hub.handlers[c].todo {
      assert OnConnection(s, x.env, x.conn);
    } else {
      match a {
        case Register(host, projects, drain) => DrainedMayReceive(s, host, projects, drain, |s.hub.owners|, x);
        case Announce(d, projects, drain) => DrainedMayReceive(s, s.hub.owners[d], projects, drain, d, x);
        case Post(_, env, order) => RecipientMayReceive(s.hub, a, x);
        case _ =>
      }
    }
  }

  lemma RecipientMayReceive(hub: H.Hub, a: H.Action, x: H.Send)
    requires HL.TableExact(hub) && a.Post? && H.Enabled(hub, a) && x in H.Fan(a.order, a.env)
    ensures x.env == a.env && x.conn < |hub.owners| && MayReceive(a.env, hub.owners[x.conn])
  {
    assert x.conn in Members(a.order);
  }

  lemma HubKeepsInv(s: Sys, a: H.Action)
    requires Inv(s) && H.Enabled(s.hub, a)
    ensures Inv(HubMoves(s, a))
  {
    var s' := HubMoves(s, a);
    HL.StepKeepsInv(s.hub, a);
    HubKeepsOwners(s.hub, a);
    RowsComeFromPosts(s.hub, a);
    forall c, x | c in s'.hub.handlers && x in s'.hub.handlers[c].todo
      ensures OnConnection(s', x.env, x.conn)
    {
      NewEntry(s, a, c, x);
    }
    hide H.Step;
    hide HL.HubInv;
    Grows(s, s');
  }

  /** More posts and more connections invalidate nothing. */
  lemma Grows(s: Sys, s': Sys)
    requires DownOk(s) && RecordOk(s) && forall h :: NodeOk(s, h)
    requires s'.nodes == s.nodes && s'.down == s.down && s'.accepted == s.accepted && s'.heard == s.heard
    requires s.posted <= s'.posted && s.hub.owners <= s'.hub.owners
    ensures DownOk(s') && RecordOk(s') && forall h :: NodeOk(s', h)
  {
    forall h
      ensures NodeOk(s', h)
    {
      assert NodeOk(s, h);
    }
  }

  /** The frames on their way up, and who wrote them, are not looked at. */
  lemma UpKeepsInv(s: Sys, s': Sys)
    requires Inv(s) && s' == s.(up := s'.up, early := s'.early, foreign := s'.foreign)
    ensures Inv(s')
  {
    hide HL.HubInv;
    forall h
      ensures NodeOk(s', h)
    {
      assert NodeOk(s, h);
    }
  }

  lemma DownKeepsInv(s: Sys, down: map<nat, seq<Envelope>>)
    requires Inv(s) && DownOk(s.(down := down))
    ensures Inv(s.(down := down))
  {
    hide HL.HubInv;
    forall h
      ensures NodeOk(s.(down := down), h)
    {
      assert NodeOk(s, h);
    }
  }

  lemma ReceiveKeepsInv(s: Sys, a: Action)
    requires Inv(s) && a.HubReceive? && Enabled(s, a)
    ensures Inv(Step(s, a))
  {
    var s1 := s.(up := s.up[a.conn := Frames(s.up, a.conn)[1..]]);
    UpKeepsInv(s, s1);
    if !EmptyAck(s, a.conn) {
      HubKeepsInv(s1, Received(s, a.conn, a.drain, a.order));
    }
  }

  lemma HelloKeepsInv(s: Sys, a: Action)
    requires Inv(s) && a.Hello? && Enabled(s, a)
    ensures Inv(Step(s, a))
  {
    HubKeepsInv(s, H.Register(a.host, a.projects, a.drain));
    UpKeepsInv(HubMoves(s, H.Register(a.host, a.projects, a.drain)), Step(s, a));
  }

  lemma SendKeepsInv(s: Sys, a: Action)
    requires Inv(s) && a.HubSend? && Enabled(s, a)
    ensures Inv(Step(s, a))
  {
    var x := s.hub.handlers[a.conn].todo[0];
    var down := if a.written then s.down[x.conn := Frames(s.down, x.conn) + [x.env]] else s.down;
    assert OnConnection(s, x.env, x.conn);
    DownKeepsInv(s, down);
    HubKeepsInv(s.(down := down), H.SendHead(a.conn, a.closed));
  }

  // ---- steps of a host ----

  /** Replacing one host's record, and perhaps its acceptances and a list in transit. */
  lemma NodeStep(s: Sys, s': Sys, h: string)
    requires Inv(s) && h in s'.nodes && s'.nodes == s.nodes[h := s'.nodes[h]]
    requires s'.hub == s.hub && s'.posted == s.posted && s'.stored == s.stored
    requires NodeOk(s', h) && DownOk(s') && RecordOk(s')
    ensures Inv(s')
  {
    hide HL.HubInv;
    forall g
      ensures NodeOk(s', g)
    {
      assert NodeOk(s, g);
    }
  }

  lemma FerryStepOk(cfg: F.Config, w: F.World, a: F.Action, s: Sys, h: string)
    requires F.Enabled(w, a) && FerryOk(s, h, w) && (a.Delivery? ==> AtHost(s, a.env, h))
    ensures FerryOk(s, h, F.Step(cfg, w, a).0)
  {
    hide F.Unqueue;
    hide F.Enqueue;
    hide F.NextPending;
    hide F.PinReply;
    hide F.Candidates;
    hide F.Unpin;
    hide AtHost;
  }

  lemma FerryKeepsInv(s: Sys, h: string, a: F.Action)
    requires Inv(s) && Enabled(s, FerryStep(h, a))
    ensures Inv(FerryMoves(s, h, a))
  {
    hide HL.HubInv;
    hide F.Step;
    assert NodeOk(s, h);
    var s', n := FerryMoves(s, h, a), s.nodes[h];
    if a.Delivery? {
      assert a.env in s.down[n.link.value];
      assert OnConnection(s, a.env, n.link.value);
    }
    FerryStepOk(n.cfg, n.ferry, a, s, h);
    assert FerryOk(s', h, s'.nodes[h].ferry);
    assert RecordOk(s');
    DownShrinks(s, s');
    NodeStep(s, s', h);
  }

  /** Taking frames off a link leaves what is left in its place. */
  lemma DownShrinks(s: Sys, s': Sys)
    requires DownOk(s) && s'.hub.owners == s.hub.owners && s'.posted == s.posted
    requires forall c, e :: c in s'.down && e in s'.down[c] ==> e in Frames(s.down, c)
    ensures DownOk(s')
  {
    forall c, e | c in s'.down && e in s'.down[c]
      ensures OnConnection(s', e, c)
    {
      assert OnConnection(s, e, c);
    }
  }

  /** A host whose ferry is left alone, or started afresh. */
  lemma NodeSwap(s: Sys, s': Sys, h: string)
    requires Inv(s) && h in s.nodes && h in s'.nodes && LinkOk(s, h, s'.nodes[h].link)
    requires s' == s.(nodes := s.nodes[h := s'.nodes[h]], up := s'.up, early := s'.early, ackSent := s'.ackSent)
    requires s'.nodes[h].ferry == s.nodes[h].ferry || s'.nodes[h].ferry == F.Start(s'.nodes[h].ferry.h.clock)
    ensures Inv(s')
  {
    hide HL.HubInv;
    hide AtHost;
    SamePosts(s, s');
    assert NodeOk(s, h);
    NodeStep(s, s', h);
  }

  lemma SamePosts(s: Sys, s': Sys)
    requires s'.posted == s.posted
    ensures forall e, g :: AtHost(s', e, g) == AtHost(s, e, g)
  {
  }

  lemma OtherKeepsInv(s: Sys, a: Action)
    requires Inv(s) && Enabled(s, a)
    requires a.Welcome? || a.Disconnect? || a.Announce? || a.BeginSend? || a.EndSend? || a.FerryRestart?
    ensures Inv(Step(s, a))
  {
    hide HL.HubInv;
    hide DownOk;
    hide RecordOk;
    hide FerryOk;
    assert NodeOk(s, a.host);
    NodeSwap(s, Step(s, a), a.host);
  }

  lemma StepKeepsInv(s: Sys, a: Action)
    requires Inv(s) && Enabled(s, a)
    ensures Inv(Step(s, a))
  {
    hide Inv;
    match a {
      case Dial(_) => UpKeepsInv(s, Step(s, a));
      case Foreign(_, _) => UpKeepsInv(s, Step(s, a));
      case Hello(_, _, _) => HelloKeepsInv(s, a);
      case FerryStep(h, fa) => FerryKeepsInv(s, h, fa);
      case HubReceive(_, _, _) => ReceiveKeepsInv(s, a);
      case HubSend(_, _, _) => SendKeepsInv(s, a);
      case HubAlone(ha) => HubKeepsInv(s, ha);
      case _ => OtherKeepsInv(s, a);
    }
  }

  lemma InitialInv(s: Sys)
    requires Initial(s)
    ensures Inv(s)
  {
  }

  lemma {:induction false} EveryState(ss: seq<Sys>, acts: seq<Action>, k: nat)
    requires IsRun(ss, acts) && k < |ss|
    ensures Inv(ss[k]) && M.Rows(ss[k].hub.store) <= ss[k].posted
  {
    if k == 0 {
      InitialInv(ss[0]);
    } else {
      EveryState(ss, acts, k - 1);
      assert StepsTo(ss[k - 1], acts[k - 1], ss[k - 1 + 1]);
      StepKeepsInv(ss[k - 1], acts[k - 1]);
    }
  }

  /** No host is handed what is not for it: in every reachable state, what is in transit
      to it, suspended in an inject, ever offered to a session there or ever accepted by
      one is an envelope that was posted to the hub and either names the host or is a
      fan-out from another host. */
  lemma OfferedIsAddressed(ss: seq<Sys>, acts: seq<Action>, k: nat, e: Envelope, h: string)
    requires IsRun(ss, acts) && k < |ss|
    requires var s := ss[k];
             || (exists c: nat :: c in s.down && e in s.down[c] && c < |s.hub.owners| && s.hub.owners[c] == h)
             || (h in s.nodes && s.nodes[h].ferry.f.inflight.Some? && s.nodes[h].ferry.f.inflight.value.env == e)
             || (h in s.nodes && exists i :: 0 <= i < |s.nodes[h].ferry.h.offers| && s.nodes[h].ferry.h.offers[i].env == e)
             || (exists o :: (h, o) in s.heard && o.env == e)
             || (h, e) in s.accepted
    ensures e in ss[k].posted && MayReceive(e, h)
  {
    EveryState(ss, acts, k);
    assert NodeOk(ss[k], h);
    if o :| (h, o) in ss[k].heard && o.env == e {
      assert AtHost(ss[k], (h, o).1.env, (h, o).0);
    } else if (h, e) in ss[k].accepted {
      assert AtHost(ss[k], (h, e).1, (h, e).0);
    }
  }
}
