/** Questions and answers across hosts: an answer that a session is offered under a pin
    comes from a socket to which the very question was offered, at the host it was for. */
module Conversations {
  import opened Prelude
  import opened Envelopes
  import H = HubModel
  import F = FerryModel
  import FP = FerryPins
  import FQ = FerryQueues
  import O = OutboxModel
  import P = Provenance
  import opened SystemModel

  /** Some ferry posted `e` for a session. */
  ghost predicate Said(s: Sys, e: Envelope) {
    exists h, p :: (h, p) in s.spoken && p.env == e
  }

  /** Where an envelope can come from: a ferry, or another client of the hub. */
  ghost predicate Known(s: Sys, e: Envelope) {
    Said(s, e) || e in s.foreign
  }

  /** At host `h`, the message `id` was posted for the session `sid`. */
  ghost predicate Asked(s: Sys, h: string, id: string, sid: string) {
    exists p :: (h, p) in s.spoken && p.env.msgId == id && p.sid == Some(sid)
  }

  /** At host `h`, a message under `id` was offered on `sock`. */
  ghost predicate Offered(s: Sys, h: string, sock: string, id: string) {
    exists o :: (h, o) in s.heard && o.sock == sock && o.env.msgId == id
  }

  /** A message posted for a session cites nothing that was not offered on its socket. */
  ghost predicate AnswersWhatItHeard(s: Sys, h: string, p: F.Posted) {
    FQ.Cites(p) ==> Offered(s, h, p.sock, p.env.origMsgId.value)
  }

  /** An offer made under a pin is of a reply to it, and made to the asker. */
  ghost predicate OfferedToAsker(s: Sys, h: string, o: F.OfferMade) {
    o.pin.Some? ==>
      && o.env.mtype == "reply" && o.env.origMsgId == o.pin
      && o.target.sessionId.Some? && Asked(s, h, o.pin.value, o.target.sessionId.value)
  }

  ghost predicate FerryTalk(s: Sys, h: string, w: F.World) {
    && FP.PinInv(w) && FQ.Fifo(w)
    && HeardBy(h, w) <= s.heard && SpokenBy(h, w) <= s.spoken
  }

  ghost predicate BoxTalk(s: Sys, log: seq<F.Op>) {
    forall op :: op in log && op.PostMsg? ==> Known(s, op.env)
  }

  ghost predicate NodeTalk(s: Sys, h: string) {
    h in s.nodes ==> FerryTalk(s, h, s.nodes[h].ferry) && BoxTalk(s, s.nodes[h].box.log)
  }

  ghost predicate WireTalk(s: Sys) {
    && (forall c :: c in s.up ==> BoxTalk(s, s.up[c]))
    && (forall h :: h in s.early ==> BoxTalk(s, s.early[h]))
  }

  ghost predicate HubTalk(s: Sys) {
    forall e :: e in s.posted ==> Known(s, e)
  }

  ghost predicate Histories(s: Sys) {
    && (forall x :: x in s.spoken ==> AnswersWhatItHeard(s, x.0, x.1))
    && (forall x :: x in s.heard ==> OfferedToAsker(s, x.0, x.1))
  }

  ghost predicate Inv(s: Sys) {
    HubTalk(s) && WireTalk(s) && Histories(s) && forall h :: NodeTalk(s, h)
  }

  // ---- what one ferry's record says ----

  lemma {:induction false} CitedIsCollected(posts: seq<F.Posted>, p: F.Posted)
    requires p in posts && FQ.Cites(p)
    ensures p.env.origMsgId.value in FQ.CitedBy(posts, p.sock)
  {
    var n := |posts| - 1;
    if p in posts[..n] {
      CitedIsCollected(posts[..n], p);
    } else {
      assert posts == posts[..n] + [posts[n]];
      assert posts[n] == p;
    }
  }

  lemma {:induction false} CollectedWasOffered(offers: seq<F.OfferMade>, sock: string, id: string) returns (k: nat)
    requires id in FQ.OfferedTo(offers, sock)
    ensures k < |offers| && offers[k].sock == sock && offers[k].env.msgId == id
  {
    var n := |offers| - 1;
    if id in FQ.OfferedTo(offers[..n], sock) {
      k := CollectedWasOffered(offers[..n], sock, id);
    } else {
      k := n;
    }
  }

  lemma CitedWasOffered(w: F.World, p: F.Posted) returns (k: nat)
    requires FQ.Fifo(w) && p in w.h.posts && FQ.Cites(p)
    ensures k < |w.h.offers| && w.h.offers[k].sock == p.sock && Some(w.h.offers[k].env.msgId) == p.env.origMsgId
  {
    var id, cited := p.env.origMsgId.value, FQ.CitedBy(w.h.posts, p.sock);
    CitedIsCollected(w.h.posts, p);
    var all := cited + F.Queue(w.f.pending, p.sock);
    var at := SubseqPositions(all, FQ.OfferedTo(w.h.offers, p.sock));
    var i :| 0 <= i < |cited| && cited[i] == id;
    assert all[i] == id;
    k := CollectedWasOffered(w.h.offers, p.sock, id);
  }

  /** What a ferry's record holds meets the laws of the histories. */
  lemma RecordsAgree(s: Sys, h: string, w: F.World)
    requires FerryTalk(s, h, w)
    ensures forall x :: x in SpokenBy(h, w) ==> AnswersWhatItHeard(s, x.0, x.1)
    ensures forall x :: x in HeardBy(h, w) ==> OfferedToAsker(s, x.0, x.1)
  {
    forall x | x in SpokenBy(h, w)
      ensures AnswersWhatItHeard(s, x.0, x.1)
    {
      if FQ.Cites(x.1) {
        var k := CitedWasOffered(w, x.1);
        assert (h, w.h.offers[k]) in HeardBy(h, w);
      }
    }
    forall x | x in HeardBy(h, w)
      ensures OfferedToAsker(s, x.0, x.1)
    {
      var k :| 0 <= k < |w.h.offers| && x == (h, w.h.offers[k]);
      if x.1.pin.Some? {
        AuthorAsked(s, h, w, x.1);
      }
    }
  }

  lemma AuthorAsked(s: Sys, h: string, w: F.World, o: F.OfferMade)
    requires SpokenBy(h, w) <= s.spoken && o.pin.Some? && FP.ForAsker(w.h.posts, o.env, o.target, o.pin)
    ensures OfferedToAsker(s, h, o)
  {
    var sid := o.target.sessionId.value;
    var i :| 0 <= i < |w.h.posts| && w.h.posts[i].env.msgId == o.pin.value && w.h.posts[i].sid == Some(sid);
    assert (h, w.h.posts[i]) in SpokenBy(h, w);
  }

  lemma PostsOnRecord(cfg: F.Config, w: F.World, a: F.Action, op: F.Op)
    requires F.Enabled(w, a) && op in F.Step(cfg, w, a).1 && op.PostMsg?
    ensures exists k :: 0 <= k < |F.Step(cfg, w, a).0.h.posts| && F.Step(cfg, w, a).0.h.posts[k].env == op.env
  {
    var w' := F.Step(cfg, w, a).0;
    assert w'.h.posts[|w.h.posts|].env == op.env;
  }

  // ---- steps ----

  /** The histories only grow, and what they say stays said. */
  lemma HistoriesGrow(s: Sys, s': Sys)
    requires s.heard <= s'.heard && s.spoken <= s'.spoken && s.foreign <= s'.foreign
    ensures forall e :: Known(s, e) ==> Known(s', e)
    ensures forall h, p :: AnswersWhatItHeard(s, h, p) ==> AnswersWhatItHeard(s', h, p)
    ensures forall h, o :: OfferedToAsker(s, h, o) ==> OfferedToAsker(s', h, o)
  {
    forall e | Said(s, e)
      ensures Said(s', e)
    {
      var h, p :| (h, p) in s.spoken && p.env == e;
      assert (h, p) in s'.spoken;
    }
    forall h, id, sid | Asked(s, h, id, sid)
      ensures Asked(s', h, id, sid)
    {
      var p :| (h, p) in s.spoken && p.env.msgId == id && p.sid == Some(sid);
      assert (h, p) in s'.spoken;
    }
    forall h, sock, id | Offered(s, h, sock, id)
      ensures Offered(s', h, sock, id)
    {
      var o :| (h, o) in s.heard && o.sock == sock && o.env.msgId == id;
      assert (h, o) in s'.heard;
    }
  }

  /** Hosts not touched, and histories that have grown. */
  lemma NodesStay(s: Sys, s': Sys, g: string)
    requires NodeTalk(s, g) && (g in s'.nodes ==> g in s.nodes && s'.nodes[g] == s.nodes[g])
    requires s.heard <= s'.heard && s.spoken <= s'.spoken && s.foreign <= s'.foreign
    ensures NodeTalk(s', g)
  {
    hide Known;
    hide FP.PinInv;
    hide FQ.Fifo;
    HistoriesGrow(s, s');
  }

  /** A step of the hub, with the envelope it posts, if any, taken off the wire. */
  lemma HubKeepsInv(s: Sys, a: H.Action)
    requires Inv(s) && H.Enabled(s.hub, a) && (a.Post? ==> Known(s, a.env))
    ensures Inv(HubMoves(s, a))
  {
    hide H.Step;
    var s' := HubMoves(s, a);
    HistoriesGrow(s, s');
    forall h
      ensures NodeTalk(s', h)
    {
      NodesStay(s, s', h);
    }
    SameTalk(s, s');
    hide Known;
  }

  lemma SameTalk(s: Sys, s': Sys)
    requires s'.heard == s.heard && s'.spoken == s.spoken && s'.foreign == s.foreign
    ensures forall e :: Known(s', e) == Known(s, e)
    ensures forall log :: BoxTalk(s', log) == BoxTalk(s, log)
    ensures Histories(s') == Histories(s)
  {
    HistoriesGrow(s, s');
    HistoriesGrow(s', s);
    hide Known;
    hide AnswersWhatItHeard;
    hide OfferedToAsker;
  }

  /** Frames moved about, with known posts only among them. */
  lemma WireMoves(s: Sys, s': Sys)
    requires Inv(s) && s' == s.(up := s'.up, early := s'.early, down := s'.down, foreign := s'.foreign)
    requires s.foreign <= s'.foreign && WireTalk(s')
    ensures Inv(s')
  {
    hide WireTalk;
    hide Known;
    HistoriesGrow(s, s');
    forall h
      ensures NodeTalk(s', h)
    {
      NodesStay(s, s', h);
    }
  }

  lemma TailTalk(s: Sys, log: seq<F.Op>)
    requires BoxTalk(s, log) && log != []
    ensures BoxTalk(s, log[1..]) && (log[0].PostMsg? ==> Known(s, log[0].env))
  {
  }

  lemma ReceiveKeepsInv(s: Sys, a: Action)
    requires Inv(s) && a.HubReceive? && Enabled(s, a)
    ensures Inv(Step(s, a))
  {
    hide Known;
    var c := a.conn;
    var s1 := s.(up := s.up[c := Frames(s.up, c)[1..]]);
    TailTalk(s, s.up[c]);
    SameTalk(s, s1);
    WireMoves(s, s1);
    if !EmptyAck(s, c) {
      HubKeepsInv(s1, Received(s, c, a.drain, a.order));
    }
  }

  lemma SendKeepsInv(s: Sys, a: Action)
    requires Inv(s) && a.HubSend? && Enabled(s, a)
    ensures Inv(Step(s, a))
  {
    hide Known;
    var x := s.hub.handlers[a.conn].todo[0];
    var s1 := s.(down := if a.written then s.down[x.conn := Frames(s.down, x.conn) + [x.env]] else s.down);
    SameTalk(s, s1);
    WireMoves(s, s1);
    HubKeepsInv(s1, H.SendHead(a.conn, a.closed));
  }

  lemma HelloKeepsInv(s: Sys, a: Action)
    requires Inv(s) && a.Hello? && Enabled(s, a)
    ensures Inv(Step(s, a))
  {
    hide Known;
    var s1 := HubMoves(s, H.Register(a.host, a.projects, a.drain));
    HubKeepsInv(s, H.Register(a.host, a.projects, a.drain));
    SameTalk(s1, Step(s, a));
    WireMoves(s1, Step(s, a));
  }

  lemma DialKeepsInv(s: Sys, a: Action)
    requires Inv(s) && a.Dial? && Enabled(s, a)
    ensures Inv(Step(s, a))
  {
    hide Known;
    SameTalk(s, Step(s, a));
    WireMoves(s, Step(s, a));
  }

  lemma ForeignKeepsInv(s: Sys, a: Action)
    requires Inv(s) && a.Foreign? && Enabled(s, a)
    ensures Inv(Step(s, a))
  {
    var s' := Hands(s, a.conn, a.op);
    HistoriesGrow(s, s');
    WireMoves(s, s');
  }

  /** A host's step that leaves the histories and the frames alone. */
  lemma NodeStep(s: Sys, s': Sys, h: string)
    requires Inv(s) && h in s'.nodes && s'.nodes == s.nodes[h := s'.nodes[h]]
    requires s'.posted == s.posted && s.foreign == s'.foreign && s.heard <= s'.heard && s.spoken <= s'.spoken
    requires NodeTalk(s', h) && WireTalk(s') && Histories(s')
    ensures Inv(s')
  {
    hide Known;
    hide WireTalk;
    hide Histories;
    HistoriesGrow(s, s');
    forall g
      ensures NodeTalk(s', g)
    {
      if g != h {
        NodesStay(s, s', g);
      }
    }
  }

  lemma FerryNodeOk(s: Sys, h: string, a: F.Action)
    requires NodeTalk(s, h) && Enabled(s, FerryStep(h, a))
    ensures NodeTalk(FerryMoves(s, h, a), h)
  {
    var s', n := FerryMoves(s, h, a), s.nodes[h];
    var (w, ops) := F.Step(n.cfg, n.ferry, a);
    FP.StepKeepsPins(n.cfg, n.ferry, a);
    FQ.StepKeepsFifo(n.cfg, n.ferry, a);
    O.EnqueueAllLog(n.box, ops);
    HistoriesGrow(s, s');
    forall op | op in n.box.log + ops && op.PostMsg?
      ensures Known(s', op.env)
    {
      if op in ops {
        PostsOnRecord(n.cfg, n.ferry, a, op);
        var k :| 0 <= k < |w.h.posts| && w.h.posts[k].env == op.env;
        assert (h, w.h.posts[k]) in SpokenBy(h, w);
      }
    }
  }

  lemma FerryKeepsInv(s: Sys, h: string, a: F.Action)
    requires Inv(s) && Enabled(s, FerryStep(h, a))
    ensures Inv(FerryMoves(s, h, a))
  {
    hide F.Step;
    hide F.Enabled;
    hide Known;
    hide AnswersWhatItHeard;
    hide OfferedToAsker;
    hide FP.PinInv;
    hide FQ.Fifo;
    var s' := FerryMoves(s, h, a);
    FerryNodeOk(s, h, a);
    RecordsAgree(s', h, s'.nodes[h].ferry);
    HistoriesGrow(s, s');
    assert Histories(s');
    assert WireTalk(s');
    NodeStep(s, s', h);
  }

  lemma FreshTalks(s: Sys, h: string, cfg: F.Config, clock: int)
    ensures FerryTalk(s, h, FreshNode(cfg, clock).ferry) && BoxTalk(s, FreshNode(cfg, clock).box.log)
  {
    assert FQ.Fifo(F.Start(clock)) by {
      assert forall sock :: FQ.CitedBy([], sock) + F.Queue(map[], sock) == [];
    }
    assert F.Start(clock).f.pins.order == [] && Members<string>([]) == {};
    assert FP.PostIds([]) == [];
  }

  /** Steps of a host that say nothing new. */
  lemma QuietKeepsInv(s: Sys, a: Action)
    requires Inv(s) && Enabled(s, a)
    requires a.Welcome? || a.Disconnect? || a.Announce? || a.EndSend? || a.FerryRestart?
    ensures Inv(Step(s, a))
  {
    hide Known;
    hide FP.PinInv;
    hide FQ.Fifo;
    hide Histories;
    var s' := Step(s, a);
    SameTalk(s, s');
    assert NodeTalk(s, a.host);
    if a.Announce? {
      O.EnqueueAllLog(s.nodes[a.host].box, [F.Announcement(a.projects)]);
    } else if a.FerryRestart? {
      FreshTalks(s', a.host, s.nodes[a.host].cfg, a.clock);
    }
    NodeStep(s, s', a.host);
  }

  lemma BeginKeepsInv(s: Sys, h: string, on: Wire)
    requires Inv(s) && Enabled(s, BeginSend(h, on))
    ensures Inv(SendBegins(s, h, on))
  {
    hide Known;
    hide FP.PinInv;
    hide FQ.Fifo;
    hide Histories;
    var s', n := SendBegins(s, h, on), s.nodes[h];
    SameTalk(s, s');
    assert NodeTalk(s, h) && n.box.log[n.box.queue[0]] in n.box.log;
    NodeStep(s, s', h);
  }

  lemma StepKeepsInv(s: Sys, a: Action)
    requires Inv(s) && Enabled(s, a)
    ensures Inv(Step(s, a))
  {
    hide Inv;
    match a {
      case Dial(_) => DialKeepsInv(s, a);
      case Foreign(_, _) => ForeignKeepsInv(s, a);
      case Hello(_, _, _) => HelloKeepsInv(s, a);
      case FerryStep(h, fa) => FerryKeepsInv(s, h, fa);
      case BeginSend(h, on) => BeginKeepsInv(s, h, on);
      case HubReceive(_, _, _) => ReceiveKeepsInv(s, a);
      case HubSend(_, _, _) => SendKeepsInv(s, a);
      case HubAlone(ha) => HubKeepsInv(s, ha);
      case _ => QuietKeepsInv(s, a);
    }
  }

  lemma InitialInv(s: Sys)
    requires Initial(s)
    ensures Inv(s)
  {
    forall h
      ensures NodeTalk(s, h)
    {
      if h in s.nodes {
        FreshTalks(s, h, s.nodes[h].cfg, s.nodes[h].ferry.h.clock);
      }
    }
  }

  lemma {:induction false} EveryTalk(ss: seq<Sys>, acts: seq<Action>, k: nat)
    requires IsRun(ss, acts) && k < |ss|
    ensures Inv(ss[k])
    decreases k
  {
    hide Inv;
    if k == 0 {
      InitialInv(ss[0]);
    } else {
      EveryTalk(ss, acts, k - 1);
      assert StepsTo(ss[k - 1], acts[k - 1], ss[k - 1 + 1]);
      StepKeepsInv(ss[k - 1], acts[k - 1]);
    }
  }

  /** Correlation across hosts, in every reachable state: when a reply has been offered
      to a session under a pin, that session's messages include the one the reply cites;
      and unless the reply was handed in by another client, it was posted at some host
      from a socket on which a message under the cited id had been offered. */
  lemma AnswersComeFromTheAsked(ss: seq<Sys>, acts: seq<Action>, k: nat, a: string, o: F.OfferMade)
    requires IsRun(ss, acts) && k < |ss| && (a, o) in ss[k].heard && o.pin.Some?
    ensures o.target.sessionId.Some? && Asked(ss[k], a, o.pin.value, o.target.sessionId.value)
    ensures o.env.origMsgId == o.pin
    ensures o.env in ss[k].foreign
            || exists b, p :: (b, p) in ss[k].spoken && p.env == o.env && Offered(ss[k], b, p.sock, o.pin.value)
  {
    EveryTalk(ss, acts, k);
    P.OfferedIsAddressed(ss, acts, k, o.env, a);
    var s := ss[k];
    assert OfferedToAsker(s, (a, o).0, (a, o).1);
    assert Known(s, o.env);
    if o.env !in s.foreign {
      var b, p :| (b, p) in s.spoken && p.env == o.env;
      assert AnswersWhatItHeard(s, (b, p).0, (b, p).1);
    }
  }

  /** What was offered on a socket under `id` is the one envelope of that id, and the
      host is one it is for. */
  lemma OfferedIsTheOne(ss: seq<Sys>, acts: seq<Action>, k: nat, b: string, heard: F.OfferMade, q: F.Posted, a: string)
    requires IsRun(ss, acts) && k < |ss| && (b, heard) in ss[k].heard && (a, q) in ss[k].spoken
    requires heard.env.msgId == q.env.msgId
    requires forall d, e :: Known(ss[k], d) && Known(ss[k], e) && d.msgId == e.msgId == q.env.msgId ==> d == e
    ensures heard.env == q.env && P.MayReceive(q.env, b)
  {
    P.OfferedIsAddressed(ss, acts, k, heard.env, b);
    EveryTalk(ss, acts, k);
    assert Known(ss[k], heard.env) && Said(ss[k], q.env);
  }

  /** A conversation's turn: `q` is the asker's message at `a`, `p` the answer posted at
      `b`, and `heard` the offer of the question on the socket the answer came from. */
  ghost predicate Turn(s: Sys, a: string, q: F.Posted, b: string, heard: F.OfferMade, p: F.Posted) {
    && (a, q) in s.spoken && (b, heard) in s.heard && (b, p) in s.spoken
    && heard.env == q.env && P.MayReceive(q.env, b)
    && heard.sock == p.sock && p.env.origMsgId == Some(q.env.msgId)
  }

  /** Where the cited id names one envelope, it is the asker's very question that had been
      offered there, and the host of the answer is one the question was for. */
  lemma AnswerClosesTheTurn(ss: seq<Sys>, acts: seq<Action>, k: nat, a: string, o: F.OfferMade)
    requires IsRun(ss, acts) && k < |ss| && (a, o) in ss[k].heard && o.pin.Some? && o.env !in ss[k].foreign
    requires forall d, e :: Known(ss[k], d) && Known(ss[k], e) && d.msgId == e.msgId == o.pin.value ==> d == e
    ensures exists q, b, heard, p :: Turn(ss[k], a, q, b, heard, p)
                                     && q.env.msgId == o.pin.value && q.sid == o.target.sessionId && p.env == o.env
  {
    hide IsRun;
    hide Known;
    hide P.MayReceive;
    AnswersComeFromTheAsked(ss, acts, k, a, o);
    var s, id := ss[k], o.pin.value;
    var q :| (a, q) in s.spoken && q.env.msgId == id && q.sid == o.target.sessionId;
    var b, p :| (b, p) in s.spoken && p.env == o.env && Offered(s, b, p.sock, id);
    var heard :| (b, heard) in s.heard && heard.sock == p.sock && heard.env.msgId == id;
    OfferedIsTheOne(ss, acts, k, b, heard, q, a);
    assert Turn(s, a, q, b, heard, p);
  }
}
