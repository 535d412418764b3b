/** Delivery: at most one acceptance per window, acks only for what was accepted, and
    candidates tried in rank order. */
module FerryDelivery {
  import opened Prelude
  import opened Envelopes
  import opened Registry
  import opened Recent
  import D = Dedups
  import opened FerryModel

  /** The dedup records made: one per acceptance. */
  function Records(acceptances: seq<Acceptance>): seq<(string, int)> {
    seq(|acceptances|, i requires 0 <= i < |acceptances| => (acceptances[i].env.msgId, acceptances[i].recordedAt))
  }

  /** The latest check of `id` found no record within the window. */
  ghost predicate Unseen(h: History, id: string, window: int) {
    forall k :: 0 <= k < |h.acceptances| && h.acceptances[k].env.msgId == id
      ==> h.checkedAt - h.acceptances[k].recordedAt > window
  }

  /** Two acceptances of one id: the later one's check came more than `window` after
      the earlier one's record. */
  ghost predicate OncePerWindow(acceptances: seq<Acceptance>, window: int) {
    forall i, j :: 0 <= i < j < |acceptances| && acceptances[i].env.msgId == acceptances[j].env.msgId
      ==> acceptances[j].checkedAt - acceptances[i].recordedAt > window
  }

  ghost predicate DedupInv(cfg: Config, w: World) {
    && Agrees(w.f.seen, Records(w.h.acceptances), D.Span(cfg.window), w.h.clock)
    && OncePerWindow(w.h.acceptances, cfg.window)
    && (w.f.inflight.Some? ==> Unseen(w.h, w.f.inflight.value.env.msgId, cfg.window))
  }

  lemma AgreesLater(m: map<string, int>, h: seq<(string, int)>, span: int, clock: int, now: int)
    requires Agrees(m, h, span, clock) && clock <= now
    ensures Agrees(m, h, span, now)
  {
  }

  /** A check under the invariant: hit or miss, it tells the truth about the records. */
  lemma CheckIsTruthful(cfg: Config, w: World, id: string, now: int)
    requires DedupInv(cfg, w) && w.h.clock <= now
    ensures D.Hit(w.f.seen, id, now, cfg.window)
            <==> exists k :: 0 <= k < |w.h.acceptances| && w.h.acceptances[k].env.msgId == id
                             && now - w.h.acceptances[k].recordedAt <= cfg.window
  {
    var span, records := D.Span(cfg.window), Records(w.h.acceptances);
    AgreesPruned(w.f.seen, records, span, w.h.clock, now);
    AgreesLookup(Prune(w.f.seen, now, span), records, span, now, id);
    if k :| 0 <= k < |w.h.acceptances| && w.h.acceptances[k].env.msgId == id
            && now - w.h.acceptances[k].recordedAt <= cfg.window {
      assert records[k].0 == id;
    }
  }

  lemma DeliveryKeepsDedup(cfg: Config, w: World, a: Action)
    requires Enabled(w, a) && Forward(w, a) && a.Delivery? && DedupInv(cfg, w)
    ensures DedupInv(cfg, Step(cfg, w, a).0)
  {
    CheckIsTruthful(cfg, w, a.env.msgId, a.now);
    AgreesPruned(w.f.seen, Records(w.h.acceptances), D.Span(cfg.window), w.h.clock, a.now);
  }

  lemma AcceptedKeepsDedup(cfg: Config, w: World, a: Action)
    requires Enabled(w, a) && Forward(w, a) && a.Injected? && a.outcome.Accepted? && DedupInv(cfg, w)
    ensures DedupInv(cfg, Step(cfg, w, a).0)
  {
    var id, records, span := w.f.inflight.value.env.msgId, Records(w.h.acceptances), D.Span(cfg.window);
    var added := Acceptance(w.f.inflight.value.env, w.h.checkedAt, a.now);
    AgreesPruned(w.f.seen, records, span, w.h.clock, a.now);
    AgreesRecorded(Prune(w.f.seen, a.now, span), records, span, a.now, id);
    assert Records(w.h.acceptances + [added]) == records + [(id, a.now)];
  }

  lemma StepKeepsDedup(cfg: Config, w: World, a: Action)
    requires Enabled(w, a) && Forward(w, a) && DedupInv(cfg, w)
    ensures DedupInv(cfg, Step(cfg, w, a).0)
  {
    hide PinReply;
    hide NextPending;
    hide BuildEnvelope;
    hide Enqueue;
    hide Unqueue;
    if a.Delivery? {
      DeliveryKeepsDedup(cfg, w, a);
    } else if a.Injected? && a.outcome.Accepted? {
      AcceptedKeepsDedup(cfg, w, a);
    } else {
      AgreesLater(w.f.seen, Records(w.h.acceptances), D.Span(cfg.window), w.h.clock, a.now);
    }
  }

  /** At most one acceptance per window, over every run under a clock that is not set
      back: through holds, refusals, failures and redeliveries. */
  lemma {:induction false} AcceptedOncePerWindow(cfg: Config, ws: seq<World>, acts: seq<Action>, k: nat)
    requires IsForwardRun(cfg, ws, acts) && k < |ws|
    ensures DedupInv(cfg, ws[k])
  {
    if k > 0 {
      hide DedupInv;
      hide Step;
      AcceptedOncePerWindow(cfg, ws, acts, k - 1);
      assert StepsTo(cfg, ws[k - 1], acts[k - 1], ws[k - 1 + 1]);
      StepKeepsDedup(cfg, ws[k - 1], acts[k - 1]);
    }
  }

  // ---- acks, whatever the clock does ----

  ghost predicate Accepted(w: World, id: string) {
    exists k :: 0 <= k < |w.h.acceptances| && w.h.acceptances[k].env.msgId == id
  }

  /** What the dedup map holds was accepted. */
  ghost predicate SeenInv(w: World) {
    forall id :: id in w.f.seen ==> Accepted(w, id)
  }

  lemma StepKeepsSeen(cfg: Config, w: World, a: Action)
    requires Enabled(w, a) && SeenInv(w)
    ensures SeenInv(Step(cfg, w, a).0)
  {
    hide PinReply;
    hide NextPending;
    hide Candidates;
    hide Enqueue;
    hide Unqueue;
    hide Unpin;
    var w' := Step(cfg, w, a).0;
    forall id | id in w'.f.seen
      ensures Accepted(w', id)
    {
      if id in w.f.seen {
        var k :| 0 <= k < |w.h.acceptances| && w.h.acceptances[k].env.msgId == id;
        assert w'.h.acceptances[k] == w.h.acceptances[k];
      } else {
        assert w'.h.acceptances[|w.h.acceptances|].env.msgId == id;
      }
    }
  }

  /** An ack is handed over only for an id some session has accepted. */
  lemma AckMeansAccepted(cfg: Config, w: World, a: Action, id: string)
    requires Enabled(w, a) && SeenInv(w)
    requires AckMsg(id) in Step(cfg, w, a).1
    ensures Accepted(Step(cfg, w, a).0, id)
  {
    var w' := Step(cfg, w, a).0;
    match a {
      case Delivery(env, _, _, now) =>
        assert Accepted(w, id) && w'.h.acceptances == w.h.acceptances;
      case Injected(_, _) =>
        assert w'.h.acceptances[|w.h.acceptances|].env.msgId == id;
      case Local(_, _, _, _, _) =>
    }
  }

  /** Some envelope under this id was accepted within the window. */
  ghost predicate TakenLately(w: World, id: string, window: int, now: int) {
    exists k :: 0 <= k < |w.h.acceptances| && w.h.acceptances[k].env.msgId == id
                && now - w.h.acceptances[k].recordedAt <= window
  }

  /** A delivery is acked at once, and offered to nobody, exactly when some envelope under
      its id was accepted within the window, be it this one or another. */
  lemma TakenIdIsNotOffered(cfg: Config, w: World, a: Action)
    requires Enabled(w, a) && Forward(w, a) && a.Delivery? && DedupInv(cfg, w)
    ensures var (w', ops) := Step(cfg, w, a);
            && (ops == [AckMsg(a.env.msgId)] <==> TakenLately(w, a.env.msgId, cfg.window, a.now))
            && (TakenLately(w, a.env.msgId, cfg.window, a.now)
                ==> w'.f.inflight.None? && w'.h.offers == w.h.offers && w'.f.pending == w.f.pending)
  {
    hide Candidates;
    hide Enqueue;
    CheckIsTruthful(cfg, w, a.env.msgId, a.now);
  }

  // ---- the order of attempts ----

  /** How the latest delivery went: targets were tried in candidate order, each after
      the refusal of the one before; it is over at the first acceptance, at an error,
      or when the attempts are used up. */
  ghost predicate RoundOk(w: World) {
    var r := w.h.round;
    var n := |r.outcomes|;
    && (w.f.inflight.Some? ==>
          && r.offered + w.f.inflight.value.rest == Attempts(r.candidates)
          && r.offered != [] && r.offered[|r.offered| - 1] == w.f.inflight.value.target
          && n == |r.offered| - 1
          && forall i :: 0 <= i < n ==> r.outcomes[i].Refused?)
    && (w.f.inflight.None? ==>
          && n == |r.offered| <= |Attempts(r.candidates)|
          && r.offered == Attempts(r.candidates)[..n]
          && (forall i :: 0 <= i < n - 1 ==> r.outcomes[i].Refused?)
          && (n == 0 || r.outcomes[n - 1].Refused?
              ==> n == |Attempts(r.candidates)| || Attempts(r.candidates)[n].sock.None?))
  }

  lemma OfferKeepsRound(f: Ferry, h: History, env: Envelope, targets: seq<Session>, pin: Option<string>)
    requires h.round.offered + targets == Attempts(h.round.candidates)
    requires |h.round.outcomes| == |h.round.offered|
    requires forall i :: 0 <= i < |h.round.outcomes| ==> h.round.outcomes[i].Refused?
    ensures var f' := Offer(f, env, targets, pin); RoundOk(World(f', NoteOffer(h, f.pending, f')))
  {
    hide Enqueue;
    hide Attempts;
    OneMoreOffered(h.round.offered, targets);
  }

  lemma OneMoreOffered(offered: seq<Session>, targets: seq<Session>)
    ensures var n := |offered|;
            && (offered + targets)[..n] == offered
            && (targets != [] ==> (offered + targets)[n] == targets[0]
                                  && offered + [targets[0]] + targets[1..] == offered + targets)
  {
  }

  lemma DeliveryKeepsRound(cfg: Config, w: World, a: Action)
    requires Enabled(w, a) && a.Delivery?
    ensures RoundOk(Step(cfg, w, a).0)
  {
    if !D.Hit(w.f.seen, a.env.msgId, a.now, cfg.window) {
      var cands := Candidates(w.f.pins, a.env, LocalSessions(cfg, a.sessions), a.projectOf);
      var pin := ReplyPin(w.f.pins, a.env);
      OfferKeepsRound(w.f.(seen := Prune(w.f.seen, a.now, D.Span(cfg.window))),
                      w.h.(clock := a.now, checkedAt := a.now, pin := pin,
                           round := Round(Some(Request(a.env, a.sessions, a.projectOf)), cands, [], [])),
                      a.env, Attempts(cands), pin);
    }
  }

  lemma InjectedKeepsRound(cfg: Config, w: World, a: Action)
    requires Enabled(w, a) && a.Injected? && RoundOk(w)
    ensures RoundOk(Step(cfg, w, a).0)
  {
    hide Enqueue;
    hide Unqueue;
    hide Unpin;
    hide Attempts;
    var i, r := w.f.inflight.value, w.h.round;
    if a.outcome.Refused? {
      OfferKeepsRound(w.f.(pending := Unqueue(w.f.pending, i.sock, i.env.msgId)),
                      w.h.(clock := a.now, round := r.(outcomes := r.outcomes + [Refused])), i.env, i.rest, i.pin);
    } else {
      assert r.offered == Attempts(r.candidates)[..|r.offered|];
    }
  }

  lemma StepKeepsRound(cfg: Config, w: World, a: Action)
    requires Enabled(w, a) && RoundOk(w)
    ensures RoundOk(Step(cfg, w, a).0)
  {
    hide Enqueue;
    hide Unqueue;
    hide NextPending;
    hide PinReply;
    hide Attempts;
    match a {
      case Delivery(_, _, _, _) => DeliveryKeepsRound(cfg, w, a);
      case Injected(_, _) => InjectedKeepsRound(cfg, w, a);
      case Local(_, _, _, _, _) =>
    }
  }

  /** Fall-through over every run: at most the first three candidates, in rank order,
      stopping at the first acceptance. */
  lemma {:induction false} AttemptsFollowRanking(cfg: Config, ws: seq<World>, acts: seq<Action>, k: nat)
    requires IsRun(cfg, ws, acts) && k < |ws|
    ensures RoundOk(ws[k]) && |ws[k].h.round.offered| <= MAX_INJECT_ATTEMPTS
  {
    if k > 0 {
      AttemptsFollowRanking(cfg, ws, acts, k - 1);
      assert StepsTo(cfg, ws[k - 1], acts[k - 1], ws[k - 1 + 1]);
      StepKeepsRound(cfg, ws[k - 1], acts[k - 1]);
    }
  }

  lemma BuiltIsValid(cfg: Config, id: string, project: string, msg: LocalMsg, orig: Option<string>, now: int)
    requires cfg.hostId != "" && cfg.peerHost != "" && id != "" && project != "" && now > 0
    ensures Valid(BuildEnvelope(cfg, id, project, msg, orig, now))
  {
    assert "note" in KINDS && "reply" in KINDS;
  }

  /** What the ferry posts is what the hub accepts: the session's own words under its
      project, as a reply exactly when an id is queued for its socket, citing the
      oldest. */
  lemma PostedIsValid(cfg: Config, w: World, a: Action, env: Envelope)
    requires Enabled(w, a) && a.Local? && PostMsg(env) in Step(cfg, w, a).1
    requires cfg.hostId != "" && cfg.peerHost != "" && a.id != "" && a.now > 0
    ensures Valid(env) && env.target == ToHost(cfg.peerHost, env.project) && env.originHost == cfg.hostId
    ensures ExpiresAt(env) == a.now + (if env.mtype == "reply" then 3600000 else 604800000)
    ensures env.msgId == a.id && env.payload.body == a.msg.body && env.payload.hopChain == a.msg.hopChain
    ensures env.payload.fromName == cfg.hostId && env.createdAt == a.now
    ensures exists s :: s in a.sessions && s.pid != cfg.ownPid && s.sock == Some(SocketPath(a.msg.rawFrom))
                        && a.projectOf(s.cwd) == Some(env.project)
    ensures var q := Queue(w.f.pending, SocketPath(a.msg.rawFrom));
            && (env.mtype == "reply" <==> q != [] && q[0] != "")
            && (env.mtype == "reply" ==> env.origMsgId == Some(q[0]))
  {
    var (s, project) := Sender(cfg, a.msg, a.sessions, a.projectOf).value;
    BuiltIsValid(cfg, a.id, project, a.msg, NextPending(w.f.pending, SocketPath(a.msg.rawFrom)).0, a.now);
    FilterMembers(a.sessions, (x: Session) => x.pid != cfg.ownPid);
    assert s in LocalSessions(cfg, a.sessions);
  }
}
