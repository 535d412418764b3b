/** What each step of the ferry does, said of registry entries, queues, pins and ops
    alone: whom a delivery is offered to, what an outcome settles, and which local
    messages are posted. */
module FerryEffects {
  import opened Prelude
  import opened Envelopes
  import opened Registry
  import opened FerryModel
  import D = Dedups
  import FD = FerryDelivery

  // ---- who may take a delivery, and who first ----

  predicate CanTake(cfg: Config, r: Request, s: Session) {
    s.pid != cfg.ownPid && r.projectOf(s.cwd) == Some(r.env.project) && s.peerProtocol == Some(1)
  }

  function LastActive(s: Session): int {
    match s.statusUpdatedAt
    case Some(t) => t
    case None => 0
  }

  /** Background agents before the rest, then the more recently active. */
  predicate Preferred(a: Session, b: Session) {
    || (a.kind == Some("bg") && b.kind != Some("bg"))
    || ((a.kind == Some("bg") <==> b.kind == Some("bg")) && LastActive(a) > LastActive(b))
  }

  /** `c` lists exactly the entries that can take the request, none after one it is
      preferred to. */
  ghost predicate Ranked(cfg: Config, r: Request, c: seq<Session>) {
    && (forall s :: multiset(c)[s] == if CanTake(cfg, r, s) then multiset(r.sessions)[s] else 0)
    && (forall i, j :: 0 <= i < j < |c| ==> !Preferred(c[j], c[i]))
  }

  /** `env` answers a message that is pinned. */
  predicate AnswersPin(pins: Pins, env: Envelope) {
    env.mtype == "reply" && env.origMsgId.Some? && env.origMsgId.value in pins.owner
  }

  lemma UnpinnedCandidates(cfg: Config, pins: Pins, r: Request)
    requires !AnswersPin(pins, r.env)
    ensures Ranked(cfg, r, Candidates(pins, r.env, LocalSessions(cfg, r.sessions), r.projectOf))
  {
    var local := LocalSessions(cfg, r.sessions);
    var c := RankTargets(local, r.env.project, r.projectOf);
    var foreign := (s: Session) => s.pid != cfg.ownPid;
    var mine := (s: Session) => r.projectOf(s.cwd) == Some(r.env.project);
    assert LocalSessions(cfg, r.sessions) == Filter(r.sessions, foreign) by {
      SameFilter(r.sessions, (s: Session) => s.pid != cfg.ownPid, foreign);
    }
    assert Eligible(local, r.env.project, r.projectOf) == Filter(Filter(local, mine), ProtocolOk) by {
      SameFilter(local, (s: Session) => r.projectOf(s.cwd) == Some(r.env.project), mine);
    }
    RankTargetsPermutes(local, r.env.project, r.projectOf);
    RankTargetsRanks(local, r.env.project, r.projectOf);
    forall s
      ensures multiset(c)[s] == if CanTake(cfg, r, s) then multiset(r.sessions)[s] else 0
    {
      FilterCounts(r.sessions, foreign, s);
      FilterCounts(local, mine, s);
      FilterCounts(Filter(local, mine), ProtocolOk, s);
    }
    forall i, j | 0 <= i < j < |c|
      ensures !Preferred(c[j], c[i])
    {
      assert MayPrecede(c[i], c[j]);
    }
  }

  lemma {:induction false} SameFilter(s: seq<Session>, p: Session -> bool, q: Session -> bool)
    requires forall x :: p(x) == q(x)
    ensures Filter(s, p) == Filter(s, q)
  {
    if s != [] {
      SameFilter(s[1..], p, q);
    }
  }

  /** The entry that asked: the first one of another process with the pinned session's id
      that speaks the protocol. */
  predicate IsAsker(cfg: Config, sid: string, s: Session) {
    s.pid != cfg.ownPid && s.sessionId == Some(sid) && s.peerProtocol == Some(1)
  }

  ghost predicate FirstAsker(cfg: Config, sid: string, sessions: seq<Session>, r: Option<Session>) {
    match r
    case None => forall k :: 0 <= k < |sessions| ==> !IsAsker(cfg, sid, sessions[k])
    case Some(s) =>
      exists k :: 0 <= k < |sessions| && sessions[k] == s && IsAsker(cfg, sid, s)
                  && forall j :: 0 <= j < k ==> !IsAsker(cfg, sid, sessions[j])
  }

  lemma PinnedCandidates(cfg: Config, pins: Pins, r: Request) returns (asker: Option<Session>)
    requires AnswersPin(pins, r.env)
    ensures FirstAsker(cfg, pins.owner[r.env.origMsgId.value], r.sessions, asker)
    ensures Candidates(pins, r.env, LocalSessions(cfg, r.sessions), r.projectOf)
            == if asker.Some? then [asker.value] else []
  {
    var sid := pins.owner[r.env.origMsgId.value];
    var p, q := (s: Session) => s.pid != cfg.ownPid, (s: Session) => s.sessionId == Some(sid) && ProtocolOk(s);
    var both := (s: Session) => IsAsker(cfg, sid, s);
    asker := SessionById(LocalSessions(cfg, r.sessions), sid);
    SameFilter(r.sessions, (s: Session) => s.pid != cfg.ownPid, p);
    FirstOfFiltered(r.sessions, p, q, both);
    SameFirst(LocalSessions(cfg, r.sessions), (s: Session) => s.sessionId == Some(sid) && ProtocolOk(s), q);
    assert Earliest(r.sessions, both, asker);
    if asker.None? {
      assert forall k :: 0 <= k < |r.sessions| ==> r.sessions[k] in r.sessions;
    }
  }

  lemma {:induction false} SameFirst(s: seq<Session>, p: Session -> bool, q: Session -> bool)
    requires forall x :: p(x) == q(x)
    ensures First(s, p) == First(s, q)
  {
    if s != [] {
      SameFirst(s[1..], p, q);
    }
  }

  // ---- what a delivery begins ----

  /** The first target is offered `env` on its socket, with the id last in that socket's
      queue; without a target, or with one that has no socket, nothing is offered. */
  ghost predicate Begins(f: Ferry, f': Ferry, env: Envelope, targets: seq<Session>, pin: Option<string>) {
    && f'.pins == f.pins
    && if targets == [] || targets[0].sock.None? then f'.inflight.None? && f'.pending == f.pending
       else
         var sock := targets[0].sock.value;
         && f'.inflight == Some(Inflight(env, targets[0], sock, targets[1..], pin))
         && sock in f'.pending && f'.pending[sock] != []
         && f'.pending[sock][|f'.pending[sock]| - 1] == env.msgId
         && forall s :: s != sock ==> Queue(f'.pending, s) == Queue(f.pending, s)
  }

  lemma OfferBegins(f: Ferry, env: Envelope, targets: seq<Session>, pin: Option<string>)
    ensures Begins(f, Offer(f, env, targets, pin), env, targets, pin)
  {
  }

  /** The id is not remembered from within the window. */
  predicate Fresh(cfg: Config, f: Ferry, id: string, now: int) {
    id !in f.seen || now - f.seen[id] > cfg.window
  }

  lemma FreshIsNoHit(cfg: Config, f: Ferry, id: string, now: int)
    ensures D.Hit(f.seen, id, now, cfg.window) <==> !Fresh(cfg, f, id, now)
  {
  }

  /** A delivery that answers no pin is offered by project and rank: to the best three of
      exactly the entries that can take it, in order. */
  lemma UnpinnedDelivery(cfg: Config, w: World, a: Action) returns (c: seq<Session>)
    requires Enabled(w, a) && a.Delivery? && Fresh(cfg, w.f, a.env.msgId, a.now) && !AnswersPin(w.f.pins, a.env)
    ensures Ranked(cfg, Request(a.env, a.sessions, a.projectOf), c)
    ensures var (w', ops) := Step(cfg, w, a);
            ops == [] && Begins(w.f, w'.f, a.env, if |c| > 3 then c[..3] else c, None)
  {
    hide Candidates;
    hide Enqueue;
    FreshIsNoHit(cfg, w.f, a.env.msgId, a.now);
    UnpinnedCandidates(cfg, w.f.pins, Request(a.env, a.sessions, a.projectOf));
    c := Candidates(w.f.pins, a.env, LocalSessions(cfg, a.sessions), a.projectOf);
    var f1 := w.f.(seen := Recent.Prune(w.f.seen, a.now, D.Span(cfg.window)));
    OfferBegins(f1, a.env, Attempts(c), None);
  }

  /** A reply to a pinned message is offered to the asker whenever it is in the registry,
      and to nobody else. */
  lemma PinnedDelivery(cfg: Config, w: World, a: Action) returns (asker: Option<Session>)
    requires Enabled(w, a) && a.Delivery? && Fresh(cfg, w.f, a.env.msgId, a.now) && AnswersPin(w.f.pins, a.env)
    ensures FirstAsker(cfg, w.f.pins.owner[a.env.origMsgId.value], a.sessions, asker)
    ensures var (w', ops) := Step(cfg, w, a);
            ops == [] && Begins(w.f, w'.f, a.env, if asker.Some? then [asker.value] else [], a.env.origMsgId)
  {
    hide Candidates;
    hide Enqueue;
    FreshIsNoHit(cfg, w.f, a.env.msgId, a.now);
    asker := PinnedCandidates(cfg, w.f.pins, Request(a.env, a.sessions, a.projectOf));
    var c := Candidates(w.f.pins, a.env, LocalSessions(cfg, a.sessions), a.projectOf);
    var f1 := w.f.(seen := Recent.Prune(w.f.seen, a.now, D.Span(cfg.window)));
    OfferBegins(f1, a.env, Attempts(c), a.env.origMsgId);
  }

  /** What can be offered is offered: with some entry able to take a delivery that answers
      no pin, and no acceptance of its id within the window, it is in the hands of one
      that no other is preferred to; or the best has no socket, which ends the delivery. */
  lemma SomebodyIsOffered(cfg: Config, w: World, a: Action, s: Session) returns (best: Session)
    requires Enabled(w, a) && Forward(w, a) && a.Delivery? && FD.DedupInv(cfg, w) && !AnswersPin(w.f.pins, a.env)
    requires forall k :: 0 <= k < |w.h.acceptances| && w.h.acceptances[k].env.msgId == a.env.msgId
               ==> a.now - w.h.acceptances[k].recordedAt > cfg.window
    requires s in a.sessions && CanTake(cfg, Request(a.env, a.sessions, a.projectOf), s)
    ensures var r := Request(a.env, a.sessions, a.projectOf);
            && best in a.sessions && CanTake(cfg, r, best)
            && forall x :: x in a.sessions && CanTake(cfg, r, x) ==> !Preferred(x, best)
    ensures var f' := Step(cfg, w, a).0.f;
            if best.sock.Some? then f'.inflight.Some? && f'.inflight.value.target == best && f'.inflight.value.env == a.env
            else f'.inflight.None?
  {
    hide Step;
    FD.CheckIsTruthful(cfg, w, a.env.msgId, a.now);
    FreshIsNoHit(cfg, w.f, a.env.msgId, a.now);
    var c := UnpinnedDelivery(cfg, w, a);
    assert s in multiset(c);
    best := c[0];
    assert best in multiset(c);
    forall x | x in a.sessions && CanTake(cfg, Request(a.env, a.sessions, a.projectOf), x)
      ensures !Preferred(x, best)
    {
      assert x in multiset(c);
      var k :| 0 <= k < |c| && c[k] == x;
    }
  }

  // ---- what an outcome settles ----

  /** A refusal takes the id back, hands nothing over, and goes on to the next target. */
  lemma RefusalGoesOn(cfg: Config, w: World, a: Action)
    requires Enabled(w, a) && a.Injected? && a.outcome.Refused?
    ensures var i, (w', ops) := w.f.inflight.value, Step(cfg, w, a);
            && ops == [] && w'.f.seen == w.f.seen
            && Begins(w.f.(pending := Unqueue(w.f.pending, i.sock, i.env.msgId)), w'.f, i.env, i.rest, i.pin)
  {
    hide Enqueue;
    hide Unqueue;
    var i := w.f.inflight.value;
    OfferBegins(w.f.(pending := Unqueue(w.f.pending, i.sock, i.env.msgId)), i.env, i.rest, i.pin);
  }

  /** An acceptance is remembered, acked, and retires the pin it answered and no other. */
  lemma AcceptanceSettles(cfg: Config, w: World, a: Action)
    requires Enabled(w, a) && a.Injected? && a.outcome.Accepted?
    ensures var i, (w', ops) := w.f.inflight.value, Step(cfg, w, a);
            && ops == [AckMsg(i.env.msgId)] && w'.f.inflight.None? && w'.f.pending == w.f.pending
            && !Fresh(cfg, w'.f, i.env.msgId, a.now) == (cfg.window >= 0)
            && (forall p :: p in w'.f.pins.owner <==> p in w.f.pins.owner && i.pin != Some(p))
            && (forall p :: p in w'.f.pins.owner ==> w'.f.pins.owner[p] == w.f.pins.owner[p])
  {
  }

  /** An inject that raises settles nothing: no ack, no record, and the id stays queued. */
  lemma RaiseSettlesNothing(cfg: Config, w: World, a: Action)
    requires Enabled(w, a) && a.Injected? && a.outcome.Raised?
    ensures var (w', ops) := Step(cfg, w, a);
            ops == [] && w'.f == w.f.(inflight := None)
  {
  }

  // ---- every round of every run ----

  /** The latest delivery, if it was no duplicate and answered no pin, was offered down the
      ranking of its own request, to three at most; with every offer refused it had run
      out of entries or of attempts, or the next had no socket. */
  ghost predicate FollowsRank(cfg: Config, w: World) {
    w.h.round.request.Some? && w.h.pin.None? ==> exists c :: DownTheRank(cfg, w, c)
  }

  ghost predicate DownTheRank(cfg: Config, w: World, c: seq<Session>)
    requires w.h.round.request.Some?
  {
    var r := w.h.round;
    var n := |r.offered|;
    && Ranked(cfg, r.request.value, c) && r.offered <= c && n <= 3
    && (forall i :: 0 <= i < |r.outcomes| && i < n - 1 ==> r.outcomes[i].Refused?)
    && (w.f.inflight.None? && (n == 0 || (|r.outcomes| == n && r.outcomes[n - 1].Refused?))
        ==> n == 3 || n == |c| || c[n].sock.None?)
  }

  /** The candidates kept for a request without a pin rank its sessions. */
  ghost predicate RequestRanked(cfg: Config, h: History) {
    h.round.request.Some? && h.pin.None? ==> Ranked(cfg, h.round.request.value, h.round.candidates)
  }

  lemma StepKeepsRequest(cfg: Config, w: World, a: Action)
    requires Enabled(w, a) && RequestRanked(cfg, w.h)
    ensures RequestRanked(cfg, Step(cfg, w, a).0.h)
  {
    hide Candidates;
    hide Enqueue;
    hide Unqueue;
    hide NextPending;
    hide PinReply;
    hide Ranked;
    if a.Delivery? && !AnswersPin(w.f.pins, a.env) {
      UnpinnedCandidates(cfg, w.f.pins, Request(a.env, a.sessions, a.projectOf));
    }
  }

  lemma {:induction false} EveryRequest(cfg: Config, ws: seq<World>, acts: seq<Action>, k: nat)
    requires IsRun(cfg, ws, acts) && k < |ws|
    ensures RequestRanked(cfg, ws[k].h)
  {
    if k > 0 {
      EveryRequest(cfg, ws, acts, k - 1);
      assert StepsTo(cfg, ws[k - 1], acts[k - 1], ws[k - 1 + 1]);
      StepKeepsRequest(cfg, ws[k - 1], acts[k - 1]);
    }
  }

  lemma OffersFollowRank(cfg: Config, ws: seq<World>, acts: seq<Action>, k: nat)
    requires IsRun(cfg, ws, acts) && k < |ws|
    ensures FollowsRank(cfg, ws[k])
  {
    hide IsRun;
    EveryRequest(cfg, ws, acts, k);
    FD.AttemptsFollowRanking(cfg, ws, acts, k);
    var w, r := ws[k], ws[k].h.round;
    if r.request.Some? && w.h.pin.None? {
      assert r.offered <= Attempts(r.candidates);
      assert DownTheRank(cfg, w, r.candidates);
    }
  }

  // ---- which local messages are posted ----

  /** The sender: an entry of another process on the socket `path`. */
  predicate SendsFrom(cfg: Config, path: string, s: Session) {
    s.pid != cfg.ownPid && s.sock == Some(path)
  }

  /** The first such entry, if there is one, and its project is known. */
  ghost predicate HasSender(cfg: Config, path: string, sessions: seq<Session>, projectOf: string -> Option<string>, s: Session) {
    && (exists k :: 0 <= k < |sessions| && sessions[k] == s && SendsFrom(cfg, path, s)
                    && forall j :: 0 <= j < k ==> !SendsFrom(cfg, path, sessions[j]))
    && projectOf(s.cwd).Some? && projectOf(s.cwd).value != ""
  }

  /** Whether a local message is posted: exactly when the first entry on its socket, named
      with or without the scheme, has a project. A post takes the oldest id off that
      socket's queue; a message without a sender changes nothing. */
  lemma PostedExactlyWhen(cfg: Config, w: World, a: Action, path: string)
    requires Enabled(w, a) && a.Local? && !("uds:" <= path)
    requires a.msg.rawFrom == path || a.msg.rawFrom == "uds:" + path
    ensures var (w', ops) := Step(cfg, w, a);
            if exists s :: HasSender(cfg, path, a.sessions, a.projectOf, s)
            then |ops| == 1 && ops[0].PostMsg? && ops[0].env.msgId == a.id
                 && (forall q :: Queue(w'.f.pending, q)
                                 == if q == path && Queue(w.f.pending, q) != [] then Queue(w.f.pending, q)[1..]
                                    else Queue(w.f.pending, q))
            else ops == [] && w'.f == w.f
    ensures forall s :: HasSender(cfg, path, a.sessions, a.projectOf, s) && (s.sessionId == None || s.sessionId == Some(""))
              ==> Step(cfg, w, a).0.f.pins == w.f.pins
  {
    var from := SenderEntry(cfg, path, a);
    hide PinReply;
    if from.Some? && a.projectOf(from.value.cwd).Some? && a.projectOf(from.value.cwd).value != "" {
      assert HasSender(cfg, path, a.sessions, a.projectOf, from.value);
    }
    forall s | HasSender(cfg, path, a.sessions, a.projectOf, s)
      ensures from == Some(s)
    {
      OneSender(cfg, path, a.sessions, s, from);
    }
  }

  lemma SenderEntry(cfg: Config, path: string, a: Action) returns (from: Option<Session>)
    requires a.Local? && !("uds:" <= path)
    requires a.msg.rawFrom == path || a.msg.rawFrom == "uds:" + path
    ensures SocketPath(a.msg.rawFrom) == path
    ensures Sender(cfg, a.msg, a.sessions, a.projectOf)
            == if from.Some? && a.projectOf(from.value.cwd).Some? && a.projectOf(from.value.cwd).value != ""
               then Some((from.value, a.projectOf(from.value.cwd).value)) else None
    ensures Earliest(a.sessions, (s: Session) => SendsFrom(cfg, path, s), from)
  {
    SocketNamed(path);
    var p, q := (s: Session) => s.pid != cfg.ownPid, (s: Session) => HasSocket(s, path);
    var both := (s: Session) => SendsFrom(cfg, path, s);
    var local := LocalSessions(cfg, a.sessions);
    SameFilter(a.sessions, (s: Session) => s.pid != cfg.ownPid, p);
    FirstOfFiltered(a.sessions, p, q, both);
    SameFirst(local, (s: Session) => HasSocket(s, SocketPath(a.msg.rawFrom)), q);
    from := First(a.sessions, both);
    SameFirst(a.sessions, (s: Session) => SendsFrom(cfg, path, s), both);
    FirstIsEarliest(a.sessions, both, from);
  }

  lemma OneSender(cfg: Config, path: string, sessions: seq<Session>, s: Session, from: Option<Session>)
    requires Earliest(sessions, (x: Session) => SendsFrom(cfg, path, x), from)
    requires exists k :: 0 <= k < |sessions| && sessions[k] == s && SendsFrom(cfg, path, s)
                         && forall j :: 0 <= j < k ==> !SendsFrom(cfg, path, sessions[j])
    ensures from == Some(s)
  {
    var k :| 0 <= k < |sessions| && sessions[k] == s && SendsFrom(cfg, path, s)
             && forall j :: 0 <= j < k ==> !SendsFrom(cfg, path, sessions[j]);
    assert sessions[k] in sessions;
    var i :| 0 <= i < |sessions| && sessions[i] == from.value && forall j :: 0 <= j < i ==> !SendsFrom(cfg, path, sessions[j]);
    assert !(i < k) && !(k < i);
  }
}
