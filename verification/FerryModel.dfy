/** The ferry's delivery machine. `on_deliver` is suspended inside inject while local
    messages are handled, so a delivery is several steps and local messages may fall
    between any two of them. Histories of what was offered, accepted and posted are
    kept beside the state. */
module FerryModel {
  import opened Prelude
  import opened Envelopes
  import opened Registry
  import opened Recent
  import D = Dedups

  const PENDING_PER_SOCKET_MAX := 16
  const AWAITING_REPLY_MAX := 1000
  const NOTE_TTL_S := 604800
  const REPLY_TTL_S := 3600
  const MAX_INJECT_ATTEMPTS := 3

  datatype Config = Config(hostId: string, peerHost: string, ownPid: int, window: int)

  /** A dict in insertion order. */
  datatype Pins = Pins(order: seq<string>, owner: map<string, string>)

  /** A delivery suspended in inject: who holds it now and who is next. */
  datatype Inflight = Inflight(env: Envelope, target: Session, sock: string, rest: seq<Session>, pin: Option<string>)

  datatype Ferry = Ferry(
    pending: map<string, seq<string>>,
    pins: Pins,
    seen: map<string, int>,
    inflight: Option<Inflight>)

  const IDLE := Ferry(map[], Pins([], map[]), map[], None)

  /** What the ferry hands to its hub client. */
  datatype Op =
    | PostMsg(env: Envelope)
    | AckMsg(id: string)
    | Announcement(projects: set<string>)

  datatype Outcome = Accepted | Refused | Raised

  datatype LocalMsg = LocalMsg(rawFrom: string, body: string, hopChain: Option<seq<string>>)

  // ---- the pending-reply queues ----

  function Queue(pending: map<string, seq<string>>, sock: string): seq<string> {
    if sock in pending then pending[sock] else []
  }

  /** deque(maxlen=16).append */
  function Enqueue(pending: map<string, seq<string>>, sock: string, id: string): map<string, seq<string>> {
    var q := Queue(pending, sock) + [id];
    pending[sock := if |q| > PENDING_PER_SOCKET_MAX then q[1..] else q]
  }

  function RemoveFirst(q: seq<string>, id: string): seq<string> {
    if q == [] then [] else if q[0] == id then q[1..] else [q[0]] + RemoveFirst(q[1..], id)
  }

  function StoreQueue(pending: map<string, seq<string>>, sock: string, q: seq<string>): map<string, seq<string>> {
    if q == [] then pending - {sock} else pending[sock := q]
  }

  function Unqueue(pending: map<string, seq<string>>, sock: string, id: string): map<string, seq<string>> {
    if sock in pending then StoreQueue(pending, sock, RemoveFirst(pending[sock], id)) else pending
  }

  function NextPending(pending: map<string, seq<string>>, sock: string): (Option<string>, map<string, seq<string>>) {
    var q := Queue(pending, sock);
    if q == [] then (None, pending) else (Some(q[0]), StoreQueue(pending, sock, q[1..]))
  }

  // ---- the pins ----

  function Trim(pins: Pins): Pins
    decreases |pins.order|
  {
    if |pins.order| > AWAITING_REPLY_MAX
    then Trim(Pins(pins.order[1..], pins.owner - {pins.order[0]}))
    else pins
  }

  function PinReply(pins: Pins, id: string, sid: string): Pins {
    Trim(Pins(if id in pins.owner then pins.order else pins.order + [id], pins.owner[id := sid]))
  }

  function Unpin(pins: Pins, id: string): Pins {
    Pins(RemoveFirst(pins.order, id), pins.owner - {id})
  }

  function ReplyPin(pins: Pins, env: Envelope): Option<string> {
    if env.mtype == "reply" && env.origMsgId.Some? && env.origMsgId.value in pins.owner
    then env.origMsgId else None
  }

  // ---- candidates ----

  function LocalSessions(cfg: Config, sessions: seq<Session>): seq<Session> {
    Filter(sessions, (s: Session) => s.pid != cfg.ownPid)
  }

  /** Sessions to try, best first; for a pinned reply the asking session alone. */
  function Candidates(pins: Pins, env: Envelope, sessions: seq<Session>, projectOf: string -> Option<string>): seq<Session> {
    match ReplyPin(pins, env)
    case Some(orig) =>
      (match SessionById(sessions, pins.owner[orig])
       case Some(s) => [s]
       case None => [])
    case None => RankTargets(sessions, env.project, projectOf)
  }

  function Attempts(candidates: seq<Session>): seq<Session> {
    if |candidates| > MAX_INJECT_ATTEMPTS then candidates[..MAX_INJECT_ATTEMPTS] else candidates
  }

  // ---- steps ----

  /** Queue the id and enter inject. No candidate left means hold; a registry entry
      without a socket ends the delivery with a KeyError. */
  function Offer(f: Ferry, env: Envelope, targets: seq<Session>, pin: Option<string>): Ferry {
    if targets == [] || targets[0].sock.None? then f.(inflight := None)
    else
      var sock := targets[0].sock.value;
      f.(pending := Enqueue(f.pending, sock, env.msgId),
         inflight := Some(Inflight(env, targets[0], sock, targets[1..], pin)))
  }

  function Deliver(cfg: Config, f: Ferry, env: Envelope, sessions: seq<Session>,
                   projectOf: string -> Option<string>, now: int): (Ferry, seq<Op>)
  {
    var f1 := f.(seen := Prune(f.seen, now, D.Span(cfg.window)));
    if D.Hit(f.seen, env.msgId, now, cfg.window) then (f1, [AckMsg(env.msgId)])
    else
      var local := LocalSessions(cfg, sessions);
      (Offer(f1, env, Attempts(Candidates(f.pins, env, local, projectOf)), ReplyPin(f.pins, env)), [])
  }

  function InjectReturns(cfg: Config, f: Ferry, outcome: Outcome, now: int): (Ferry, seq<Op>)
    requires f.inflight.Some?
  {
    var i := f.inflight.value;
    match outcome
    case Raised => (f.(inflight := None), [])
    case Refused =>
      (Offer(f.(pending := Unqueue(f.pending, i.sock, i.env.msgId)), i.env, i.rest, i.pin), [])
    case Accepted =>
      (f.(seen := D.Answer(f.seen, D.Record(i.env.msgId, now), cfg.window),
          pins := if i.pin.Some? then Unpin(f.pins, i.pin.value) else f.pins,
          inflight := None),
       [AckMsg(i.env.msgId)])
  }

  function BuildEnvelope(cfg: Config, id: string, project: string, msg: LocalMsg, orig: Option<string>, now: int): Envelope {
    var mtype := if orig.Some? && orig.value != "" then "reply" else "note";
    Envelope(1, id, cfg.hostId, project, ToHost(cfg.peerHost, project), mtype,
             if mtype == "reply" then REPLY_TTL_S else NOTE_TTL_S, now, orig,
             Payload(msg.body, msg.hopChain, cfg.hostId))
  }

  /** The sending session and its project, unless the message is dropped. */
  function Sender(cfg: Config, msg: LocalMsg, sessions: seq<Session>, projectOf: string -> Option<string>)
    : Option<(Session, string)>
  {
    match SessionBySocket(LocalSessions(cfg, sessions), msg.rawFrom)
    case None => None
    case Some(s) =>
      var project := projectOf(s.cwd);
      if project == None || project == Some("") then None else Some((s, project.value))
  }

  function LocalMessage(cfg: Config, f: Ferry, msg: LocalMsg, sessions: seq<Session>,
                        projectOf: string -> Option<string>, id: string, now: int): (Ferry, seq<Op>)
  {
    match Sender(cfg, msg, sessions, projectOf)
    case None => (f, [])
    case Some((s, project)) =>
      var (orig, pending') := NextPending(f.pending, SocketPath(msg.rawFrom));
      var env := BuildEnvelope(cfg, id, project, msg, orig, now);
      (f.(pending := pending',
          pins := if s.sessionId == None || s.sessionId == Some("") then f.pins else PinReply(f.pins, id, s.sessionId.value)),
       [PostMsg(env)])
  }

  // ---- histories ----

  /** An inject begun; its outcome is at the same position of `outcomes`. `pin` is the
      pin the delivery found when it started. */
  datatype OfferMade = OfferMade(env: Envelope, target: Session, sock: string, pin: Option<string>)

  /** An inject accepted, with the times of its dedup check and record. */
  datatype Acceptance = Acceptance(env: Envelope, checkedAt: int, recordedAt: int)

  /** An envelope posted for a session's message, and the session that is to get
      the answer. */
  datatype Posted = Posted(sock: string, sid: Option<string>, env: Envelope)

  /** The latest delivery: what was asked (nothing, for a duplicate), its candidates, the
      offers made and how they ended. */
  datatype Round = Round(request: Option<Request>, candidates: seq<Session>, offered: seq<Session>, outcomes: seq<Outcome>)

  /** What a delivery is called with. */
  datatype Request = Request(env: Envelope, sessions: seq<Session>, projectOf: string -> Option<string>)

  datatype History = History(
    offers: seq<OfferMade>,
    acceptances: seq<Acceptance>,
    posts: seq<Posted>,
    outcomes: seq<Outcome>,
    clock: int,
    checkedAt: int,
    pin: Option<string>,
    clean: bool,
    round: Round)

  datatype World = World(f: Ferry, h: History)

  function Start(clock: int): World {
    World(IDLE, History([], [], [], [], clock, clock, None, true, Round(None, [], [], [])))
  }

  datatype Action =
    | Delivery(env: Envelope, sessions: seq<Session>, projectOf: string -> Option<string>, now: int)
    | Injected(outcome: Outcome, now: int)
    | Local(msg: LocalMsg, sessions: seq<Session>, projectOf: string -> Option<string>, id: string, now: int)

  /** Deliveries are serialised, and a new message id has not been used for an earlier
      post. */
  ghost predicate Enabled(w: World, a: Action) {
    match a
    case Delivery(_, _, _, _) => w.f.inflight.None?
    case Injected(_, _) => w.f.inflight.Some?
    case Local(_, _, _, id, _) => forall i :: 0 <= i < |w.h.posts| ==> w.h.posts[i].env.msgId != id
  }

  /** The wall clock has not been set back. */
  predicate Forward(w: World, a: Action) {
    w.h.clock <= a.now
  }

  /** What a step does to the ferry, and what it hands over. */
  function StepState(cfg: Config, f: Ferry, a: Action): (Ferry, seq<Op>)
    requires a.Injected? ==> f.inflight.Some?
  {
    match a
    case Delivery(env, sessions, projectOf, now) => Deliver(cfg, f, env, sessions, projectOf, now)
    case Injected(outcome, now) => InjectReturns(cfg, f, outcome, now)
    case Local(msg, sessions, projectOf, id, now) => LocalMessage(cfg, f, msg, sessions, projectOf, id, now)
  }

  /** Records the offer that a step has just made, if it made one. */
  function NoteOffer(h: History, before: map<string, seq<string>>, f: Ferry): History {
    match f.inflight
    case None => h
    case Some(i) =>
      h.(offers := h.offers + [OfferMade(i.env, i.target, i.sock, h.pin)],
         clean := i.env.msgId !in Queue(before, i.sock),
         round := h.round.(offered := h.round.offered + [i.target]))
  }

  function Step(cfg: Config, w: World, a: Action): (World, seq<Op>)
    requires a.Injected? ==> w.f.inflight.Some?
  {
    var (f', ops) := StepState(cfg, w.f, a);
    match a
    case Delivery(env, sessions, projectOf, now) =>
      var h := w.h.(clock := now, checkedAt := now, pin := ReplyPin(w.f.pins, env),
                    round := if D.Hit(w.f.seen, env.msgId, now, cfg.window) then Round(None, [], [], [])
                             else Round(Some(Request(env, sessions, projectOf)),
                                        Candidates(w.f.pins, env, LocalSessions(cfg, sessions), projectOf), [], []));
      (World(f', NoteOffer(h, w.f.pending, f')), ops)
    case Injected(outcome, now) =>
      var i := w.f.inflight.value;
      var h := w.h.(clock := now, outcomes := w.h.outcomes + [outcome],
                    round := w.h.round.(outcomes := w.h.round.outcomes + [outcome]));
      if outcome.Accepted?
      then (World(f', h.(acceptances := h.acceptances + [Acceptance(i.env, h.checkedAt, now)])), ops)
      else (World(f', NoteOffer(h, Unqueue(w.f.pending, i.sock, i.env.msgId), f')), ops)
    case Local(msg, sessions, projectOf, id, now) =>
      var h := w.h.(clock := now);
      match Sender(cfg, msg, sessions, projectOf)
      case None => (World(f', h), ops)
      case Some((s, _)) =>
        var sid := if s.sessionId == Some("") then None else s.sessionId;
        (World(f', h.(posts := h.posts + [Posted(SocketPath(msg.rawFrom), sid, ops[0].env)])), ops)
  }

  ghost predicate StepsTo(cfg: Config, w: World, a: Action, w': World) {
    Enabled(w, a) && w' == Step(cfg, w, a).0
  }

  /** The worlds `ws` of a run with the steps `acts` between them. */
  ghost predicate IsRun(cfg: Config, ws: seq<World>, acts: seq<Action>) {
    && |ws| == |acts| + 1
    && ws[0] == Start(ws[0].h.clock)
    && forall k :: 0 <= k < |acts| ==> StepsTo(cfg, ws[k], acts[k], ws[k + 1])
  }

  ghost predicate IsForwardRun(cfg: Config, ws: seq<World>, acts: seq<Action>) {
    IsRun(cfg, ws, acts) && forall k :: 0 <= k < |acts| ==> Forward(ws[k], acts[k])
  }
}
