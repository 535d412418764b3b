/** Everything together: a hub, one ferry per host with its outbox, and a link per
    connection that can end at any moment. */
module SystemModel {
  import opened Prelude
  import opened Envelopes
  import H = HubModel
  import F = FerryModel
  import O = OutboxModel

  /** A host: its ferry, its outbox, and the connection its client is listening on. */
  datatype Node = Node(cfg: F.Config, ferry: F.World, box: O.Outbox<F.Op>, link: Option<nat>)

  /** `up` and `down` are the frames in transit per connection, `early` those a host has
      written to a connection the hub has yet to register. The histories are kept across
      restarts: valid envelopes ever posted to the hub, rows ever stored, envelopes
      handed in by other clients; and per host the envelopes some session has accepted,
      the acks written to a connection, the offers made and the messages posted. */
  datatype Sys = Sys(
    hub: H.Hub,
    nodes: map<string, Node>,
    up: map<nat, seq<F.Op>>,
    early: map<string, seq<F.Op>>,
    down: map<nat, seq<Envelope>>,
    posted: set<Envelope>,
    stored: set<Envelope>,
    foreign: set<Envelope>,
    accepted: set<(string, Envelope)>,
    ackSent: set<(string, string)>,
    heard: set<(string, F.OfferMade)>,
    spoken: set<(string, F.Posted)>)

  function FreshNode(cfg: F.Config, clock: int): Node {
    Node(cfg, F.Start(clock), O.NewOutbox(), None)
  }

  ghost predicate Initial(s: Sys) {
    && s.hub == H.Fresh(s.hub.cap, s.hub.clock)
    && (forall h :: h in s.nodes ==> s.nodes[h] == FreshNode(s.nodes[h].cfg, s.nodes[h].ferry.h.clock))
    && s.up == map[] && s.early == map[] && s.down == map[]
    && s.posted == {} && s.stored == {} && s.foreign == {}
    && s.accepted == {} && s.ackSent == {} && s.heard == {} && s.spoken == {}
  }

  /** Where a send puts its frame; Nowhere if the connection is closed already. */
  datatype Wire = Nowhere | Early | On(conn: nat)

  datatype Action =
    | Dial(host: string)
    | Hello(host: string, projects: set<string>, drain: seq<Envelope>)
    | Welcome(host: string, conn: nat)
    | Disconnect(host: string)
    | FerryStep(host: string, fa: F.Action)
    | Announce(host: string, projects: set<string>)
    | BeginSend(host: string, on: Wire)
    | EndSend(host: string, closed: bool)
    | FerryRestart(host: string, clock: int)
    | Foreign(conn: nat, op: F.Op)
    | HubReceive(conn: nat, drain: seq<Envelope>, order: seq<nat>)
    | HubSend(conn: nat, closed: bool, written: bool)
    | HubAlone(ha: H.Action)

  function Frames<K, T>(m: map<K, seq<T>>, c: K): seq<T> {
    if c in m then m[c] else []
  }

  /** What the hub does with the next frame of a connection. */
  function Received(s: Sys, c: nat, drain: seq<Envelope>, order: seq<nat>): H.Action
    requires Frames(s.up, c) != []
  {
    match Frames(s.up, c)[0]
    case PostMsg(env) => H.Post(c, env, order)
    case AckMsg(id) => H.AckMsg(c, id)
    case Announcement(projects) => H.Announce(c, projects, drain)
  }

  /** An ack without an id is ignored. */
  predicate EmptyAck(s: Sys, c: nat) {
    Frames(s.up, c) != [] && Frames(s.up, c)[0] == F.AckMsg("")
  }

  /** A client writes to the connection it is listening on. Before it is welcomed, that
      is a new connection: one the hub will register, or has registered just now. Whether
      and when the hub reads a frame that is in transit is open, also after the sender is
      gone. */
  predicate MayWrite(s: Sys, h: string, on: Wire)
    requires h in s.nodes
  {
    match on
    case Nowhere => true
    case Early => s.nodes[h].link.None?
    case On(c) =>
      if s.nodes[h].link.Some? then s.nodes[h].link == Some(c)
      else c < |s.hub.owners| && s.hub.owners[c] == h
  }

  ghost predicate Enabled(s: Sys, a: Action) {
    match a
    case Dial(h) => h in s.nodes && s.nodes[h].link.None?
    case Hello(h, projects, drain) => H.Enabled(s.hub, H.Register(h, projects, drain))
    case Welcome(h, c) => h in s.nodes && c < |s.hub.owners| && s.hub.owners[c] == h && s.nodes[h].link.None?
    case Disconnect(h) => h in s.nodes && s.nodes[h].ferry.f.inflight.None?
    case FerryStep(h, fa) =>
      && h in s.nodes && F.Enabled(s.nodes[h].ferry, fa)
      && (fa.Delivery? ==> s.nodes[h].link.Some? && Frames(s.down, s.nodes[h].link.value) != []
                           && fa.env == Frames(s.down, s.nodes[h].link.value)[0])
    case Announce(h, _) => h in s.nodes
    case BeginSend(h, on) =>
      && h in s.nodes && O.Enabled(s.nodes[h].box, O.BeginSend)
      && s.nodes[h].box.queue[0] < |s.nodes[h].box.log| && MayWrite(s, h, on)
    case EndSend(h, closed) => h in s.nodes && O.Enabled(s.nodes[h].box, if closed then O.SendClosed else O.SendDone)
    case FerryRestart(h, _) => h in s.nodes
    case Foreign(c, op) => c < |s.hub.owners| && !op.AckMsg?
    case HubReceive(c, drain, order) =>
      && H.Idle(s.hub, c) && Frames(s.up, c) != []
      && (EmptyAck(s, c) || H.Enabled(s.hub, Received(s, c, drain, order)))
    case HubSend(c, closed, written) => (closed || written) && H.Enabled(s.hub, H.SendHead(c, closed))
    case HubAlone(ha) => (ha.Exit? || ha.SweepAll? || ha.Tick? || ha.Restart?) && H.Enabled(s.hub, ha)
  }

  /** What a ferry's history says host `h` has accepted. */
  function AcceptedBy(h: string, w: F.World): set<(string, Envelope)> {
    set k | 0 <= k < |w.h.acceptances| :: (h, w.h.acceptances[k].env)
  }

  /** What it says host `h` has offered to sessions, and posted for them. */
  function HeardBy(h: string, w: F.World): set<(string, F.OfferMade)> {
    set k | 0 <= k < |w.h.offers| :: (h, w.h.offers[k])
  }

  function SpokenBy(h: string, w: F.World): set<(string, F.Posted)> {
    set k | 0 <= k < |w.h.posts| :: (h, w.h.posts[k])
  }

  ghost function Posted(a: H.Action): set<Envelope> {
    if a.Post? && Valid(a.env) then {a.env} else {}
  }

  ghost function Inserted(hub: H.Hub, a: H.Action): set<Envelope> {
    if a.Post? && Valid(a.env) && a.env.msgId !in hub.store.messages then {a.env} else {}
  }

  ghost function HubMoves(s: Sys, a: H.Action): Sys
    requires H.Enabled(s.hub, a)
  {
    s.(hub := H.Step(s.hub, a), posted := s.posted + Posted(a), stored := s.stored + Inserted(s.hub, a))
  }

  ghost function FerryMoves(s: Sys, h: string, a: F.Action): Sys
    requires Enabled(s, FerryStep(h, a))
  {
    var n := s.nodes[h];
    var (w, ops) := F.Step(n.cfg, n.ferry, a);
    var s1 := s.(nodes := s.nodes[h := n.(ferry := w, box := O.EnqueueAll(n.box, ops))],
                 accepted := s.accepted + AcceptedBy(h, w),
                 heard := s.heard + HeardBy(h, w),
                 spoken := s.spoken + SpokenBy(h, w));
    if a.Delivery? then
      s1.(down := s.down[n.link.value := Frames(s.down, n.link.value)[1..]])
    else s1
  }

  /** The head's send starts, and its frame is in transit unless there is no connection. */
  function SendBegins(s: Sys, h: string, on: Wire): Sys
    requires h in s.nodes && O.Enabled(s.nodes[h].box, O.BeginSend)
    requires s.nodes[h].box.queue[0] < |s.nodes[h].box.log|
  {
    var n := s.nodes[h];
    var op := n.box.log[n.box.queue[0]];
    s.(nodes := s.nodes[h := n.(box := O.Step(n.box, O.BeginSend))],
       up := if on.On? then s.up[on.conn := Frames(s.up, on.conn) + [op]] else s.up,
       early := if on.Early? then s.early[h := Frames(s.early, h) + [op]] else s.early,
       ackSent := if op.AckMsg? && !on.Nowhere? then s.ackSent + {(h, op.id)} else s.ackSent)
  }

  /** Another client of the hub hands in a frame: a post of any kind, or an announce. */
  function Hands(s: Sys, c: nat, op: F.Op): Sys {
    s.(up := s.up[c := Frames(s.up, c) + [op]],
       foreign := if op.PostMsg? then s.foreign + {op.env} else s.foreign)
  }

  ghost function Step(s: Sys, a: Action): Sys
    requires Enabled(s, a)
  {
    match a
    // a new connection replaces the one dialled before
    case Dial(h) => s.(early := s.early - {h})
    // what the host has written to the connection already waits there
    case Hello(h, projects, drain) =>
      HubMoves(s, H.Register(h, projects, drain)).(
        up := s.up[|s.hub.owners| := Frames(s.early, h)], early := s.early - {h})
    case Welcome(h, c) => s.(nodes := s.nodes[h := s.nodes[h].(link := Some(c))])
    case Disconnect(h) => s.(nodes := s.nodes[h := s.nodes[h].(link := None)])
    case FerryStep(h, fa) => FerryMoves(s, h, fa)
    case Announce(h, projects) =>
      s.(nodes := s.nodes[h := s.nodes[h].(box := O.EnqueueAll(s.nodes[h].box, [F.Announcement(projects)]))])
    case BeginSend(h, on) => SendBegins(s, h, on)
    case EndSend(h, closed) =>
      var n := s.nodes[h];
      s.(nodes := s.nodes[h := n.(box := O.Step(n.box, if closed then O.SendClosed else O.SendDone))])
    case FerryRestart(h, clock) => s.(nodes := s.nodes[h := FreshNode(s.nodes[h].cfg, clock)])
    case Foreign(c, op) => Hands(s, c, op)
    case HubReceive(c, drain, order) =>
      var s1 := s.(up := s.up[c := Frames(s.up, c)[1..]]);
      if EmptyAck(s, c) then s1 else HubMoves(s1, Received(s, c, drain, order))
    case HubSend(c, closed, written) =>
      // a send that fails may still have written its frame
      var x := s.hub.handlers[c].todo[0];
      HubMoves(s.(down := if written then s.down[x.conn := Frames(s.down, x.conn) + [x.env]] else s.down),
               H.SendHead(c, closed))
    case HubAlone(ha) => HubMoves(s, ha)
  }

  ghost predicate StepsTo(s: Sys, a: Action, s': Sys) {
    Enabled(s, a) && s' == Step(s, a)
  }

  ghost predicate IsRun(ss: seq<Sys>, acts: seq<Action>) {
    && |ss| == |acts| + 1
    && Initial(ss[0])
    && forall k :: 0 <= k < |acts| ==> StepsTo(ss[k], acts[k], ss[k + 1])
  }
}
