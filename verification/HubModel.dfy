/** The hub as a state machine. One step is what a handler does between two
    awaits; every send is an await, so a drain or push list is worked off one
    send per step while other handlers run. */
module HubModel {
  import opened Prelude
  import opened Envelopes
  import opened MailboxModel

  /** A deliver of `env` on connection `conn`, not yet begun. */
  datatype Send = Send(conn: nat, env: Envelope)

  /** Which loop a handler's unfinished sends belong to. */
  datatype Activity = Draining | Pushing

  datatype Handler = Handler(host: string, projects: set<string>, activity: Activity, todo: seq<Send>)

  /** Connections are numbered in order of registration. `owners[c]` is the host of
      connection `c`, `attempted` the delivers begun per connection. */
  datatype Hub = Hub(
    cap: nat,
    store: Store,
    conns: map<string, nat>,
    handlers: map<nat, Handler>,
    owners: seq<string>,
    clock: int,
    attempted: set<(nat, Envelope)>)

  function Fresh(cap: nat, clock: int): Hub {
    Hub(cap, EMPTY, map[], map[], [], clock, {})
  }

  datatype Action =
    | Register(host: string, projects: set<string>, drain: seq<Envelope>)
    | Announce(conn: nat, projects: set<string>, drain: seq<Envelope>)
    | Post(conn: nat, env: Envelope, order: seq<nat>)
    | AckMsg(conn: nat, id: string)
    | SendHead(conn: nat, closed: bool)
    | Exit(conn: nat)
    | SweepAll
    | Tick(clock: int)
    | Restart

  /** The connections a fresh post is pushed to. */
  function Recipients(s: Hub, env: Envelope): set<nat> {
    match env.target
    case ToHost(h, _) => if h in s.conns then {s.conns[h]} else {}
    case ToProject(_) =>
      set h | h in s.conns && s.conns[h] in s.handlers
              && s.handlers[s.conns[h]].host != env.originHost
              && env.project in s.handlers[s.conns[h]].projects
        :: s.conns[h]
  }

  predicate Idle(s: Hub, c: nat) {
    c in s.handlers && s.handlers[c].todo == []
  }

  function Aim(c: nat, envs: seq<Envelope>): seq<Send> {
    seq(|envs|, i requires 0 <= i < |envs| => Send(c, envs[i]))
  }

  function Fan(order: seq<nat>, env: Envelope): seq<Send> {
    seq(|order|, i requires 0 <= i < |order| => Send(order[i], env))
  }

  ghost predicate Enabled(s: Hub, a: Action) {
    match a
    case Register(host, projects, drain) => Listing(drain, Pending(s.store, host, projects, s.clock))
    case Announce(c, projects, drain) =>
      Idle(s, c) && Listing(drain, Pending(s.store, s.handlers[c].host, projects, s.clock))
    case Post(c, env, order) => Idle(s, c) && Distinct(order) && Members(order) == Recipients(s, env)
    case AckMsg(c, id) => Idle(s, c) && id != ""
    case SendHead(c, _) => c in s.handlers && s.handlers[c].todo != []
    case Exit(c) => Idle(s, c)
    case SweepAll => true
    case Tick(clock) => s.clock <= clock
    case Restart => true
  }

  /** Leaving the handler: the table entry goes only if it is still this connection. */
  ghost function Leave(s: Hub, c: nat): Hub
    requires c in s.handlers
  {
    var h := s.handlers[c].host;
    s.(handlers := s.handlers - {c},
       conns := if h in s.conns && s.conns[h] == c then s.conns - {h} else s.conns)
  }

  /** A row that is stored anew starts with no delivers to its name. */
  ghost function Forget(attempted: set<(nat, Envelope)>, id: string): set<(nat, Envelope)> {
    set p | p in attempted && p.1.msgId != id
  }

  ghost function Step(s: Hub, a: Action): Hub
    requires Enabled(s, a)
  {
    match a
    case Register(host, projects, drain) =>
      var c := |s.owners|;
      s.(conns := s.conns[host := c],
         handlers := s.handlers[c := Handler(host, projects, Draining, Aim(c, drain))],
         owners := s.owners + [host])
    case Announce(c, projects, drain) =>
      s.(handlers := s.handlers[c := Handler(s.handlers[c].host, projects, Draining, Aim(c, drain))])
    case Post(c, env, order) =>
      if !Valid(env) then s
      else
        s.(store := Put(s.store, env, s.cap),
           handlers := s.handlers[c := s.handlers[c].(activity := Pushing, todo := Fan(order, env))],
           attempted := if env.msgId in s.store.messages then s.attempted else Forget(s.attempted, env.msgId))
    case AckMsg(c, id) => s.(store := Ack(s.store, id, s.handlers[c].host))
    case SendHead(c, closed) =>
      var h := s.handlers[c];
      var s1 := s.(attempted := s.attempted + {(h.todo[0].conn, h.todo[0].env)});
      // a drain lets the closed connection end its handler; a push swallows it
      if h.activity.Draining? && closed then Leave(s1, c)
      else s1.(handlers := s1.handlers[c := h.(todo := h.todo[1..])])
    case Exit(c) => Leave(s, c)
    case SweepAll => s.(store := Sweep(s.store, s.clock))
    case Tick(clock) => s.(clock := clock)
    case Restart => s.(conns := map[], handlers := map[])
  }

  ghost predicate Legal(s: Hub, acts: seq<Action>)
    decreases |acts|, 0
  {
    acts == []
    || (Legal(s, acts[..|acts| - 1]) && Enabled(After(s, acts[..|acts| - 1]), acts[|acts| - 1]))
  }

  ghost function After(s: Hub, acts: seq<Action>): Hub
    requires Legal(s, acts)
    decreases |acts|, 1
  {
    if acts == [] then s else Step(After(s, acts[..|acts| - 1]), acts[|acts| - 1])
  }
}
