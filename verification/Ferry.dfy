/** The ferry object. on_deliver is a loop with an await in it; what happens during
    that await is an argument, so its result is stated for every interleaving. */
module Ferries {
  import opened Prelude
  import opened Envelopes
  import opened Registry
  import D = Dedups
  import opened FerryModel
  import opened HubClients
  import N = Notify
  import opened Paths

  /** One local message handled, with the registry and clock it found. */
  datatype Heard = Heard(msg: LocalMsg, sessions: seq<Session>, projectOf: string -> Option<string>, id: string, now: int)

  /** What happens while one inject is awaited, and how it ends. */
  datatype Await = Await(heard: seq<Heard>, outcome: Outcome, now: int)

  function HeardAction(m: Heard): Action {
    Local(m.msg, m.sessions, m.projectOf, m.id, m.now)
  }

  /** A list of local messages handled in order. */
  function HearState(cfg: Config, f: Ferry, ms: seq<Heard>): (r: (Ferry, seq<Op>))
    ensures r.0.inflight == f.inflight
  {
    if ms == [] then (f, [])
    else
      var (m, ops) := HearState(cfg, f, ms[..|ms| - 1]);
      var (f', more) := StepState(cfg, m, HeardAction(ms[|ms| - 1]));
      (f', ops + more)
  }

  /** A delivery carried through the awaits it meets, until nothing is in flight. */
  function Finish(cfg: Config, f: Ferry, awaits: seq<Await>): (Ferry, seq<Op>)
    decreases |awaits|
  {
    if f.inflight.None? || awaits == [] then (f, [])
    else
      var (f1, ops1) := HearState(cfg, f, awaits[0].heard);
      var (f2, ops2) := StepState(cfg, f1, Injected(awaits[0].outcome, awaits[0].now));
      var (f3, ops3) := Finish(cfg, f2, awaits[1..]);
      (f3, ops1 + ops2 + ops3)
  }

  /** `goal` is what `ops` and the remaining work amount to. */
  ghost predicate Remains(goal: (Ferry, seq<Op>), ops: seq<Op>, rest: (Ferry, seq<Op>)) {
    goal.0 == rest.0 && goal.1 == ops + rest.1
  }

  lemma FinishNoCandidate(cfg: Config, f: Ferry, env: Envelope, pin: Option<string>, awaits: seq<Await>)
    requires f.inflight.None?
    ensures Finish(cfg, Offer(f, env, [], pin), awaits) == (f, [])
  {
  }

  lemma RemainsStep(goal: (Ferry, seq<Op>), ops: seq<Op>, mid: (Ferry, seq<Op>), more: seq<Op>, rest: (Ferry, seq<Op>))
    requires Remains(goal, ops, mid) && Remains(mid, more, rest)
    ensures Remains(goal, ops + more, rest)
  {
    assert ops + (more + rest.1) == ops + more + rest.1;
  }

  /** The first candidate's turn, and what is left for the others. */
  lemma FinishTurn(cfg: Config, f: Ferry, env: Envelope, targets: seq<Session>, pin: Option<string>, awaits: seq<Await>)
    requires targets != [] && targets[0].sock.Some? && awaits != []
    ensures var i := Inflight(env, targets[0], targets[0].sock.value, targets[1..], pin);
            var (f1, ops1) := HearState(cfg, f.(pending := Enqueue(f.pending, i.sock, env.msgId), inflight := Some(i)),
                                        awaits[0].heard);
            var (f2, ops2) := StepState(cfg, f1, Injected(awaits[0].outcome, awaits[0].now));
            var all, rest := Finish(cfg, Offer(f, env, targets, pin), awaits), Finish(cfg, f2, awaits[1..]);
            all.0 == rest.0 && all.1 == ops1 + ops2 + rest.1
  {
  }

  // ---- a finished delivery is a run of the model ----

  /** Only a suspended inject can return. */
  predicate MayStep(f: Ferry, a: Action) {
    a.Injected? ==> f.inflight.Some?
  }

  function Stepper(cfg: Config): (Ferry, Action) -> (Ferry, seq<Op>) {
    (f: Ferry, a: Action) => if MayStep(f, a) then StepState(cfg, f, a) else (f, [])
  }

  function HeardActions(ms: seq<Heard>): seq<Action> {
    seq(|ms|, i requires 0 <= i < |ms| => HeardAction(ms[i]))
  }

  lemma {:induction false} HearIsPlay(cfg: Config, f: Ferry, ms: seq<Heard>)
    ensures HearState(cfg, f, ms) == Play(Stepper(cfg), f, HeardActions(ms))
    ensures Guarded(Stepper(cfg), MayStep, f, HeardActions(ms))
  {
    if ms != [] {
      var n := |ms| - 1;
      HearIsPlay(cfg, f, ms[..n]);
      assert HeardActions(ms)[..n] == HeardActions(ms[..n]);
    }
  }

  lemma PlayOne(cfg: Config, f: Ferry, a: Action)
    requires MayStep(f, a)
    ensures Play(Stepper(cfg), f, [a]) == StepState(cfg, f, a)
    ensures Guarded(Stepper(cfg), MayStep, f, [a])
  {
    assert [a][..0] == [];
    assert Play(Stepper(cfg), f, []) == (f, []);
    assert [] + StepState(cfg, f, a).1 == StepState(cfg, f, a).1;
  }

  /** What carries a delivery to its end is model steps, each allowed where taken. */
  lemma {:induction false} FinishIsPlay(cfg: Config, f: Ferry, awaits: seq<Await>) returns (acts: seq<Action>)
    ensures Play(Stepper(cfg), f, acts) == Finish(cfg, f, awaits)
    ensures Guarded(Stepper(cfg), MayStep, f, acts)
    decreases |awaits|
  {
    if f.inflight.None? || awaits == [] {
      acts := [];
    } else {
      var heard, a := HeardActions(awaits[0].heard), Injected(awaits[0].outcome, awaits[0].now);
      HearIsPlay(cfg, f, awaits[0].heard);
      var f1 := HearState(cfg, f, awaits[0].heard).0;
      PlayOne(cfg, f1, a);
      PlayConcat(Stepper(cfg), f, heard, [a]);
      GuardedConcat(Stepper(cfg), MayStep, f, heard, [a]);
      var f2 := StepState(cfg, f1, a).0;
      var rest := FinishIsPlay(cfg, f2, awaits[1..]);
      PlayConcat(Stepper(cfg), f, heard + [a], rest);
      GuardedConcat(Stepper(cfg), MayStep, f, heard + [a], rest);
      acts := heard + [a] + rest;
    }
  }

  /** Three awaits always suffice. */
  lemma ThreeAwaitsFinish(cfg: Config, f: Ferry, awaits: seq<Await>)
    requires f.inflight.Some? ==> |f.inflight.value.rest| < |awaits|
    ensures Finish(cfg, f, awaits).0.inflight.None?
    decreases |awaits|
  {
    if f.inflight.Some? {
      var (f1, ops1) := HearState(cfg, f, awaits[0].heard);
      var (f2, ops2) := StepState(cfg, f1, Injected(awaits[0].outcome, awaits[0].now));
      ThreeAwaitsFinish(cfg, f2, awaits[1..]);
    }
  }

  class FerryApp {
    const cfg: Config
    const dedup: D.Dedup
    const hub: HubClient<Op>
    var pending: map<string, seq<string>>
    var pinOrder: seq<string>
    var pinOwner: map<string, string>
    var notified: map<N.Key, int>

    /** The model state, with the delivery under way passed in: in the code it is the
        frame of on_deliver. */
    ghost function State(inflight: Option<Inflight>): Ferry
      reads this, dedup
    {
      Ferry(pending, Pins(pinOrder, pinOwner), dedup.seen, inflight)
    }

    ghost predicate Ready()
      reads this, dedup, hub
    {
      hub.Mirrors() && dedup.window == cfg.window
    }

    /** Exactly `ops` have been handed to the hub client since its log was `log`. */
    ghost predicate HandedOver(log: seq<Op>, ops: seq<Op>)
      reads this, hub
    {
      hub.box.log == log + ops
    }

    constructor (config: Config)
      ensures Ready() && cfg == config && State(None) == IDLE && fresh(hub) && fresh(dedup)
      ensures hub.box.log == []
    {
      cfg := config;
      dedup := new D.Dedup(config.window);
      hub := new HubClient<Op>();
      pending, pinOrder, pinOwner, notified := map[], [], map[], map[];
    }

    method QueuePending(sock: string, id: string)
      modifies this`pending
      ensures pending == Enqueue(old(pending), sock, id)
    {
      var q := (if sock in pending then pending[sock] else []) + [id];
      pending := pending[sock := if |q| > PENDING_PER_SOCKET_MAX then q[1..] else q];
    }

    method UnqueuePending(sock: string, id: string)
      modifies this`pending
      ensures pending == Unqueue(old(pending), sock, id)
    {
      if sock !in pending {
        return;
      }
      var q := RemoveFirst(pending[sock], id);
      pending := if q == [] then pending - {sock} else pending[sock := q];
    }

    method TakeNextPending(sock: string) returns (orig: Option<string>)
      modifies this`pending
      ensures (orig, pending) == NextPending(old(pending), sock)
    {
      if sock !in pending || pending[sock] == [] {
        return None;
      }
      orig := Some(pending[sock][0]);
      var q := pending[sock][1..];
      pending := if q == [] then pending - {sock} else pending[sock := q];
    }

    method PinReplyTo(id: string, sid: string)
      modifies this`pinOrder, this`pinOwner
      ensures Pins(pinOrder, pinOwner) == PinReply(old(Pins(pinOrder, pinOwner)), id, sid)
    {
      if id !in pinOwner {
        pinOrder := pinOrder + [id];
      }
      pinOwner := pinOwner[id := sid];
      while |pinOrder| > AWAITING_REPLY_MAX
        invariant Trim(Pins(pinOrder, pinOwner)) == PinReply(old(Pins(pinOrder, pinOwner)), id, sid)
      {
        pinOrder, pinOwner := pinOrder[1..], pinOwner - {pinOrder[0]};
      }
    }

    method HandOver(op: Op, ghost inflight: Option<Inflight>)
      requires Ready()
      modifies hub`outbox, hub`box
      ensures Ready() && HandedOver(old(hub.box.log), [op]) && State(inflight) == old(State(inflight))
    {
      hub.EnqueueOp(op);
    }

    /** on_local_message: one step, whatever delivery is suspended meanwhile. */
    method OnLocalMessage(m: Heard, ghost inflight: Option<Inflight>) returns (ghost ops: seq<Op>)
      requires Ready()
      modifies this`pending, this`pinOrder, this`pinOwner, hub`outbox, hub`box
      ensures Ready() && dedup.seen == old(dedup.seen)
      ensures (State(inflight), ops) == StepState(cfg, old(State(inflight)), HeardAction(m))
      ensures HandedOver(old(hub.box.log), ops)
    {
      ops := [];
      var local := LocalSessions(cfg, m.sessions);
      var sender := FindBySocket(local, m.msg.rawFrom);
      if sender.None? {
        return;
      }
      var project := m.projectOf(sender.value.cwd);
      if project == None || project == Some("") {
        return;
      }
      var orig := TakeNextPending(SocketPath(m.msg.rawFrom));
      var env := BuildEnvelope(cfg, m.id, project.value, m.msg, orig, m.now);
      if !(sender.value.sessionId == None || sender.value.sessionId == Some("")) {
        PinReplyTo(m.id, sender.value.sessionId.value);
      }
      ops := [PostMsg(env)];
      HandOver(PostMsg(env), inflight);
    }

    /** Everything heard during one await, in order. */
    method HearAll(ms: seq<Heard>, ghost inflight: Option<Inflight>) returns (ghost ops: seq<Op>)
      requires Ready()
      modifies this`pending, this`pinOrder, this`pinOwner, hub`outbox, hub`box
      ensures Ready() && dedup.seen == old(dedup.seen)
      ensures (State(inflight), ops) == HearState(cfg, old(State(inflight)), ms)
      ensures HandedOver(old(hub.box.log), ops)
    {
      ops := [];
      var i := 0;
      while i < |ms|
        invariant 0 <= i <= |ms|
        invariant Ready() && dedup.seen == old(dedup.seen)
        invariant (State(inflight), ops) == HearState(cfg, old(State(inflight)), ms[..i])
        invariant HandedOver(old(hub.box.log), ops)
      {
        ghost var more := OnLocalMessage(ms[i], inflight);
        assert ms[..i + 1][..i] == ms[..i];
        ops := ops + more;
        i := i + 1;
      }
      assert ms[..i] == ms;
    }

    /** _candidates, with the pin to retire once one of them accepts. */
    method FindCandidates(env: Envelope, local: seq<Session>, projectOf: string -> Option<string>)
      returns (candidates: seq<Session>, pin: Option<string>)
      ensures pin == ReplyPin(Pins(pinOrder, pinOwner), env)
      ensures candidates == Candidates(Pins(pinOrder, pinOwner), env, local, projectOf)
    {
      if env.mtype == "reply" && env.origMsgId.Some? && env.origMsgId.value in pinOwner {
        pin := env.origMsgId;
        var target := FindById(local, pinOwner[pin.value]);
        candidates := if target.Some? then [target.value] else [];
      } else {
        pin := None;
        candidates := RankTargets(local, env.project, projectOf);
      }
    }

    /** The work after an accepted inject: record, retire the pin, ack. */
    method Conclude(i: Inflight, now: int) returns (ghost ops: seq<Op>)
      requires Ready()
      modifies this`pinOrder, this`pinOwner, dedup`seen, hub`outbox, hub`box
      ensures Ready() && pending == old(pending)
      ensures (State(None), ops) == StepState(cfg, old(State(Some(i))), Injected(Accepted, now))
      ensures HandedOver(old(hub.box.log), ops)
    {
      dedup.Record(i.env.msgId, now);
      if i.pin.Some? {
        pinOrder, pinOwner := RemoveFirst(pinOrder, i.pin.value), pinOwner - {i.pin.value};
      }
      ops := [AckMsg(i.env.msgId)];
      HandOver(AckMsg(i.env.msgId), None);
    }

    /** One turn of the candidate loop: queue the id, await the inject, and either
        conclude, fail, or take the id back off the queue. */
    method Attempt(i: Inflight, await: Await) returns (ghost ops: seq<Op>)
      requires Ready()
      modifies this`pending, this`pinOrder, this`pinOwner, dedup`seen, hub`outbox, hub`box
      ensures Ready()
      ensures var (f1, ops1) := HearState(cfg, old(State(None)).(pending := Enqueue(old(pending), i.sock, i.env.msgId),
                                                                inflight := Some(i)), await.heard);
              var (f2, ops2) := StepState(cfg, f1, Injected(await.outcome, await.now));
              && ops == ops1 + ops2
              && f2 == if await.outcome.Refused? then Offer(State(None), i.env, i.rest, i.pin) else State(None)
      ensures HandedOver(old(hub.box.log), ops)
    {
      QueuePending(i.sock, i.env.msgId);
      ops := HearAll(await.heard, Some(i));
      match await.outcome {
        case Accepted =>
          ghost var more := Conclude(i, await.now);
          ops := ops + more;
        case Refused => UnqueuePending(i.sock, i.env.msgId);
        case Raised =>
      }
    }

    /** The turn of the first of `targets`; `go` if it refused and the loop goes on. */
    method TryNext(env: Envelope, targets: seq<Session>, pin: Option<string>, awaits: seq<Await>)
      returns (ghost ops: seq<Op>, go: bool)
      requires Ready() && targets != [] && awaits != []
      modifies this`pending, this`pinOrder, this`pinOwner, dedup`seen, hub`outbox, hub`box
      ensures Ready()
      ensures Remains(Finish(cfg, Offer(old(State(None)), env, targets, pin), awaits), ops,
                      if go then Finish(cfg, Offer(State(None), env, targets[1..], pin), awaits[1..])
                      else (State(None), []))
      ensures HandedOver(old(hub.box.log), ops)
    {
      var target := targets[0];
      if target.sock.None? {
        return [], false;
      }
      FinishTurn(cfg, State(None), env, targets, pin, awaits);
      ops := Attempt(Inflight(env, target, target.sock.value, targets[1..], pin), awaits[0]);
      go := awaits[0].outcome.Refused?;
    }

    /** The candidate loop of on_deliver, with its early exits. */
    method TryCandidates(env: Envelope, targets: seq<Session>, pin: Option<string>, awaits: seq<Await>)
      returns (ghost ops: seq<Op>)
      requires Ready() && |targets| <= |awaits|
      modifies this`pending, this`pinOrder, this`pinOwner, dedup`seen, hub`outbox, hub`box
      ensures Ready()
      ensures var (f, out) := Finish(cfg, Offer(old(State(None)), env, targets, pin), awaits);
              State(None) == f && ops == out
      ensures HandedOver(old(hub.box.log), ops)
    {
      hide Finish;
      hide Offer;
      ops := [];
      ghost var goal := Finish(cfg, Offer(State(None), env, targets, pin), awaits);
      ghost var rest := goal;
      var i, go := 0, true;
      assert targets[0..] == targets && awaits[0..] == awaits;
      while go && i < |targets|
        invariant 0 <= i <= |targets| && Ready() && Remains(goal, ops, rest)
        invariant rest == if go then Finish(cfg, Offer(State(None), env, targets[i..], pin), awaits[i..]) else (State(None), [])
        invariant HandedOver(old(hub.box.log), ops)
      {
        ghost var mid, more := rest, [];
        more, go := TryNext(env, targets[i..], pin, awaits[i..]);
        assert targets[i..][1..] == targets[i + 1..] && awaits[i..][1..] == awaits[i + 1..];
        rest := if go then Finish(cfg, Offer(State(None), env, targets[i + 1..], pin), awaits[i + 1..]) else (State(None), []);
        RemainsStep(goal, ops, mid, more, rest);
        ops := ops + more;
        i := i + 1;
      }
      assert go ==> targets[i..] == [];
      FinishNoCandidate(cfg, State(None), env, pin, awaits[i..]);
      assert ops + [] == ops;
    }

    /** on_deliver. `awaits` says, for each inject that is reached, what is heard while
        it is awaited and how it ends. The new state and the ops handed over are the
        model's, and nothing is left in flight. */
    method OnDeliver(env: Envelope, sessions: seq<Session>, projectOf: string -> Option<string>, now: int,
                     awaits: seq<Await>)
      returns (ghost ops: seq<Op>)
      requires Ready() && |awaits| >= MAX_INJECT_ATTEMPTS
      modifies this`pending, this`pinOrder, this`pinOwner, dedup`seen, hub`outbox, hub`box
      ensures Ready()
      ensures var (f1, ops1) := Deliver(cfg, old(State(None)), env, sessions, projectOf, now);
              State(None) == Finish(cfg, f1, awaits).0 && ops == ops1 + Finish(cfg, f1, awaits).1
      ensures HandedOver(old(hub.box.log), ops)
    {
      var hit := dedup.Check(env.msgId, now);
      if hit {
        ops := [AckMsg(env.msgId)];
        HandOver(AckMsg(env.msgId), None);
        return;
      }
      var candidates, pin := FindCandidates(env, LocalSessions(cfg, sessions), projectOf);
      ops := TryCandidates(env, Attempts(candidates), pin, awaits);
    }

    /** _notify_ok: the only state a ferry-authored note touches is the cool-down map. */
    method NotifyOk(sid: string, key: string, now: int) returns (ok: bool)
      modifies this`notified
      ensures ok == N.Grants(old(notified), N.Call((sid, key), now))
      ensures notified == N.Next(old(notified), N.Call((sid, key), now))
    {
      var k := (sid, key);
      if k in notified && now - notified[k] < N.NOTIFY_COOLDOWN_MS {
        return false;
      }
      notified := map kk | kk in notified && now - notified[kk] < N.NOTIFY_COOLDOWN_MS :: notified[kk];
      notified := notified[k := now];
      return true;
    }
  }
}
