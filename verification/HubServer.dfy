/** The hub object: a connection table beside a mailbox. Each method is the stretch
    of a handler between two awaits and is proved to be one step of the model. */
module HubServer {
  import opened Prelude
  import opened Envelopes
  import M = MailboxModel
  import opened Mailboxes
  import opened HubModel
  import opened HubLaws

  class Hub {
    const mb: Mailbox
    var conns: map<string, nat>
    var handlers: map<nat, Handler>
    var clock: int
    var nextConn: nat
    ghost var owners: seq<string>
    ghost var attempted: set<(nat, Envelope)>

    ghost function State(): HubModel.Hub
      reads this, mb
    {
      HubModel.Hub(mb.max, mb.State(), conns, handlers, owners, clock, attempted)
    }

    ghost predicate Running()
      reads this, mb
    {
      mb.Consistent() && HubInv(State()) && nextConn == |owners|
    }

    /** A hub process over whatever its mailbox holds: `before` is the hub that ran on it
        last, with `first` connections registered in all. Nothing but the mailbox
        outlives a process, and the clock has not gone back. */
    constructor (mailbox: Mailbox, now: int, first: nat, ghost before: HubModel.Hub)
      requires mailbox.Consistent() && before.store == mailbox.State() && before.cap == mailbox.max
      requires HubInv(before) && |before.owners| == first && before.clock <= now
      ensures Running() && mb == mailbox && nextConn == first
      ensures Enabled(before, Restart) && Enabled(Step(before, Restart), Tick(now))
      ensures State() == Step(Step(before, Restart), Tick(now))
    {
      mb := mailbox;
      conns, handlers, clock, nextConn := map[], map[], now, first;
      owners, attempted := before.owners, before.attempted;
      new;
      StepKeepsInv(before, Restart);
      StepKeepsInv(Step(before, Restart), Tick(now));
    }

    /** The first process on a mailbox, empty or not, has such a `before`. */
    static lemma FirstBoot(mailbox: Mailbox, now: int)
      requires mailbox.Consistent()
      ensures HubInv(Fresh(mailbox.max, now).(store := mailbox.State()))
    {
    }

    /** Time passes. */
    method Advance(now: int)
      requires Running() && clock <= now
      modifies this`clock
      ensures State() == Step(old(State()), Tick(now)) && Running()
    {
      StepKeepsInv(State(), Tick(now));
      clock := now;
    }

    /** The sweeper's turn. */
    method Sweep() returns (count: nat)
      requires Running()
      modifies mb
      ensures State() == Step(old(State()), SweepAll) && Running()
      ensures count == |M.Expired(old(State()).store, clock)|
    {
      StepKeepsInv(State(), SweepAll);
      count := mb.SweepExpired(clock);
    }

    /** handler, up to the first send of the drain: register and take the snapshot. */
    method HandleHello(host: string, projects: set<string>) returns (c: nat, ghost drain: seq<Envelope>)
      requires Running()
      modifies this
      ensures Enabled(old(State()), Register(host, projects, drain))
      ensures State() == Step(old(State()), Register(host, projects, drain))
      ensures Running() && c == old(nextConn) && conns[host] == c
    {
      c := nextConn;
      conns := conns[host := c];
      var envs := mb.PendingFor(host, projects, clock);
      drain := envs;
      StepKeepsInv(old(State()), Register(host, projects, drain));
      handlers := handlers[c := Handler(host, projects, Draining, Aim(c, envs))];
      nextConn, owners := nextConn + 1, owners + [host];
    }

    method HandleAnnounce(c: nat, projects: set<string>) returns (ghost drain: seq<Envelope>)
      requires Running() && Idle(State(), c)
      modifies this`handlers
      ensures Enabled(old(State()), Announce(c, projects, drain))
      ensures State() == Step(old(State()), Announce(c, projects, drain))
      ensures Running()
    {
      var envs := mb.PendingFor(handlers[c].host, projects, clock);
      drain := envs;
      StepKeepsInv(old(State()), Announce(c, projects, drain));
      handlers := handlers[c := Handler(handlers[c].host, projects, Draining, Aim(c, envs))];
    }

    /** The comprehension over the table, as a walk over its hosts. */
    method RecipientsOf(env: Envelope) returns (order: seq<nat>)
      requires TableExact(State())
      ensures Distinct(order) && Members(order) == Recipients(State(), env)
    {
      order := [];
      match env.target {
        case ToHost(h, _) =>
          if h in conns {
            order := [conns[h]];
          }
        case ToProject(_) =>
          var rest := conns.Keys;
          while rest != {}
            invariant rest <= conns.Keys
            invariant Distinct(order)
            invariant Members(order) == set h | h in conns.Keys - rest && conns[h] in handlers
                                                && handlers[conns[h]].host != env.originHost
                                                && env.project in handlers[conns[h]].projects
                                          :: conns[h]
            decreases rest
          {
            var h :| h in rest;
            rest := rest - {h};
            var c := conns[h];
            if c in handlers && handlers[c].host != env.originHost && env.project in handlers[c].projects {
              OneHostPerConnection(rest, h);
              assert c !in Members(order);
              MembersAppend(order, c);
              order := order + [c];
            }
          }
      }
    }

    lemma OneHostPerConnection(rest: set<string>, h: string)
      requires TableExact(State()) && rest <= conns.Keys && h in conns
      ensures forall g :: g in conns && g != h ==> conns[g] != conns[h]
    {
      forall g | g in conns && g != h
        ensures conns[g] != conns[h]
      {
        assert Latest(State(), g, conns[g]) && Latest(State(), h, conns[h]);
      }
    }

    /** _on_post up to its first push, with no await in between: the row is stored and
        the recipients are named, which does not depend on the store. */
    method HandlePost(c: nat, env: Envelope) returns (fault: Option<Fault>, ghost order: seq<nat>)
      requires Running() && Idle(State(), c)
      modifies this`handlers, this`attempted, mb
      ensures fault == Validate(env)
      ensures Enabled(old(State()), Post(c, env, order))
      ensures State() == Step(old(State()), Post(c, env, order))
      ensures Running()
    {
      var recipients := RecipientsOf(env);
      order := recipients;
      StepKeepsInv(old(State()), Post(c, env, order));
      fault := mb.PutEnvelope(env);
      if fault.Some? {
        return;
      }
      attempted := if env.msgId in old(mb.messages) then attempted else Forget(attempted, env.msgId);
      handlers := handlers[c := handlers[c].(activity := Pushing, todo := Fan(recipients, env))];
    }

    method HandleAck(c: nat, id: string)
      requires Running() && Idle(State(), c) && id != ""
      modifies mb
      ensures State() == Step(old(State()), AckMsg(c, id))
      ensures Running()
    {
      StepKeepsInv(State(), AckMsg(c, id));
      mb.AckMessage(id, handlers[c].host);
    }

    /** The finally clause of handler. */
    method LeaveHandler(c: nat)
      requires Running() && c in handlers
      requires handlers[c].todo == [] || handlers[c].activity.Draining?
      modifies this`conns, this`handlers
      ensures State() == Leave(old(State()), c)
      ensures Running()
    {
      LeaveKeepsTable(State(), c);
      LeaveWakes(State(), c);
      var host := handlers[c].host;
      if host in conns && conns[host] == c {
        conns := conns - {host};
      }
      handlers := handlers - {c};
    }

    /** One turn of a send loop: the send of the head, which ends a drain's handler
        and is swallowed by a push when its connection is closed. */
    method ResumeSend(c: nat, closed: bool)
      requires Running() && c in handlers && handlers[c].todo != []
      modifies this`conns, this`handlers, this`attempted
      ensures State() == Step(old(State()), SendHead(c, closed))
      ensures Running()
    {
      StepKeepsInv(State(), SendHead(c, closed));
      var h := handlers[c];
      attempted := attempted + {(h.todo[0].conn, h.todo[0].env)};
      if h.activity.Draining? && closed {
        if h.host in conns && conns[h.host] == c {
          conns := conns - {h.host};
        }
        handlers := handlers - {c};
      } else {
        handlers := handlers[c := h.(todo := h.todo[1..])];
      }
    }
  }
}
