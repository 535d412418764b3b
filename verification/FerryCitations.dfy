/** What a reply may cite: an id its session has accepted, or is being offered just then,
    or was offered by an inject that raised; never one whose offers there were all
    refused. */
module FerryCitations {
  import opened Prelude
  import opened Envelopes
  import opened Registry
  import opened Recent
  import opened FerryModel
  import Q = FerryQueues

  /** Offer `k` has not been refused: it was accepted, it raised, or it is under way. */
  ghost predicate Stands(outcomes: seq<Outcome>, k: nat) {
    k >= |outcomes| || !outcomes[k].Refused?
  }

  /** How many offers of `id` on `sock` stand. */
  ghost function Standing(offers: seq<OfferMade>, outcomes: seq<Outcome>, sock: string, id: string): nat {
    if offers == [] then 0
    else
      var n := |offers| - 1;
      Standing(offers[..n], outcomes, sock, id)
      + if offers[n].sock == sock && offers[n].env.msgId == id && Stands(outcomes, n) then 1 else 0
  }

  /** Every queued copy is owed to a standing offer of its own. */
  ghost predicate Owed(pending: map<string, seq<string>>, h: History) {
    forall sock, id :: multiset(Queue(pending, sock))[id] <= Standing(h.offers, h.outcomes, sock, id)
  }

  /** Outcomes answer the offers in order; the last one is open while inject is awaited. */
  ghost predicate Matched(w: World) {
    match w.f.inflight
    case None => |w.h.outcomes| == |w.h.offers|
    case Some(i) =>
      && |w.h.offers| == |w.h.outcomes| + 1
      && w.h.offers[|w.h.outcomes|].sock == i.sock && w.h.offers[|w.h.outcomes|].env == i.env
  }

  ghost predicate CiteInv(w: World) {
    Matched(w) && Owed(w.f.pending, w.h)
  }

  lemma {:induction false} StandingPrefix(offers: seq<OfferMade>, outcomes: seq<Outcome>, x: Outcome, sock: string, id: string)
    requires |offers| <= |outcomes|
    ensures Standing(offers, outcomes + [x], sock, id) == Standing(offers, outcomes, sock, id)
  {
    if offers != [] {
      StandingPrefix(offers[..|offers| - 1], outcomes, x, sock, id);
    }
  }

  lemma StandingOffer(offers: seq<OfferMade>, outcomes: seq<Outcome>, o: OfferMade, sock: string, id: string)
    requires |outcomes| <= |offers|
    ensures Standing(offers + [o], outcomes, sock, id)
            == Standing(offers, outcomes, sock, id) + if o.sock == sock && o.env.msgId == id then 1 else 0
  {
    assert (offers + [o])[..|offers|] == offers;
  }

  /** An outcome takes a standing offer away if it is a refusal, and only then. */
  lemma StandingOutcome(offers: seq<OfferMade>, outcomes: seq<Outcome>, x: Outcome, sock: string, id: string)
    requires |offers| == |outcomes| + 1
    ensures var o := offers[|outcomes|];
            Standing(offers, outcomes, sock, id)
            == Standing(offers, outcomes + [x], sock, id)
               + if x.Refused? && o.sock == sock && o.env.msgId == id then 1 else 0
  {
    StandingPrefix(offers[..|outcomes|], outcomes, x, sock, id);
  }

  lemma {:induction false} StandingWitness(offers: seq<OfferMade>, outcomes: seq<Outcome>, sock: string, id: string)
    returns (k: nat)
    requires Standing(offers, outcomes, sock, id) > 0
    ensures k < |offers| && offers[k].sock == sock && offers[k].env.msgId == id && Stands(outcomes, k)
  {
    var n := |offers| - 1;
    if offers[n].sock == sock && offers[n].env.msgId == id && Stands(outcomes, n) {
      k := n;
    } else {
      k := StandingWitness(offers[..n], outcomes, sock, id);
    }
  }

  // ---- the queues, counted ----

  lemma RemoveFirstCounts(q: seq<string>, id: string)
    ensures multiset(RemoveFirst(q, id)) == multiset(q) - multiset{id}
  {
    if id in q {
      var k := Q.RemoveFirstAt(q, id);
      assert q == q[..k] + [q[k]] + q[k + 1..];
    } else {
      Q.RemoveFirstAbsent(q, id);
      assert id !in multiset(q);
    }
  }

  lemma EnqueueCounts(pending: map<string, seq<string>>, sock: string, id: string, s: string)
    ensures multiset(Queue(Enqueue(pending, sock, id), s))
            <= multiset(Queue(pending, s)) + if s == sock then multiset{id} else multiset{}
  {
    var q := Queue(pending, sock) + [id];
    assert multiset(q) == multiset(Queue(pending, sock)) + multiset{id};
    if s == sock {
      assert q == [q[0]] + q[1..];
    } else {
      assert Queue(Enqueue(pending, sock, id), s) == Queue(pending, s);
    }
  }

  lemma UnqueueCounts(pending: map<string, seq<string>>, sock: string, id: string, s: string)
    ensures multiset(Queue(Unqueue(pending, sock, id), s))
            == multiset(Queue(pending, s)) - if s == sock then multiset{id} else multiset{}
  {
    RemoveFirstCounts(Queue(pending, sock), id);
    if sock in pending && RemoveFirst(pending[sock], id) == [] && s == sock {
      assert Queue(Unqueue(pending, sock, id), s) == [];
    }
  }

  lemma NextCounts(pending: map<string, seq<string>>, sock: string, s: string)
    ensures multiset(Queue(NextPending(pending, sock).1, s)) <= multiset(Queue(pending, s))
  {
    var q := Queue(pending, sock);
    if q != [] {
      assert q == [q[0]] + q[1..];
    }
  }

  // ---- steps ----

  lemma OfferKeepsCites(f: Ferry, h: History, env: Envelope, targets: seq<Session>, pin: Option<string>)
    requires Owed(f.pending, h) && |h.outcomes| == |h.offers|
    ensures var f' := Offer(f, env, targets, pin); CiteInv(World(f', NoteOffer(h, f.pending, f')))
  {
    hide Enqueue;
    hide Queue;
    var f' := Offer(f, env, targets, pin);
    if f'.inflight.Some? {
      var i := f'.inflight.value;
      var o := OfferMade(i.env, i.target, i.sock, h.pin);
      forall sock, id
        ensures multiset(Queue(f'.pending, sock))[id] <= Standing(h.offers + [o], h.outcomes, sock, id)
      {
        EnqueueCounts(f.pending, i.sock, env.msgId, sock);
        StandingOffer(h.offers, h.outcomes, o, sock, id);
      }
    }
  }

  lemma RefusalKeepsOwed(w: World)
    requires CiteInv(w) && w.f.inflight.Some?
    ensures var i := w.f.inflight.value;
            Owed(Unqueue(w.f.pending, i.sock, i.env.msgId), w.h.(outcomes := w.h.outcomes + [Refused]))
  {
    hide Unqueue;
    hide Queue;
    var i := w.f.inflight.value;
    forall sock, id
      ensures multiset(Queue(Unqueue(w.f.pending, i.sock, i.env.msgId), sock))[id]
              <= Standing(w.h.offers, w.h.outcomes + [Refused], sock, id)
    {
      UnqueueCounts(w.f.pending, i.sock, i.env.msgId, sock);
      StandingOutcome(w.h.offers, w.h.outcomes, Refused, sock, id);
    }
  }

  lemma OtherOutcomeKeepsOwed(w: World, x: Outcome)
    requires CiteInv(w) && w.f.inflight.Some? && !x.Refused?
    ensures Owed(w.f.pending, w.h.(outcomes := w.h.outcomes + [x]))
  {
    forall sock, id
      ensures multiset(Queue(w.f.pending, sock))[id] <= Standing(w.h.offers, w.h.outcomes + [x], sock, id)
    {
      StandingOutcome(w.h.offers, w.h.outcomes, x, sock, id);
    }
  }

  lemma PostKeepsOwed(pending: map<string, seq<string>>, h: History, sock: string)
    requires Owed(pending, h)
    ensures Owed(NextPending(pending, sock).1, h)
  {
    forall s, id
      ensures multiset(Queue(NextPending(pending, sock).1, s))[id] <= Standing(h.offers, h.outcomes, s, id)
    {
      NextCounts(pending, sock, s);
    }
  }

  /** The relation speaks of the queues, the offers and their outcomes alone. */
  lemma SameOwed(pending: map<string, seq<string>>, h: History, h': History)
    requires Owed(pending, h) && h'.offers == h.offers && h'.outcomes == h.outcomes
    ensures Owed(pending, h')
  {
  }

  lemma StepKeepsCites(cfg: Config, w: World, a: Action)
    requires Enabled(w, a) && CiteInv(w)
    ensures CiteInv(Step(cfg, w, a).0)
  {
    hide Owed;
    hide Enqueue;
    hide Unqueue;
    hide NextPending;
    hide PinReply;
    hide Candidates;
    var w' := Step(cfg, w, a).0;
    match a {
      case Local(msg, _, _, _, _) =>
        PostKeepsOwed(w.f.pending, w.h, SocketPath(msg.rawFrom));
        SameOwed(w'.f.pending, w.h, w'.h);
      case Delivery(env, sessions, projectOf, now) =>
        var f1 := w.f.(seen := Prune(w.f.seen, now, FerryModel.D.Span(cfg.window)));
        var hit := FerryModel.D.Hit(w.f.seen, env.msgId, now, cfg.window);
        var cands := if hit then [] else Candidates(w.f.pins, env, LocalSessions(cfg, sessions), projectOf);
        var h := w.h.(clock := now, checkedAt := now, pin := ReplyPin(w.f.pins, env),
                      round := if hit then Round(None, [], [], [])
                               else Round(Some(Request(env, sessions, projectOf)), cands, [], []));
        SameOwed(w.f.pending, w.h, h);
        if !hit {
          OfferKeepsCites(f1, h, env, Attempts(cands), ReplyPin(w.f.pins, env));
        }
      case Injected(outcome, now) =>
        var i := w.f.inflight.value;
        var h := w.h.(clock := now, outcomes := w.h.outcomes + [outcome],
                      round := w.h.round.(outcomes := w.h.round.outcomes + [outcome]));
        if outcome.Refused? {
          RefusalKeepsOwed(w);
          var f1 := w.f.(pending := Unqueue(w.f.pending, i.sock, i.env.msgId));
          SameOwed(f1.pending, w.h.(outcomes := w.h.outcomes + [outcome]), h);
          OfferKeepsCites(f1, h, i.env, i.rest, i.pin);
        } else {
          OtherOutcomeKeepsOwed(w, outcome);
          SameOwed(w.f.pending, w.h.(outcomes := w.h.outcomes + [outcome]), w'.h);
        }
    }
  }

  lemma {:induction false} EveryRunCites(cfg: Config, ws: seq<World>, acts: seq<Action>, k: nat)
    requires IsRun(cfg, ws, acts) && k < |ws|
    ensures CiteInv(ws[k])
  {
    if k > 0 {
      EveryRunCites(cfg, ws, acts, k - 1);
      assert StepsTo(cfg, ws[k - 1], acts[k - 1], ws[k - 1 + 1]);
      StepKeepsCites(cfg, ws[k - 1], acts[k - 1]);
    }
  }

  /** Over every run: when a reply is posted, the id it cites was offered on the socket it
      came from, and that offer had been accepted, had raised, or was being awaited. The
      last case is the one in which the session may yet turn out never to have accepted
      what it answered. */
  lemma CitedStands(cfg: Config, ws: seq<World>, acts: seq<Action>, k: nat) returns (i: nat)
    requires IsRun(cfg, ws, acts) && k < |acts|
    requires |ws[k + 1].h.posts| > |ws[k].h.posts| && Q.Cites(ws[k + 1].h.posts[|ws[k].h.posts|])
    ensures var p, h := ws[k + 1].h.posts[|ws[k].h.posts|], ws[k].h;
            && i < |h.offers| && h.offers[i].sock == p.sock && Some(h.offers[i].env.msgId) == p.env.origMsgId
            && (if i < |h.outcomes| then h.outcomes[i].Accepted? || h.outcomes[i].Raised?
                else ws[k].f.inflight.Some? && ws[k].f.inflight.value.sock == p.sock
                     && ws[k].f.inflight.value.env == h.offers[i].env)
  {
    EveryRunCites(cfg, ws, acts, k);
    assert StepsTo(cfg, ws[k], acts[k], ws[k + 1]);
    hide Offer;
    hide Candidates;
    hide Unqueue;
    var w, p := ws[k], ws[k + 1].h.posts[|ws[k].h.posts|];
    var q := Queue(w.f.pending, p.sock);
    assert p.env.origMsgId == Some(q[0]);
    assert q[0] in multiset(q);
    i := StandingWitness(w.h.offers, w.h.outcomes, p.sock, q[0]);
  }
}
