/** Reply correlation: the queues of ids awaiting an answer, over every interleaving
    of deliveries and local messages. */
module FerryQueues {
  import opened Prelude
  import opened Envelopes
  import opened Registry
  import opened FerryModel

  /** Every stored queue has between 1 and 16 entries. */
  ghost predicate QueuesBounded(pending: map<string, seq<string>>) {
    forall sock :: sock in pending ==> 1 <= |pending[sock]| <= PENDING_PER_SOCKET_MAX
  }

  /** The ids queued for a socket by inject attempts, in attempt order. */
  ghost function OfferedTo(offers: seq<OfferMade>, sock: string): seq<string> {
    if offers == [] then []
    else
      var last := offers[|offers| - 1];
      OfferedTo(offers[..|offers| - 1], sock) + if last.sock == sock then [last.env.msgId] else []
  }

  /** The ids cited by the replies posted from a socket, in posting order. */
  ghost function CitedBy(posts: seq<Posted>, sock: string): seq<string> {
    if posts == [] then []
    else
      var last := posts[|posts| - 1];
      CitedBy(posts[..|posts| - 1], sock)
      + if last.sock == sock && last.env.mtype == "reply" && last.env.origMsgId.Some?
        then [last.env.origMsgId.value] else []
  }

  /** What a socket has cited, followed by what it may still cite, is a subsequence
      of what was queued for it. */
  ghost predicate Fifo(w: World) {
    forall sock :: Subseq(CitedBy(w.h.posts, sock) + Queue(w.f.pending, sock), OfferedTo(w.h.offers, sock))
  }

  lemma {:induction false} RemoveFirstAt(q: seq<string>, id: string) returns (k: nat)
    requires id in q
    ensures k < |q| && q[k] == id && id !in q[..k]
    ensures RemoveFirst(q, id) == q[..k] + q[k + 1..]
  {
    if q[0] == id {
      k := 0;
    } else {
      assert q == [q[0]] + q[1..];
      k := RemoveFirstAt(q[1..], id);
      assert q[..k + 1] == [q[0]] + q[1..][..k];
      k := k + 1;
    }
  }

  lemma {:induction false} RemoveFirstAbsent(q: seq<string>, id: string)
    requires id !in q
    ensures RemoveFirst(q, id) == q
  {
    if q != [] {
      RemoveFirstAbsent(q[1..], id);
    }
  }

  lemma {:induction false} RemoveFirstShorter(q: seq<string>, id: string)
    ensures |RemoveFirst(q, id)| <= |q|
  {
    if q != [] {
      RemoveFirstShorter(q[1..], id);
    }
  }

  lemma UnqueueBounded(pending: map<string, seq<string>>, sock: string, id: string)
    requires QueuesBounded(pending)
    ensures QueuesBounded(Unqueue(pending, sock, id))
  {
    if sock in pending {
      RemoveFirstShorter(pending[sock], id);
    }
  }

  lemma StepKeepsBound(cfg: Config, w: World, a: Action)
    requires Enabled(w, a) && QueuesBounded(w.f.pending)
    ensures QueuesBounded(Step(cfg, w, a).0.f.pending)
  {
    if a.Injected? {
      UnqueueBounded(w.f.pending, w.f.inflight.value.sock, w.f.inflight.value.env.msgId);
    }
  }

  // ---- one socket's queue ----

  lemma FifoEnqueue(cited: seq<string>, pending: map<string, seq<string>>, sock: string, id: string, offered: seq<string>)
    requires Subseq(cited + Queue(pending, sock), offered)
    ensures Subseq(cited + Queue(Enqueue(pending, sock, id), sock), offered + [id])
  {
    hide Subseq;
    var q := Queue(pending, sock);
    SubseqAppend(cited + q, offered, id);
    assert cited + q + [id] == cited + (q + [id]);
    if |q + [id]| > PENDING_PER_SOCKET_MAX {
      SubseqDeleteFirst(cited, q + [id], offered + [id]);
    }
  }

  lemma FifoUnqueue(cited: seq<string>, pending: map<string, seq<string>>, sock: string, id: string, offered: seq<string>)
    requires Subseq(cited + Queue(pending, sock), offered)
    ensures Subseq(cited + Queue(Unqueue(pending, sock, id), sock), offered)
  {
    hide Subseq;
    var q := Queue(pending, sock);
    if sock in pending {
      if id in q {
        var k := RemoveFirstAt(q, id);
        SubseqDeleteLater(cited, q, offered, k);
      } else {
        RemoveFirstAbsent(q, id);
      }
      assert Queue(Unqueue(pending, sock, id), sock) == RemoveFirst(q, id);
    }
  }

  lemma FifoNext(cited: seq<string>, pending: map<string, seq<string>>, sock: string, offered: seq<string>)
    requires Subseq(cited + Queue(pending, sock), offered)
    ensures var (orig, pending') := NextPending(pending, sock);
            && Subseq(cited + Queue(pending', sock), offered)
            && (orig.Some? ==> Subseq(cited + [orig.value] + Queue(pending', sock), offered))
  {
    hide Subseq;
    var q := Queue(pending, sock);
    if q != [] {
      SubseqDeleteFirst(cited, q, offered);
      assert cited + [q[0]] + q[1..] == cited + q;
      assert Queue(NextPending(pending, sock).1, sock) == q[1..];
    }
  }

  // ---- steps ----

  lemma OfferedToAppend(offers: seq<OfferMade>, o: OfferMade, s: string)
    ensures OfferedTo(offers + [o], s) == if o.sock == s then OfferedTo(offers, s) + [o.env.msgId] else OfferedTo(offers, s)
  {
    assert (offers + [o])[..|offers|] == offers;
    assert OfferedTo(offers, s) + [] == OfferedTo(offers, s);
  }

  predicate Cites(p: Posted) {
    p.env.mtype == "reply" && p.env.origMsgId.Some?
  }

  lemma CitedByAppend(posts: seq<Posted>, p: Posted, s: string)
    ensures CitedBy(posts + [p], s)
            == if p.sock == s && Cites(p) then CitedBy(posts, s) + [p.env.origMsgId.value] else CitedBy(posts, s)
  {
    assert (posts + [p])[..|posts|] == posts;
    assert CitedBy(posts, s) + [] == CitedBy(posts, s);
  }

  lemma SameQueues(w: World, w': World)
    requires Fifo(w) && w'.f.pending == w.f.pending && w'.h.posts == w.h.posts && w'.h.offers == w.h.offers
    ensures Fifo(w')
  {
    hide Subseq;
    forall s
      ensures Subseq(CitedBy(w'.h.posts, s) + Queue(w'.f.pending, s), OfferedTo(w'.h.offers, s))
    {
      assert Subseq(CitedBy(w.h.posts, s) + Queue(w.f.pending, s), OfferedTo(w.h.offers, s));
    }
  }

  lemma OneOfferKeepsFifo(w: World, o: OfferMade, s: string)
    requires Fifo(w)
    ensures Subseq(CitedBy(w.h.posts, s) + Queue(Enqueue(w.f.pending, o.sock, o.env.msgId), s),
                   OfferedTo(w.h.offers + [o], s))
  {
    hide Subseq;
    assert Subseq(CitedBy(w.h.posts, s) + Queue(w.f.pending, s), OfferedTo(w.h.offers, s));
    OfferedToAppend(w.h.offers, o, s);
    if s == o.sock {
      FifoEnqueue(CitedBy(w.h.posts, s), w.f.pending, s, o.env.msgId, OfferedTo(w.h.offers, s));
    } else {
      assert Queue(Enqueue(w.f.pending, o.sock, o.env.msgId), s) == Queue(w.f.pending, s);
    }
  }

  /** After an offer, if there was one, the relation holds for the longer history. */
  lemma OfferKeepsFifo(h: History, f: Ferry, env: Envelope, targets: seq<Session>, pin: Option<string>)
    requires Fifo(World(f, h))
    ensures var f' := Offer(f, env, targets, pin); Fifo(World(f', NoteOffer(h, f.pending, f')))
  {
    hide Subseq;
    var f' := Offer(f, env, targets, pin);
    var w' := World(f', NoteOffer(h, f.pending, f'));
    if f'.inflight.None? {
      SameQueues(World(f, h), w');
    } else {
      var i := f'.inflight.value;
      var o := OfferMade(i.env, i.target, i.sock, h.pin);
      forall s
        ensures Subseq(CitedBy(w'.h.posts, s) + Queue(w'.f.pending, s), OfferedTo(w'.h.offers, s))
      {
        OneOfferKeepsFifo(World(f, h), o, s);
      }
    }
  }

  lemma UnqueueKeepsFifo(w: World, sock: string, id: string)
    requires Fifo(w)
    ensures Fifo(World(w.f.(pending := Unqueue(w.f.pending, sock, id)), w.h))
  {
    hide Subseq;
    forall s
      ensures Subseq(CitedBy(w.h.posts, s) + Queue(Unqueue(w.f.pending, sock, id), s), OfferedTo(w.h.offers, s))
    {
      if s == sock {
        FifoUnqueue(CitedBy(w.h.posts, s), w.f.pending, s, id, OfferedTo(w.h.offers, s));
      } else {
        assert Queue(Unqueue(w.f.pending, sock, id), s) == Queue(w.f.pending, s);
      }
    }
  }

  /** A post that takes the oldest id off its socket's queue and may cite it. */
  lemma PostKeepsFifo(w: World, p: Posted, s: string)
    requires Fifo(w)
    requires Cites(p) ==> p.env.origMsgId == NextPending(w.f.pending, p.sock).0
    ensures Subseq(CitedBy(w.h.posts + [p], s) + Queue(NextPending(w.f.pending, p.sock).1, s), OfferedTo(w.h.offers, s))
  {
    hide Subseq;
    assert Subseq(CitedBy(w.h.posts, s) + Queue(w.f.pending, s), OfferedTo(w.h.offers, s));
    CitedByAppend(w.h.posts, p, s);
    if s == p.sock {
      FifoNext(CitedBy(w.h.posts, s), w.f.pending, s, OfferedTo(w.h.offers, s));
    } else {
      assert Queue(NextPending(w.f.pending, p.sock).1, s) == Queue(w.f.pending, s);
    }
  }

  lemma LocalKeepsFifo(cfg: Config, w: World, a: Action)
    requires Enabled(w, a) && a.Local? && Fifo(w)
    ensures Fifo(Step(cfg, w, a).0)
  {
    var w' := Step(cfg, w, a).0;
    if Sender(cfg, a.msg, a.sessions, a.projectOf).Some? {
      var p := w'.h.posts[|w.h.posts|];
      forall s
        ensures Subseq(CitedBy(w'.h.posts, s) + Queue(w'.f.pending, s), OfferedTo(w'.h.offers, s))
      {
        PostKeepsFifo(w, p, s);
      }
    } else {
      SameQueues(w, w');
    }
  }

  lemma StepKeepsFifo(cfg: Config, w: World, a: Action)
    requires Enabled(w, a) && Fifo(w)
    ensures Fifo(Step(cfg, w, a).0)
  {
    var w' := Step(cfg, w, a).0;
    match a {
      case Local(_, _, _, _, _) => LocalKeepsFifo(cfg, w, a);
      case Delivery(env, sessions, projectOf, now) =>
        var f1 := w.f.(seen := Recent.Prune(w.f.seen, now, FerryModel.D.Span(cfg.window)));
        if FerryModel.D.Hit(w.f.seen, env.msgId, now, cfg.window) {
          SameQueues(w, w');
        } else {
          var cands := Candidates(w.f.pins, env, LocalSessions(cfg, sessions), projectOf);
          var h := w.h.(clock := now, checkedAt := now, pin := ReplyPin(w.f.pins, env),
                          round := Round(Some(Request(env, sessions, projectOf)), cands, [], []));
          SameQueues(w, World(f1, h));
          OfferKeepsFifo(h, f1, env, Attempts(cands), ReplyPin(w.f.pins, env));
        }
      case Injected(outcome, now) =>
        var i := w.f.inflight.value;
        if outcome.Refused? {
          var h := w.h.(clock := now, round := w.h.round.(outcomes := w.h.round.outcomes + [outcome]));
          UnqueueKeepsFifo(w, i.sock, i.env.msgId);
          var f1 := w.f.(pending := Unqueue(w.f.pending, i.sock, i.env.msgId));
          SameQueues(World(f1, w.h), World(f1, h));
          OfferKeepsFifo(h, f1, i.env, i.rest, i.pin);
        } else {
          SameQueues(w, w');
        }
    }
  }

  /** FIFO correlation over every run: each socket's replies cite, in order and at
      most once each, ids queued for it by inject attempts; queues stay bounded. */
  lemma {:induction false} RepliesCiteInOrder(cfg: Config, ws: seq<World>, acts: seq<Action>, k: nat)
    requires IsRun(cfg, ws, acts) && k < |ws|
    ensures Fifo(ws[k]) && QueuesBounded(ws[k].f.pending)
  {
    if k > 0 {
      RepliesCiteInOrder(cfg, ws, acts, k - 1);
      assert StepsTo(cfg, ws[k - 1], acts[k - 1], ws[k - 1 + 1]);
      StepKeepsFifo(cfg, ws[k - 1], acts[k - 1]);
      StepKeepsBound(cfg, ws[k - 1], acts[k - 1]);
    }
  }

  /** Spelled out: the cited ids sit at strictly increasing attempt positions. */
  lemma CitationsAreDistinctAttempts(cfg: Config, ws: seq<World>, acts: seq<Action>, k: nat, sock: string)
    returns (at: seq<nat>)
    requires IsRun(cfg, ws, acts) && k < |ws|
    ensures var cited, offered := CitedBy(ws[k].h.posts, sock), OfferedTo(ws[k].h.offers, sock);
            && |at| == |cited| && Positions(at, |offered|)
            && forall i :: 0 <= i < |cited| ==> offered[at[i]] == cited[i]
  {
    RepliesCiteInOrder(cfg, ws, acts, k);
    var cited, queued := CitedBy(ws[k].h.posts, sock), Queue(ws[k].f.pending, sock);
    at := SubseqPositions(cited + queued, OfferedTo(ws[k].h.offers, sock));
    at := at[..|cited|];
    assert forall i :: 0 <= i < |cited| ==> (cited + queued)[i] == cited[i];
  }

  // ---- refused candidates ----

  ghost predicate AtMostOnce(q: seq<string>, id: string) {
    forall i, j :: 0 <= i < |q| && 0 <= j < |q| && q[i] == id && q[j] == id ==> i == j
  }

  /** While an inject whose id was not queued beforehand is under way, the queue
      holds that id at most once, whatever local messages do meanwhile. */
  ghost predicate OneCopy(w: World) {
    w.f.inflight.Some? && w.h.clean ==>
      AtMostOnce(Queue(w.f.pending, w.f.inflight.value.sock), w.f.inflight.value.env.msgId)
  }

  lemma EnqueueOneCopy(pending: map<string, seq<string>>, sock: string, id: string)
    requires id !in Queue(pending, sock)
    ensures AtMostOnce(Queue(Enqueue(pending, sock, id), sock), id)
  {
    var q := Queue(pending, sock);
    assert forall i :: 0 <= i < |q| ==> q[i] in q;
  }

  lemma NextKeepsOneCopy(pending: map<string, seq<string>>, from: string, sock: string, id: string)
    requires AtMostOnce(Queue(pending, sock), id)
    ensures AtMostOnce(Queue(NextPending(pending, from).1, sock), id)
  {
    var q := Queue(pending, sock);
    assert Queue(NextPending(pending, from).1, sock) in {q, if q == [] then [] else q[1..]};
  }

  lemma StepKeepsOneCopy(cfg: Config, w: World, a: Action)
    requires Enabled(w, a) && OneCopy(w)
    ensures OneCopy(Step(cfg, w, a).0)
  {
    var w' := Step(cfg, w, a).0;
    if w'.f.inflight.Some? && w'.h.clean {
      var i := w'.f.inflight.value;
      match a {
        case Delivery(_, _, _, _) => EnqueueOneCopy(w.f.pending, i.sock, i.env.msgId);
        case Injected(_, _) =>
          var i0 := w.f.inflight.value;
          EnqueueOneCopy(Unqueue(w.f.pending, i0.sock, i0.env.msgId), i.sock, i.env.msgId);
        case Local(msg, _, _, _, _) =>
          NextKeepsOneCopy(w.f.pending, SocketPath(msg.rawFrom), i.sock, i.env.msgId);
      }
    }
  }

  lemma {:induction false} EveryRunOneCopy(cfg: Config, ws: seq<World>, acts: seq<Action>, k: nat)
    requires IsRun(cfg, ws, acts) && k < |ws|
    ensures OneCopy(ws[k])
  {
    if k > 0 {
      hide OneCopy;
      hide Step;
      EveryRunOneCopy(cfg, ws, acts, k - 1);
      assert StepsTo(cfg, ws[k - 1], acts[k - 1], ws[k - 1 + 1]);
      StepKeepsOneCopy(cfg, ws[k - 1], acts[k - 1]);
    }
  }

  /** So a refused inject leaves its id on the refused candidate's socket only if
      the id had been there before the attempt. */
  lemma RefusedLeavesNoTrace(cfg: Config, ws: seq<World>, acts: seq<Action>, k: nat)
    requires IsRun(cfg, ws, acts) && k < |ws|
    requires ws[k].f.inflight.Some? && ws[k].h.clean
    ensures var i := ws[k].f.inflight.value;
            i.env.msgId !in Queue(Unqueue(ws[k].f.pending, i.sock, i.env.msgId), i.sock)
  {
    EveryRunOneCopy(cfg, ws, acts, k);
    var i := ws[k].f.inflight.value;
    var q := Queue(ws[k].f.pending, i.sock);
    if i.env.msgId in q {
      var at := RemoveFirstAt(q, i.env.msgId);
    } else {
      RemoveFirstAbsent(q, i.env.msgId);
    }
  }

  /** From its first occurrence on, the queue holds nothing but `id`. */
  ghost predicate EndsInOnly(q: seq<string>, id: string) {
    forall i, j :: 0 <= i < j < |q| && q[i] == id ==> q[j] == id
  }

  lemma {:induction false} RemoveFirstRestores(q: seq<string>, id: string)
    ensures RemoveFirst(q + [id], id) == q <==> EndsInOnly(q, id)
  {
    hide RemoveFirst;
    var k := RemoveFirstAt(q + [id], id);
    var r := RemoveFirst(q + [id], id);
    assert forall i :: 0 <= i < |q| ==> r[i] == (q + [id])[if i < k then i else i + 1];
    if r == q && k < |q| {
      OneShift(q, id, k);
    }
    if EndsInOnly(q, id) {
      assert forall i :: 0 <= i < |q| ==> r[i] == q[i];
    }
  }

  /** Equal neighbours from `k` to the end, the last of them `id`. */
  lemma {:induction false} OneShift(q: seq<string>, id: string, k: nat)
    requires k < |q| && (forall i :: k <= i < |q| ==> q[i] == (q + [id])[i + 1])
    ensures forall i :: k <= i < |q| ==> q[i] == id
    decreases |q| - k
  {
    if k + 1 < |q| {
      OneShift(q, id, k + 1);
    }
    assert q[k] == (q + [id])[k + 1];
  }

  /** A refused inject during which nothing else happened puts the queues back as they
      were exactly when the deque was not full and held the id nowhere but at its end:
      a full one has lost its oldest id for good. */
  lemma RefusalRestores(pending: map<string, seq<string>>, sock: string, id: string)
    requires QueuesBounded(pending)
    ensures Unqueue(Enqueue(pending, sock, id), sock, id) == pending
       <==> |Queue(pending, sock)| < PENDING_PER_SOCKET_MAX && EndsInOnly(Queue(pending, sock), id)
  {
    var q := Queue(pending, sock);
    var after := Unqueue(Enqueue(pending, sock, id), sock, id);
    if |q| < PENDING_PER_SOCKET_MAX {
      RemoveFirstRestores(q, id);
      assert Queue(after, sock) == RemoveFirst(q + [id], id);
      assert forall s :: s != sock ==> Queue(after, s) == Queue(pending, s);
    } else {
      var full := q[1..] + [id];
      var k := RemoveFirstAt(full, id);
      assert (q + [id])[1..] == full;
      assert |Queue(after, sock)| == |q| - 1;
    }
  }

  /** An answer that arrives before inject returns is posted as a reply: the id was
      queued first, and with no older note outstanding it is the one cited. */
  lemma FastReply(cfg: Config, w: World, deliver: Action, answer: Action)
    requires Enabled(w, deliver) && deliver.Delivery? && deliver.env.msgId != ""
    requires var w1 := Step(cfg, w, deliver).0;
             && Enabled(w1, answer) && answer.Local? && w1.f.inflight.Some?
             && SocketPath(answer.msg.rawFrom) == w1.f.inflight.value.sock
             && Sender(cfg, answer.msg, answer.sessions, answer.projectOf).Some?
             && Queue(w.f.pending, w1.f.inflight.value.sock) == []
    ensures var w1 := Step(cfg, w, deliver).0;
            var (w2, ops) := Step(cfg, w1, answer);
            && |ops| == 1 && ops[0].PostMsg?
            && ops[0].env.mtype == "reply" && ops[0].env.origMsgId == Some(deliver.env.msgId)
            && ops[0].env.ttlS == REPLY_TTL_S
            && Queue(w2.f.pending, w1.f.inflight.value.sock) == []
  {
  }
}
