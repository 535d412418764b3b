/** Reply stickiness: who a pinned reply may be offered to, and how long a pin lasts. */
module FerryPins {
  import opened Prelude
  import opened Envelopes
  import opened Registry
  import opened FerryModel
  import Q = FerryQueues

  function PostIds(posts: seq<Posted>): seq<string> {
    seq(|posts|, i requires 0 <= i < |posts| => posts[i].env.msgId)
  }

  /** The session `sid` posted the message `id`. */
  ghost predicate Authored(posts: seq<Posted>, id: string, sid: string) {
    exists i :: 0 <= i < |posts| && posts[i].env.msgId == id && posts[i].sid == Some(sid)
  }

  ghost predicate PostedAfter(posts: seq<Posted>, later: string, earlier: string) {
    exists i, j :: 0 <= i < j < |posts| && posts[i].env.msgId == earlier && posts[j].env.msgId == later
  }

  /** The pin dict: bounded, in posting order, each pin naming its poster. */
  ghost predicate PinsOk(pins: Pins, posts: seq<Posted>) {
    && Distinct(pins.order) && Members(pins.order) == pins.owner.Keys
    && |pins.order| <= AWAITING_REPLY_MAX
    && Subseq(pins.order, PostIds(posts))
    && (forall id :: id in pins.owner ==> Authored(posts, id, pins.owner[id]))
  }

  /** If the delivery of `env` began with `pin`, then `target` is the asker. */
  ghost predicate ForAsker(posts: seq<Posted>, env: Envelope, target: Session, pin: Option<string>) {
    pin.Some? ==>
      && env.mtype == "reply" && env.origMsgId == pin
      && target.sessionId.Some? && Authored(posts, pin.value, target.sessionId.value)
  }

  /** An answer to a pinned message in flight is with the asker and nobody is next. */
  ghost predicate InflightOk(w: World) {
    w.f.inflight.Some? ==>
      var i := w.f.inflight.value;
      i.pin == w.h.pin && ForAsker(w.h.posts, i.env, i.target, i.pin) && (i.pin.Some? ==> i.rest == [])
  }

  /** Replies that were pinned when their delivery began went to the asker only. */
  ghost predicate Sticky(h: History) {
    forall k :: 0 <= k < |h.offers|
      ==> ForAsker(h.posts, h.offers[k].env, h.offers[k].target, h.offers[k].pin)
  }

  ghost predicate PinInv(w: World) {
    PinsOk(w.f.pins, w.h.posts) && InflightOk(w) && Sticky(w.h) && Distinct(PostIds(w.h.posts))
  }

  lemma AuthoredGrows(posts: seq<Posted>, p: Posted)
    ensures forall id, sid :: Authored(posts, id, sid) ==> Authored(posts + [p], id, sid)
    ensures p.sid.Some? ==> Authored(posts + [p], p.env.msgId, p.sid.value)
    ensures PostIds(posts + [p]) == PostIds(posts) + [p.env.msgId]
  {
    forall id, sid | Authored(posts, id, sid)
      ensures Authored(posts + [p], id, sid)
    {
      var i :| 0 <= i < |posts| && posts[i].env.msgId == id && posts[i].sid == Some(sid);
      assert (posts + [p])[i] == posts[i];
    }
    assert (posts + [p])[|posts|] == p;
  }

  lemma RemoveFirstMembers(order: seq<string>, id: string)
    requires Distinct(order)
    ensures Distinct(RemoveFirst(order, id)) && Members(RemoveFirst(order, id)) == Members(order) - {id}
    ensures |RemoveFirst(order, id)| <= |order|
  {
    if id in order {
      var k := Q.RemoveFirstAt(order, id);
      var r := RemoveFirst(order, id);
      assert r == order[..k] + order[k + 1..];
      forall x
        ensures x in Members(r) <==> x in Members(order) - {id}
      {
        if x in Members(order) - {id} {
          var j :| 0 <= j < |order| && order[j] == x;
          assert if j < k then r[j] == x else r[j - 1] == x;
        }
      }
    } else {
      Q.RemoveFirstAbsent(order, id);
    }
  }

  lemma UnpinKeeps(pins: Pins, posts: seq<Posted>, id: string)
    requires PinsOk(pins, posts)
    ensures PinsOk(Unpin(pins, id), posts)
  {
    hide Subseq;
    RemoveFirstMembers(pins.order, id);
    if id in pins.order {
      var k := Q.RemoveFirstAt(pins.order, id);
      SubseqDelete(pins.order, PostIds(posts), k);
    } else {
      Q.RemoveFirstAbsent(pins.order, id);
    }
  }

  /** Pinning a new id: either nothing is lost, or the dict was full and its oldest
      pin goes. */
  lemma PinReplyShape(pins: Pins, id: string, sid: string)
    requires Distinct(pins.order) && Members(pins.order) == pins.owner.Keys
    requires |pins.order| <= AWAITING_REPLY_MAX && id !in pins.owner
    ensures var p := PinReply(pins, id, sid);
            if |pins.order| < AWAITING_REPLY_MAX
            then p == Pins(pins.order + [id], pins.owner[id := sid])
            else p == Pins(pins.order[1..] + [id], pins.owner[id := sid] - {pins.order[0]})
  {
    var longer := pins.order + [id];
    if |pins.order| == AWAITING_REPLY_MAX {
      assert longer[1..] == pins.order[1..] + [id];
      assert longer[0] == pins.order[0];
      assert Trim(Pins(longer, pins.owner[id := sid]))
          == Trim(Pins(longer[1..], pins.owner[id := sid] - {longer[0]}));
    }
  }

  lemma AppendNew(order: seq<string>, ids: seq<string>, id: string)
    requires Distinct(order) && Subseq(order, ids) && id !in order
    ensures var o := order + [id];
            Distinct(o) && Members(o) == Members(order) + {id} && Subseq(o, ids + [id])
  {
    hide Subseq;
    SubseqAppend(order, ids, id);
    MembersAppend(order, id);
  }

  /** Without its oldest entry. */
  lemma DropOldest(order: seq<string>, ids: seq<string>)
    requires Distinct(order) && order != [] && Subseq(order, ids)
    ensures Distinct(order[1..]) && Members(order[1..]) == Members(order) - {order[0]} && Subseq(order[1..], ids)
  {
    hide Subseq;
    assert [] + order == order && [] + order[1..] == order[1..];
    SubseqDeleteFirst([], order, ids);
    assert order == [order[0]] + order[1..];
  }

  lemma PinKeeps(pins: Pins, posts: seq<Posted>, p: Posted)
    requires PinsOk(pins, posts) && p.sid.Some? && p.env.msgId !in PostIds(posts)
    ensures PinsOk(PinReply(pins, p.env.msgId, p.sid.value), posts + [p])
  {
    hide Subseq;
    hide PinReply;
    var id := p.env.msgId;
    PinnedWasPosted(pins, posts, id);
    assert id !in pins.order by {
      assert id in Members(pins.order) <==> id in pins.owner;
    }
    PinReplyShape(pins, id, p.sid.value);
    AuthoredGrows(posts, p);
    if |pins.order| == AWAITING_REPLY_MAX {
      assert pins.order[0] in Members(pins.order);
      DropOldest(pins.order, PostIds(posts));
      AppendNew(pins.order[1..], PostIds(posts), id);
    } else {
      AppendNew(pins.order, PostIds(posts), id);
    }
    hide PostIds;
    hide Distinct;
    hide Members;
  }

  lemma PinnedWasPosted(pins: Pins, posts: seq<Posted>, id: string)
    requires PinsOk(pins, posts)
    ensures id in pins.owner ==> id in PostIds(posts)
  {
    hide Subseq;
    if id in pins.owner {
      var i :| 0 <= i < |posts| && posts[i].env.msgId == id && posts[i].sid == Some(pins.owner[id]);
      assert PostIds(posts)[i] == id;
    }
  }

  lemma PostsGrowPins(pins: Pins, posts: seq<Posted>, p: Posted)
    requires PinsOk(pins, posts)
    ensures PinsOk(pins, posts + [p])
  {
    hide Subseq;
    AuthoredGrows(posts, p);
    SubseqAppend(pins.order, PostIds(posts), p.env.msgId);
  }

  /** A pinned reply has at most the poster as candidate. */
  lemma PinnedCandidate(pins: Pins, posts: seq<Posted>, env: Envelope, sessions: seq<Session>,
                        projectOf: string -> Option<string>)
    requires PinsOk(pins, posts) && ReplyPin(pins, env).Some?
    ensures var c := Candidates(pins, env, sessions, projectOf);
            && |c| <= 1 && Attempts(c) == c
            && (c != [] ==> c[0].sessionId.Some?
                            && Authored(posts, ReplyPin(pins, env).value, c[0].sessionId.value))
  {
  }

  /** Noting an offer to the asker keeps the record straight. */
  lemma OfferKeepsPins(f: Ferry, h: History, env: Envelope, targets: seq<Session>, pin: Option<string>)
    requires Sticky(h) && h.pin == pin
    requires pin.Some? ==> |targets| <= 1
    requires targets != [] ==> ForAsker(h.posts, env, targets[0], pin)
    ensures var f' := Offer(f, env, targets, pin);
            var w' := World(f', NoteOffer(h, f.pending, f'));
            InflightOk(w') && Sticky(w'.h)
  {
  }

  lemma DeliveryKeepsPins(cfg: Config, w: World, a: Action)
    requires Enabled(w, a) && a.Delivery? && PinInv(w)
    ensures PinInv(Step(cfg, w, a).0)
  {
    hide Subseq;
    var w' := Step(cfg, w, a).0;
    if !FerryModel.D.Hit(w.f.seen, a.env.msgId, a.now, cfg.window) {
      var pin, local := ReplyPin(w.f.pins, a.env), LocalSessions(cfg, a.sessions);
      var cands := Candidates(w.f.pins, a.env, local, a.projectOf);
      if pin.Some? {
        PinnedCandidate(w.f.pins, w.h.posts, a.env, local, a.projectOf);
      }
      var f1 := w.f.(seen := Recent.Prune(w.f.seen, a.now, FerryModel.D.Span(cfg.window)));
      OfferKeepsPins(f1, w.h.(clock := a.now, checkedAt := a.now, pin := pin,
                              round := Round(Some(Request(a.env, a.sessions, a.projectOf)), cands, [], [])),
                     a.env, Attempts(cands), pin);
    }
  }

  lemma InjectedKeepsPins(cfg: Config, w: World, a: Action)
    requires Enabled(w, a) && a.Injected? && PinInv(w)
    ensures PinInv(Step(cfg, w, a).0)
  {
    hide Subseq;
    var i := w.f.inflight.value;
    match a.outcome {
      case Refused =>
        OfferKeepsPins(w.f.(pending := Unqueue(w.f.pending, i.sock, i.env.msgId)),
                       w.h.(clock := a.now, round := w.h.round.(outcomes := w.h.round.outcomes + [Refused])),
                       i.env, i.rest, i.pin);
      case Accepted =>
        if i.pin.Some? {
          UnpinKeeps(w.f.pins, w.h.posts, i.pin.value);
        }
      case Raised =>
    }
  }

  lemma LocalKeepsPins(cfg: Config, w: World, a: Action)
    requires Enabled(w, a) && a.Local? && PinInv(w)
    ensures PinInv(Step(cfg, w, a).0)
  {
    hide PinReply;
    hide Subseq;
    var w' := Step(cfg, w, a).0;
    if Sender(cfg, a.msg, a.sessions, a.projectOf).Some? {
      var p := w'.h.posts[|w.h.posts|];
      assert w'.h.posts == w.h.posts + [p];
      assert a.id !in PostIds(w.h.posts);
      AuthoredGrows(w.h.posts, p);
      if p.sid.Some? {
        PinKeeps(w.f.pins, w.h.posts, p);
      } else {
        PostsGrowPins(w.f.pins, w.h.posts, p);
      }
    }
  }

  lemma StepKeepsPins(cfg: Config, w: World, a: Action)
    requires Enabled(w, a) && PinInv(w)
    ensures PinInv(Step(cfg, w, a).0)
  {
    hide Subseq;
    match a {
      case Delivery(_, _, _, _) => DeliveryKeepsPins(cfg, w, a);
      case Injected(_, _) => InjectedKeepsPins(cfg, w, a);
      case Local(_, _, _, _, _) => LocalKeepsPins(cfg, w, a);
    }
  }

  /** Stickiness over every run. */
  lemma {:induction false} PinnedRepliesGoToTheAsker(cfg: Config, ws: seq<World>, acts: seq<Action>, k: nat)
    requires IsRun(cfg, ws, acts) && k < |ws|
    ensures PinInv(ws[k])
  {
    if k > 0 {
      hide PinInv;
      hide Step;
      PinnedRepliesGoToTheAsker(cfg, ws, acts, k - 1);
      assert StepsTo(cfg, ws[k - 1], acts[k - 1], ws[k - 1 + 1]);
      StepKeepsPins(cfg, ws[k - 1], acts[k - 1]);
    }
  }

  /** A message has one poster, so the asker is well defined. */
  lemma OnePoster(w: World, id: string, sid1: string, sid2: string)
    requires PinInv(w) && Authored(w.h.posts, id, sid1) && Authored(w.h.posts, id, sid2)
    ensures sid1 == sid2
  {
    var i :| 0 <= i < |w.h.posts| && w.h.posts[i].env.msgId == id && w.h.posts[i].sid == Some(sid1);
    var j :| 0 <= j < |w.h.posts| && w.h.posts[j].env.msgId == id && w.h.posts[j].sid == Some(sid2);
    assert PostIds(w.h.posts)[i] == PostIds(w.h.posts)[j];
  }

  /** Every message a known session posts is pinned to it, newest of all, whatever had
      to make room. */
  lemma PostedIsPinned(cfg: Config, w: World, a: Action, sid: string)
    requires Enabled(w, a) && PinInv(w) && a.Local? && sid != ""
    requires var from := Sender(cfg, a.msg, a.sessions, a.projectOf);
             from.Some? && from.value.0.sessionId == Some(sid)
    ensures var (w', ops) := Step(cfg, w, a);
            && ops == [PostMsg(w'.h.posts[|w.h.posts|].env)] && w'.h.posts[|w.h.posts|].env.msgId == a.id
            && a.id in w'.f.pins.owner && w'.f.pins.owner[a.id] == sid
            && w'.f.pins.order != [] && w'.f.pins.order[|w'.f.pins.order| - 1] == a.id
  {
    hide PinReply;
    hide Subseq;
    assert a.id !in PostIds(w.h.posts);
    PinnedWasPosted(w.f.pins, w.h.posts, a.id);
    PinReplyShape(w.f.pins, a.id, sid);
    if |w.f.pins.order| == AWAITING_REPLY_MAX {
      assert w.f.pins.order[0] in Members(w.f.pins.order);
    }
  }

  // ---- how pins end ----

  /** An answer to `p` has just been accepted. */
  ghost predicate Answered(w: World, a: Action, p: string) {
    && a.Injected? && a.outcome.Accepted? && w.f.inflight.Some?
    && w.f.inflight.value.env.mtype == "reply" && w.f.inflight.value.env.origMsgId == Some(p)
  }

  /** The dict is full of pins posted after `p`. */
  ghost predicate Displaced(w: World, p: string) {
    && |w.f.pins.order| == AWAITING_REPLY_MAX
    && forall x :: x in w.f.pins.order ==> PostedAfter(w.h.posts, x, p)
  }

  lemma EvictionDisplaces(w: World, p: Posted)
    requires PinInv(w) && p.sid.Some? && p.env.msgId !in PostIds(w.h.posts)
    requires |w.f.pins.order| == AWAITING_REPLY_MAX
    ensures var f' := w.f.(pins := PinReply(w.f.pins, p.env.msgId, p.sid.value));
            Displaced(World(f', w.h.(posts := w.h.posts + [p])), w.f.pins.order[0])
  {
    hide PinReply;
    hide Subseq;
    var pins, posts, id := w.f.pins, w.h.posts, p.env.msgId;
    PinnedWasPosted(pins, posts, id);
    PinReplyShape(pins, id, p.sid.value);
    var at := SubseqPositions(pins.order, PostIds(posts));
    var longer := posts + [p];
    forall x | x in pins.order[1..] + [id]
      ensures PostedAfter(longer, x, pins.order[0])
    {
      var k :| 0 <= k < |pins.order[1..] + [id]| && (pins.order[1..] + [id])[k] == x;
      assert longer[at[0]].env.msgId == pins.order[0];
      if k + 1 < |pins.order| {
        assert x == pins.order[k + 1];
        assert longer[at[k + 1]].env.msgId == x;
      } else {
        assert longer[|posts|].env.msgId == x;
      }
    }
  }

  /** One step: a pin goes only by an accepted answer or by being displaced. */
  lemma PinEndsOnce(cfg: Config, w: World, a: Action, p: string)
    requires Enabled(w, a) && PinInv(w) && p in w.f.pins.owner
    requires p !in Step(cfg, w, a).0.f.pins.owner
    ensures Answered(w, a, p) || (a.Local? && Displaced(Step(cfg, w, a).0, p))
  {
    hide PinReply;
    hide Subseq;
    if a.Local? && Sender(cfg, a.msg, a.sessions, a.projectOf).Some? {
      var w' := Step(cfg, w, a).0;
      var rec := w'.h.posts[|w.h.posts|];
      assert w'.h.posts == w.h.posts + [rec];
      assert a.id !in PostIds(w.h.posts);
      PinnedWasPosted(w.f.pins, w.h.posts, a.id);
      PinReplyShape(w.f.pins, a.id, rec.sid.value);
      EvictionDisplaces(w, rec);
    }
  }

  /** Over every run: a pin that was there at step `i` and is gone at step `j` went at
      a step that accepted its answer, or one that left 1000 newer pins in place.
      Held, refused and raised attempts keep it. */
  lemma {:induction false} PinLifetime(cfg: Config, ws: seq<World>, acts: seq<Action>, i: nat, j: nat, p: string)
    returns (k: nat)
    requires IsRun(cfg, ws, acts) && i <= j < |ws|
    requires p in ws[i].f.pins.owner && p !in ws[j].f.pins.owner
    ensures i <= k < j && p in ws[k].f.pins.owner && p !in ws[k + 1].f.pins.owner
    ensures Answered(ws[k], acts[k], p) || Displaced(ws[k + 1], p)
    decreases j
  {
    k := j - 1;
    if p in ws[k].f.pins.owner {
      PinnedRepliesGoToTheAsker(cfg, ws, acts, k);
      assert StepsTo(cfg, ws[k], acts[k], ws[k + 1]);
      PinEndsOnce(cfg, ws[k], acts[k], p);
    } else {
      k := PinLifetime(cfg, ws, acts, i, k, p);
    }
  }
}
