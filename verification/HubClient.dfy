/** The ferry's hub client: the deque itself, the enqueue that may evict from its
    front, and the flush loop that pops what it has sent. */
module HubClients {
  import opened Prelude
  import opened OutboxModel

  /** What happens while one send is awaited: ops enqueued meanwhile, the link as it
      stands afterwards, and whether the send found its connection closed. */
  datatype Turn<T> = Turn(during: seq<T>, linkAfter: Option<nat>, closed: bool)

  /** The box reached from `b` by the steps `acts`. */
  ghost predicate Path<T(!new)>(b: Outbox<T>, acts: seq<Action<T>>, b': Outbox<T>)
    decreases |acts|
  {
    if acts == [] then b' == b
    else Enabled(b, acts[0]) && Path(Step(b, acts[0]), acts[1..], b')
  }

  lemma {:induction false} PathExtend<T(!new)>(b: Outbox<T>, acts: seq<Action<T>>, m: Outbox<T>, a: Action<T>)
    requires Path(b, acts, m) && Enabled(m, a)
    ensures Path(b, acts + [a], Step(m, a))
    decreases |acts|
  {
    if acts != [] {
      PathExtend(Step(b, acts[0]), acts[1..], m, a);
      assert (acts + [a])[1..] == acts[1..] + [a];
    }
  }

  /** `ops` are the ops whose sends completed from position `n` on. */
  ghost predicate SentSince<T>(b: Outbox<T>, n: nat, ops: seq<T>) {
    && |b.sent| == n + |ops|
    && forall k :: n <= k < |b.sent| ==> b.sent[k] < |b.log| && ops[k - n] == b.log[b.sent[k]]
  }

  lemma SentOneMore<T>(b: Outbox<T>, b': Outbox<T>, n: nat, ops: seq<T>, number: nat)
    requires SentSince(b, n, ops) && b.log <= b'.log && number < |b.log|
    requires b'.sent == b.sent + [number]
    ensures SentSince(b', n, ops + [b.log[number]])
  {
  }

  class HubClient<T(!new)> {
    var outbox: seq<T>
    var link: Option<nat>
    ghost var box: Outbox<T>

    /** The deque holds the ops whose numbers the model keeps. */
    ghost predicate Mirrors()
      reads this
    {
      && Inv(box) && |outbox| == |box.queue|
      && forall i :: 0 <= i < |outbox| ==> outbox[i] == box.log[box.queue[i]]
    }

    constructor ()
      ensures Mirrors() && box == NewOutbox() && link == None
    {
      outbox, link, box := [], None, NewOutbox();
    }

    /** deque(maxlen=OUTBOX_MAX).append */
    method EnqueueOp(op: T)
      requires Mirrors()
      modifies this`outbox, this`box
      ensures Mirrors() && box == Step(old(box), Enqueue(op))
      ensures outbox == (if |old(outbox)| == OUTBOX_MAX then old(outbox)[1..] else old(outbox)) + [op]
    {
      StepKeepsShape(box, Enqueue(op));
      StepKeepsAccount(box, Enqueue(op));
      StepKeepsLoss(box, Enqueue(op));
      outbox := (if |outbox| == OUTBOX_MAX then outbox[1..] else outbox) + [op];
      box := Step(box, Enqueue(op));
    }

    method EnqueueAll(ops: seq<T>, ghost from: Outbox<T>, ghost done: seq<Action<T>>) returns (ghost acts: seq<Action<T>>)
      requires Mirrors() && Path(from, done, box)
      modifies this`outbox, this`box
      ensures Mirrors() && Path(from, acts, box)
      ensures box.sending == old(box).sending && box.sent == old(box).sent && old(box).log <= box.log
    {
      acts := done;
      var i := 0;
      while i < |ops|
        invariant 0 <= i <= |ops|
        invariant Mirrors() && Path(from, acts, box)
        invariant box.sending == old(box).sending && box.sent == old(box).sent && old(box).log <= box.log
      {
        PathExtend(from, acts, box, Enqueue(ops[i]));
        acts := acts + [Enqueue(ops[i])];
        EnqueueOp(ops[i]);
        i := i + 1;
      }
    }

    /** Reading the head starts its send; nothing is popped yet. */
    method BeginHead() returns (op: T)
      requires Mirrors() && Enabled(box, BeginSend)
      modifies this`box
      ensures Mirrors() && box == Step(old(box), BeginSend)
      ensures box.sending.value < |box.log| && op == box.log[box.sending.value]
    {
      op := outbox[0];
      StepKeepsAccount(box, BeginSend);
      box := Step(box, BeginSend);
    }

    /** popleft, after the send. */
    method FinishSend()
      requires Mirrors() && Enabled(box, SendDone)
      modifies this`outbox, this`box
      ensures Mirrors() && box == Step(old(box), SendDone) && outbox == old(outbox)[1..]
    {
      StepKeepsShape(box, SendDone);
      StepKeepsAccount(box, SendDone);
      StepKeepsLoss(box, SendDone);
      box := Step(box, SendDone);
      outbox := outbox[1..];
    }

    /** The connection was closed under the send: the deque is left as it is. */
    method AbandonSend()
      requires Mirrors() && Enabled(box, SendClosed)
      modifies this`box
      ensures Mirrors() && box == Step(old(box), SendClosed)
    {
      StepKeepsAccount(box, SendClosed);
      StepKeepsLoss(box, SendClosed);
      box := Step(box, SendClosed);
    }

    /** One turn of the loop in _flush: read the head, await the send, pop. */
    method FlushHead(turn: Turn<T>, ghost from: Outbox<T>, ghost done: seq<Action<T>>)
      returns (op: T, ghost acts: seq<Action<T>>)
      requires Mirrors() && Path(from, done, box) && Enabled(box, BeginSend)
      modifies this
      ensures Mirrors() && Path(from, acts, box) && box.sending.None?
      ensures old(box).log <= box.log
      ensures turn.closed ==> box.sent == old(box).sent
      ensures !turn.closed ==> box.sent == old(box).sent + [old(box).queue[0]]
      ensures old(box).queue[0] < |old(box).log| && op == old(box).log[old(box).queue[0]]
    {
      PathExtend(from, done, box, BeginSend);
      op := BeginHead();
      acts := EnqueueAll(turn.during, from, done + [BeginSend]);
      link := turn.linkAfter;
      if turn.closed {
        PathExtend(from, acts, box, SendClosed);
        acts := acts + [SendClosed];
        AbandonSend();
      } else {
        PathExtend(from, acts, box, SendDone);
        acts := acts + [SendDone];
        FinishSend();
      }
    }

    /** The loop of _flush, run under its lock. `delivered` are the ops whose sends
        completed, each exactly as enqueued, one per turn; the loop stops because the
        deque is empty, the link is gone, or the last send found it closed, and not
        before. */
    method Flush(turns: seq<Turn<T>>) returns (delivered: seq<T>, used: nat, ghost acts: seq<Action<T>>)
      requires Mirrors() && box.sending.None?
      modifies this
      ensures Mirrors() && box.sending.None? && Path(old(box), acts, box)
      ensures SentSince(box, |old(box).sent|, delivered)
      ensures used <= |turns| && forall i :: 0 <= i < used - 1 ==> !turns[i].closed
      ensures |delivered| == if used > 0 && turns[used - 1].closed then used - 1 else used
      ensures outbox == [] || link.None? || (used > 0 && turns[used - 1].closed) || used == |turns|
    {
      delivered, used, acts := [], 0, [];
      ghost var n := |box.sent|;
      while used < |turns| && outbox != [] && link.Some?
        invariant 0 <= used <= |turns| && |delivered| == used && forall i :: 0 <= i < used ==> !turns[i].closed
        invariant Mirrors() && box.sending.None? && Path(old(box), acts, box)
        invariant SentSince(box, n, delivered)
      {
        ghost var before := box;
        var op;
        op, acts := FlushHead(turns[used], old(box), acts);
        used := used + 1;
        if turns[used - 1].closed {
          return;
        }
        SentOneMore(before, box, n, delivered, before.queue[0]);
        delivered := delivered + [op];
      }
    }
  }
}
