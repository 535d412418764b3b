/** The ferry's bounded outbox. Ops are numbered in enqueue order; the deque holds the
    numbers not yet popped. A flush reads the head, waits for its send, then pops; an
    enqueue meanwhile may push the head out, and the pop then takes the next op. */
module OutboxModel {
  import opened Prelude

  const OUTBOX_MAX := 10000

  datatype Outbox<T> = Outbox(
    log: seq<T>,
    queue: seq<nat>,
    sending: Option<nat>,
    sent: seq<nat>,
    lost: set<nat>,
    overflows: nat)

  function NewOutbox<T>(): Outbox<T> {
    Outbox([], [], None, [], {}, 0)
  }

  datatype Action<T> =
    | Enqueue(op: T)
    | BeginSend
    | SendDone
    | SendClosed

  predicate Enabled<T>(b: Outbox<T>, a: Action<T>) {
    match a
    case Enqueue(_) => true
    case BeginSend => b.sending.None? && b.queue != []
    case SendDone => b.sending.Some? && b.queue != []
    case SendClosed => b.sending.Some?
  }

  /** A popped op is lost unless it is the one being sent. */
  function Drop(lost: set<nat>, n: nat, sending: Option<nat>): set<nat> {
    if sending == Some(n) then lost else lost + {n}
  }

  function Step<T>(b: Outbox<T>, a: Action<T>): Outbox<T>
    requires Enabled(b, a)
  {
    match a
    case Enqueue(op) =>
      var b1 := b.(log := b.log + [op], queue := b.queue + [|b.log|]);
      if |b.queue| == OUTBOX_MAX
      then b1.(queue := b1.queue[1..], overflows := b.overflows + 1, lost := Drop(b.lost, b.queue[0], b.sending))
      else b1
    case BeginSend => b.(sending := Some(b.queue[0]))
    case SendDone =>
      b.(sent := b.sent + [b.sending.value], queue := b.queue[1..], lost := Drop(b.lost, b.queue[0], b.sending),
         sending := None)
    case SendClosed =>
      // the op stays at the head for the next flush, unless it has been pushed out
      b.(sending := None, lost := if b.sending.value in b.queue then b.lost else b.lost + {b.sending.value})
  }

  /** The number of ops popped so far. */
  function Popped<T>(b: Outbox<T>): int {
    |b.log| - |b.queue|
  }

  /** The op being sent has been pushed out of the deque. */
  predicate PushedOut<T>(b: Outbox<T>) {
    b.sending.Some? && b.sending.value < Popped(b)
  }

  ghost predicate Shape<T>(b: Outbox<T>) {
    && |b.queue| <= |b.log| && |b.queue| <= OUTBOX_MAX
    && (forall i :: 0 <= i < |b.queue| ==> b.queue[i] == Popped(b) + i)
    && (b.sending.Some? ==> b.queue != [] && b.sending.value <= Popped(b))
  }

  /** Each op that left the deque was sent, or was lost, or is being sent. */
  ghost predicate Accounted<T>(b: Outbox<T>) {
    && (forall n :: n in b.sent || n in b.lost ==> n < Popped(b))
    && (forall n :: n in b.sent ==> n !in b.lost)
    && (b.sending.Some? ==> b.sending.value !in b.lost && forall n :: n in b.sent ==> n < b.sending.value)
    && (forall n: nat :: n < Popped(b) ==> n in b.sent || n in b.lost || b.sending == Some(n))
    && (forall i, j :: 0 <= i < j < |b.sent| ==> b.sent[i] < b.sent[j])
  }

  /** Ops are lost by overflow and in no other way. */
  ghost predicate LossIsOverflow<T>(b: Outbox<T>) {
    |b.lost| + (if PushedOut(b) then 1 else 0) == b.overflows
  }

  ghost predicate Inv<T>(b: Outbox<T>) {
    Shape(b) && Accounted(b) && LossIsOverflow(b)
  }

  lemma StepKeepsShape<T>(b: Outbox<T>, a: Action<T>)
    requires Inv(b) && Enabled(b, a)
    ensures Shape(Step(b, a))
  {
  }

  lemma EnqueueKeepsAccount<T>(b: Outbox<T>, op: T)
    requires Inv(b)
    ensures Accounted(Step(b, Enqueue(op)))
  {
    var b' := Step(b, Enqueue(op));
    if |b.queue| == OUTBOX_MAX {
      assert Popped(b') == Popped(b) + 1 && b.queue[0] == Popped(b);
    } else {
      assert Popped(b') == Popped(b);
    }
  }

  lemma SendDoneKeepsAccount<T>(b: Outbox<T>)
    requires Inv(b) && Enabled(b, SendDone)
    ensures Accounted(Step(b, SendDone))
  {
    var b', n := Step(b, SendDone), b.sending.value;
    assert Popped(b') == Popped(b) + 1 && b.queue[0] == Popped(b);
    assert forall m :: m in b'.sent <==> m in b.sent || m == n;
    assert forall i :: 0 <= i < |b.sent| ==> b.sent[i] in b.sent;
  }

  lemma SendClosedKeepsAccount<T>(b: Outbox<T>)
    requires Inv(b) && Enabled(b, SendClosed)
    ensures Accounted(Step(b, SendClosed))
  {
    if b.sending.value in b.queue {
      assert b.sending.value == Popped(b);
    } else {
      assert b.queue[0] == Popped(b) && b.queue[0] in b.queue;
    }
  }

  lemma StepKeepsAccount<T>(b: Outbox<T>, a: Action<T>)
    requires Inv(b) && Enabled(b, a)
    ensures Accounted(Step(b, a))
  {
    match a {
      case Enqueue(op) => EnqueueKeepsAccount(b, op);
      case BeginSend =>
      case SendDone => SendDoneKeepsAccount(b);
      case SendClosed => SendClosedKeepsAccount(b);
    }
  }

  lemma DropCounts(lost: set<nat>, n: nat, sending: Option<nat>)
    requires n !in lost
    ensures |Drop(lost, n, sending)| == |lost| + (if sending == Some(n) then 0 else 1)
  {
  }

  lemma StepKeepsLoss<T>(b: Outbox<T>, a: Action<T>)
    requires Inv(b) && Enabled(b, a)
    ensures LossIsOverflow(Step(b, a))
  {
    match a {
      case Enqueue(_) =>
        if |b.queue| == OUTBOX_MAX {
          DropCounts(b.lost, b.queue[0], b.sending);
        }
      case BeginSend =>
      case SendDone => DropCounts(b.lost, b.queue[0], b.sending);
      case SendClosed =>
        assert b.sending.value in b.queue <==> !PushedOut(b) by {
          assert b.queue[0] in b.queue;
        }
        DropCounts(b.lost, b.sending.value, None);
    }
  }

  lemma StepKeepsInv<T>(b: Outbox<T>, a: Action<T>)
    requires Inv(b) && Enabled(b, a)
    ensures Inv(Step(b, a))
  {
    StepKeepsShape(b, a);
    StepKeepsAccount(b, a);
    StepKeepsLoss(b, a);
  }

  function EnqueueAll<T>(b: Outbox<T>, ops: seq<T>): Outbox<T> {
    if ops == [] then b
    else Step(EnqueueAll(b, ops[..|ops| - 1]), Enqueue(ops[|ops| - 1]))
  }

  lemma {:induction false} EnqueueAllLog<T>(b: Outbox<T>, ops: seq<T>)
    ensures EnqueueAll(b, ops).log == b.log + ops
  {
    if ops != [] {
      var n := |ops| - 1;
      EnqueueAllLog(b, ops[..n]);
      assert b.log + ops == b.log + ops[..n] + [ops[n]];
    }
  }

  lemma {:induction false} EnqueueAllEffect<T>(b: Outbox<T>, ops: seq<T>)
    requires Inv(b)
    ensures var b' := EnqueueAll(b, ops);
            && Inv(b') && b'.log == b.log + ops && b'.sending == b.sending && b'.sent == b.sent
            && |b'.queue| == if |b.queue| + |ops| <= OUTBOX_MAX then |b.queue| + |ops| else OUTBOX_MAX
  {
    hide Accounted;
    hide LossIsOverflow;
    hide Drop;
    if ops != [] {
      var n := |ops| - 1;
      EnqueueAllEffect(b, ops[..n]);
      StepKeepsInv(EnqueueAll(b, ops[..n]), Enqueue(ops[n]));
      assert b.log + ops == b.log + ops[..n] + [ops[n]];
    }
  }

  ghost predicate IsRun<T>(bs: seq<Outbox<T>>, acts: seq<Action<T>>) {
    && |bs| == |acts| + 1
    && bs[0] == NewOutbox()
    && forall k :: 0 <= k < |acts| ==> StepsTo(bs[k], acts[k], bs[k + 1])
  }

  ghost predicate StepsTo<T>(b: Outbox<T>, a: Action<T>, b': Outbox<T>) {
    Enabled(b, a) && b' == Step(b, a)
  }

  lemma {:induction false} RunKeepsInv<T>(bs: seq<Outbox<T>>, acts: seq<Action<T>>, k: nat)
    requires IsRun(bs, acts) && k < |bs|
    ensures Inv(bs[k])
  {
    if k > 0 {
      RunKeepsInv(bs, acts, k - 1);
      assert StepsTo(bs[k - 1], acts[k - 1], bs[k - 1 + 1]);
      StepKeepsInv(bs[k - 1], acts[k - 1]);
    }
  }

  /** The numbers of the first `n` ops. */
  ghost function Below(n: nat): (s: set<nat>)
    ensures |s| == n && forall k: nat :: k in s <==> k < n
  {
    if n == 0 then {} else Below(n - 1) + {n - 1}
  }

  lemma PoppedOnesAreAccounted<T>(b: Outbox<T>, n: nat)
    requires Inv(b)
    ensures n in Below(Popped(b)) <==> n in b.sent || n in b.lost || (PushedOut(b) && b.sending.value == n)
  {
  }

  lemma ThreeParts(all: set<nat>, a: set<nat>, b: set<nat>, c: set<nat>)
    requires all == a + b + c && a !! b && (a + b) !! c
    ensures |all| == |a| + |b| + |c|
  {
  }

  ghost function InFlight<T>(b: Outbox<T>): set<nat> {
    if PushedOut(b) then {b.sending.value} else {}
  }

  lemma PartsCover<T>(b: Outbox<T>)
    requires Inv(b)
    ensures Below(Popped(b)) == Members(b.sent) + b.lost + InFlight(b)
  {
    forall n: nat
      ensures n in Below(Popped(b)) <==> n in Members(b.sent) + b.lost + InFlight(b)
    {
      PoppedOnesAreAccounted(b, n);
    }
  }

  lemma PartsAreDisjoint<T>(b: Outbox<T>)
    requires Inv(b)
    ensures Distinct(b.sent) && Members(b.sent) !! b.lost && (Members(b.sent) + b.lost) !! InFlight(b)
  {
  }

  lemma PartSizes<T>(b: Outbox<T>)
    requires Inv(b)
    ensures Distinct(b.sent) && Popped(b) == |Members(b.sent)| + |b.lost| + |InFlight(b)|
  {
    PartsCover(b);
    PartsAreDisjoint(b);
    hide *;
    ThreeParts(Below(Popped(b)), Members(b.sent), b.lost, InFlight(b));
  }

  lemma Counts<T>(b: Outbox<T>)
    requires Inv(b)
    ensures Popped(b) == |b.sent| + |b.lost| + (if PushedOut(b) then 1 else 0)
    ensures Positions(b.sent, |b.log|)
  {
    assert forall i :: 0 <= i < |b.sent| ==> b.sent[i] in b.sent;
    PartSizes(b);
    DistinctCardinality(b.sent);
  }

  /** Conservation over every run: every op enqueued has been sent (once), lost, is
      still queued, or is the one in flight after being pushed out; and the losses
      are exactly the enqueues that met a full deque. */
  lemma Conservation<T>(bs: seq<Outbox<T>>, acts: seq<Action<T>>, k: nat)
    requires IsRun(bs, acts) && k < |bs|
    ensures var b := bs[k];
            var aside := if PushedOut(b) then 1 else 0;
            && |b.log| == |b.sent| + |b.lost| + |b.queue| + aside
            && |b.lost| + aside == b.overflows
            && Positions(b.sent, |b.log|)
  {
    RunKeepsInv(bs, acts, k);
    Counts(bs[k]);
  }

  /** Without overflow nothing is lost: completed sends are the ops in enqueue order,
      and none was popped before its send completed. */
  lemma InOrderWithoutOverflow<T>(bs: seq<Outbox<T>>, acts: seq<Action<T>>, k: nat)
    requires IsRun(bs, acts) && k < |bs| && bs[k].overflows == 0
    ensures |bs[k].sent| == Popped(bs[k])
    ensures forall i :: 0 <= i < |bs[k].sent| ==> bs[k].sent[i] == i
    ensures bs[k].sending.Some? ==> bs[k].queue != [] && bs[k].sending.value == bs[k].queue[0]
  {
    Conservation(bs, acts, k);
    RunKeepsInv(bs, acts, k);
    assert forall i :: 0 <= i < |bs[k].sent| ==> bs[k].sent[i] in bs[k].sent;
    IncreasingIsIdentity(bs[k].sent, Popped(bs[k]));
  }

  lemma {:induction false} IncreasingIsIdentity(s: seq<nat>, n: nat)
    requires |s| == n && (forall i :: 0 <= i < n ==> s[i] < n) && forall i, j :: 0 <= i < j < n ==> s[i] < s[j]
    ensures forall i :: 0 <= i < n ==> s[i] == i
  {
    if n > 0 {
      assert forall i :: 0 <= i < n - 1 ==> s[i] < s[n - 1] < n;
      IncreasingIsIdentity(s[..n - 1], n - 1);
      if n > 1 {
        assert s[n - 2] == s[..n - 1][n - 2];
      }
      assert forall i :: 0 <= i < n - 1 ==> s[i] == s[..n - 1][i];
    }
  }

  /** A send with enqueues made meanwhile pops the op it sent exactly when they fitted
      into the deque. With `m` too many, the pop takes the op `m` places behind it, which
      was never sent, and loses it. */
  lemma SendPopsItsOwnOp<T>(b: Outbox<T>, ops: seq<T>)
    requires Inv(b) && Enabled(b, BeginSend)
    ensures var b1 := EnqueueAll(Step(b, BeginSend), ops);
            var over := if |b.queue| + |ops| <= OUTBOX_MAX then 0 else |b.queue| + |ops| - OUTBOX_MAX;
            && Enabled(b1, SendDone)
            && Step(b1, SendDone).sent == b.sent + [b.queue[0]]
            && b1.queue[0] == b.queue[0] + over
            && (over > 0 ==> var b2 := Step(b1, SendDone); b1.queue[0] in b2.lost && b1.queue[0] !in b2.sent)
  {
    StepKeepsInv(b, BeginSend);
    EnqueueAllEffect(Step(b, BeginSend), ops);
    var b1 := EnqueueAll(Step(b, BeginSend), ops);
    StepKeepsInv(b1, SendDone);
    assert b1.queue[0] == Popped(b1) && b.queue[0] == Popped(b);
  }
}
