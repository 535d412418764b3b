/** In-memory msg_id dedup with a sliding window. */
module Dedups {
  import opened Recent

  /** An entry counts while it is at most `window` old. */
  function Span(window: int): int {
    window + 1
  }

  datatype Call =
    | Check(id: string, now: int)
    | Record(id: string, now: int)

  /** The map after a call; every call prunes first. */
  function Answer(seen: map<string, int>, c: Call, window: int): map<string, int> {
    var pruned := Prune(seen, c.now, Span(window));
    if c.Record? then pruned[c.id := c.now] else pruned
  }

  /** What a check returns on the map it finds. */
  predicate Hit(seen: map<string, int>, id: string, now: int, window: int) {
    var pruned := Prune(seen, now, Span(window));
    id in pruned && now - pruned[id] <= window
  }

  function Table(calls: seq<Call>, window: int): map<string, int> {
    if calls == [] then map[]
    else Answer(Table(calls[..|calls| - 1], window), calls[|calls| - 1], window)
  }

  ghost predicate Nondecreasing(calls: seq<Call>) {
    forall i, j :: 0 <= i < j < |calls| ==> calls[i].now <= calls[j].now
  }

  ghost function History(calls: seq<Call>): seq<(string, int)> {
    if calls == [] then []
    else
      var h, c := History(calls[..|calls| - 1]), calls[|calls| - 1];
      if c.Record? then h + [(c.id, c.now)] else h
  }

  lemma {:induction false} TableAgrees(calls: seq<Call>, window: int, now: int)
    requires Nondecreasing(calls) && (calls != [] ==> calls[|calls| - 1].now <= now)
    ensures Agrees(Table(calls, window), History(calls), Span(window), now)
  {
    if calls != [] {
      var n := |calls| - 1;
      var c, m, h := calls[n], Table(calls[..n], window), History(calls[..n]);
      TableAgrees(calls[..n], window, c.now);
      AgreesPruned(m, h, Span(window), c.now, c.now);
      if c.Record? {
        AgreesRecorded(Prune(m, c.now, Span(window)), h, Span(window), c.now, c.id);
      }
    }
  }

  lemma {:induction false} HistoryIsRecords(calls: seq<Call>, id: string, t: int)
    ensures (id, t) in History(calls) <==> Record(id, t) in calls
  {
    if calls != [] {
      var n := |calls| - 1;
      HistoryIsRecords(calls[..n], id, t);
      assert calls == calls[..n] + [calls[n]];
    }
  }

  /** Pruning is never observable: over any calls under a nondecreasing clock, a
      check hits exactly when some earlier record lies within the window. */
  lemma CheckMeansRecorded(calls: seq<Call>, window: int, id: string, now: int)
    requires Nondecreasing(calls + [Check(id, now)])
    ensures Hit(Table(calls, window), id, now, window)
            <==> exists t :: Record(id, t) in calls && now - t <= window
  {
    assert forall i :: 0 <= i < |calls| ==> (calls + [Check(id, now)])[i] == calls[i];
    assert (calls + [Check(id, now)])[|calls|].now == now;
    TableAgrees(calls, window, now);
    AgreesPruned(Table(calls, window), History(calls), Span(window), now, now);
    AgreesLookup(Prune(Table(calls, window), now, Span(window)), History(calls), Span(window), now, id);
    if t :| Record(id, t) in calls && now - t <= window {
      HistoryIsRecords(calls, id, t);
      var i :| 0 <= i < |History(calls)| && History(calls)[i] == (id, t);
    }
    if Recorded(History(calls), id, now, Span(window)) {
      var i :| 0 <= i < |History(calls)| && History(calls)[i].0 == id && now - History(calls)[i].1 < Span(window);
      HistoryIsRecords(calls, id, History(calls)[i].1);
    }
  }

  class Dedup {
    const window: int
    var seen: map<string, int>

    constructor (windowMs: int)
      ensures window == windowMs && seen == Table([], windowMs)
    {
      window, seen := windowMs, map[];
    }

    /** A peek: whether `id` is recorded within the window. */
    method Check(id: string, now: int) returns (hit: bool)
      modifies this`seen
      ensures hit == Hit(old(seen), id, now, window)
      ensures seen == Answer(old(seen), Call.Check(id, now), window)
    {
      Evict(now);
      hit := id in seen && now - seen[id] <= window;
    }

    method Record(id: string, now: int)
      modifies this`seen
      ensures seen == Answer(old(seen), Call.Record(id, now), window)
    {
      Evict(now);
      seen := seen[id := now];
    }

    method Evict(now: int)
      modifies this`seen
      ensures seen == Prune(old(seen), now, Span(window))
    {
      var cutoff := now - window;
      var stale := set k | k in seen && seen[k] < cutoff;
      var rest := stale;
      while rest != {}
        invariant rest <= stale
        invariant seen == old(seen) - (stale - rest)
        decreases rest
      {
        var k :| k in rest;
        seen, rest := seen - {k}, rest - {k};
      }
    }
  }
}
