/** Coalescing of courtesy notes: one piece of news per session and cool-down. */
module Notify {
  import opened Recent

  const NOTIFY_COOLDOWN_MS := 60000

  type Key = (string, string)

  datatype Call = Call(key: Key, now: int)

  predicate Grants(notified: map<Key, int>, c: Call) {
    !(c.key in notified && c.now - notified[c.key] < NOTIFY_COOLDOWN_MS)
  }

  /** A refusal leaves the map alone; a grant prunes it and notes the time. */
  function Next(notified: map<Key, int>, c: Call): map<Key, int> {
    if Grants(notified, c) then Prune(notified, c.now, NOTIFY_COOLDOWN_MS)[c.key := c.now] else notified
  }

  function Table(calls: seq<Call>): map<Key, int> {
    if calls == [] then map[] else Next(Table(calls[..|calls| - 1]), calls[|calls| - 1])
  }

  /** Whether call `i` of the run was granted. */
  predicate Granted(calls: seq<Call>, i: nat)
    requires i < |calls|
  {
    Grants(Table(calls[..i]), calls[i])
  }

  ghost function GrantLog(calls: seq<Call>): seq<(Key, int)> {
    if calls == [] then []
    else
      var n := |calls| - 1;
      GrantLog(calls[..n]) + if Granted(calls, n) then [(calls[n].key, calls[n].now)] else []
  }

  ghost predicate Nondecreasing(calls: seq<Call>) {
    forall i, j :: 0 <= i < j < |calls| ==> calls[i].now <= calls[j].now
  }

  lemma {:induction false} TableAgrees(calls: seq<Call>, now: int)
    requires Nondecreasing(calls) && (calls != [] ==> calls[|calls| - 1].now <= now)
    ensures Agrees(Table(calls), GrantLog(calls), NOTIFY_COOLDOWN_MS, now)
  {
    if calls != [] {
      var n := |calls| - 1;
      var c, m, h := calls[n], Table(calls[..n]), GrantLog(calls[..n]);
      TableAgrees(calls[..n], c.now);
      AgreesPruned(m, h, NOTIFY_COOLDOWN_MS, c.now, c.now);
      AgreesRecorded(Prune(m, c.now, NOTIFY_COOLDOWN_MS), h, NOTIFY_COOLDOWN_MS, c.now, c.key);
    }
  }

  lemma EarlierCallsSame(calls: seq<Call>, n: nat, i: nat)
    requires i < n <= |calls|
    ensures Granted(calls[..n], i) == Granted(calls, i)
  {
    assert calls[..n][..i] == calls[..i];
  }

  lemma {:induction false} GrantIsLogged(calls: seq<Call>, i: nat)
    requires i < |calls| && Granted(calls, i)
    ensures (calls[i].key, calls[i].now) in GrantLog(calls)
  {
    var n := |calls| - 1;
    if i < n {
      EarlierCallsSame(calls, n, i);
      GrantIsLogged(calls[..n], i);
    }
  }

  lemma {:induction false} LoggedIsGrant(calls: seq<Call>, key: Key, t: int) returns (i: nat)
    requires (key, t) in GrantLog(calls)
    ensures i < |calls| && Granted(calls, i) && calls[i] == Call(key, t)
  {
    var n := |calls| - 1;
    if (key, t) in GrantLog(calls[..n]) {
      i := LoggedIsGrant(calls[..n], key, t);
      EarlierCallsSame(calls, n, i);
    } else {
      i := n;
    }
  }

  /** A call is granted exactly when no earlier grant for its key is under the
      cool-down old: pruning and refused calls do not show. */
  lemma GrantedMeansQuiet(calls: seq<Call>, n: nat)
    requires Nondecreasing(calls) && n < |calls|
    ensures Granted(calls, n)
            <==> (forall i :: 0 <= i < n && Granted(calls, i) && calls[i].key == calls[n].key
                    ==> calls[n].now - calls[i].now >= NOTIFY_COOLDOWN_MS)
  {
    var before, c := calls[..n], calls[n];
    TableAgrees(before, c.now);
    AgreesLookup(Table(before), GrantLog(before), NOTIFY_COOLDOWN_MS, c.now, c.key);
    if !Granted(calls, n) {
      var k :| 0 <= k < |GrantLog(before)| && GrantLog(before)[k].0 == c.key
               && c.now - GrantLog(before)[k].1 < NOTIFY_COOLDOWN_MS;
      var i := LoggedIsGrant(before, c.key, GrantLog(before)[k].1);
      EarlierCallsSame(calls, n, i);
    } else {
      forall i | 0 <= i < n && Granted(calls, i) && calls[i].key == c.key
        ensures c.now - calls[i].now >= NOTIFY_COOLDOWN_MS
      {
        EarlierCallsSame(calls, n, i);
        GrantIsLogged(before, i);
        var k :| 0 <= k < |GrantLog(before)| && GrantLog(before)[k] == (c.key, calls[i].now);
      }
    }
  }
}
