/** Expiring maps: the dedup window and the notify cool-down both keep only recent
    entries. Pruning is proved unobservable against the full history. */
module Recent {

  /** Entries at least `span` old are dropped. */
  function Prune<K>(m: map<K, int>, now: int, span: int): map<K, int> {
    map k | k in m && now - m[k] < span :: m[k]
  }

  /** What a lookup in the full history answers. */
  ghost predicate Recorded<K(!new)>(h: seq<(K, int)>, k: K, now: int, span: int) {
    exists i :: 0 <= i < |h| && h[i].0 == k && now - h[i].1 < span
  }

  /** The map holds, for each key, its newest record or, if that one has aged out,
      possibly nothing. */
  ghost predicate Agrees<K(!new)>(m: map<K, int>, h: seq<(K, int)>, span: int, clock: int) {
    && (forall i :: 0 <= i < |h| ==> h[i].1 <= clock)
    && (forall k :: k in m ==> (k, m[k]) in h)
    && (forall i :: 0 <= i < |h| && h[i].0 in m ==> h[i].1 <= m[h[i].0])
    && (forall i :: 0 <= i < |h| && h[i].0 !in m ==> clock - h[i].1 >= span)
  }

  lemma AgreesPruned<K(!new)>(m: map<K, int>, h: seq<(K, int)>, span: int, clock: int, now: int)
    requires Agrees(m, h, span, clock) && clock <= now
    ensures Agrees(Prune(m, now, span), h, span, now)
  {
  }

  lemma AgreesRecorded<K(!new)>(m: map<K, int>, h: seq<(K, int)>, span: int, clock: int, k: K)
    requires Agrees(m, h, span, clock)
    ensures Agrees(m[k := clock], h + [(k, clock)], span, clock)
  {
    var m', h' := m[k := clock], h + [(k, clock)];
    forall k' | k' in m'
      ensures (k', m'[k']) in h'
    {
      if k' == k {
        assert h'[|h|] == (k, clock);
      } else {
        var i :| 0 <= i < |h| && h[i] == (k', m[k']);
        assert h'[i] == (k', m[k']);
      }
    }
  }

  lemma AgreesLookup<K(!new)>(m: map<K, int>, h: seq<(K, int)>, span: int, clock: int, k: K)
    requires Agrees(m, h, span, clock)
    ensures (k in m && clock - m[k] < span) <==> Recorded(h, k, clock, span)
  {
    if k in m {
      var i :| 0 <= i < |h| && h[i] == (k, m[k]);
    }
  }
}
