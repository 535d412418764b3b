/** Python string operations the codecs use, with the laws that undo them. */
module Text {
  // ---- str.replace ----

  /** Leftmost, non-overlapping occurrences of `from`. */
  function Replace(s: string, from: string, to: string): string
    requires from != ""
  {
    if s == "" then ""
    else if from <= s then to + Replace(s[|from|..], from, to)
    else [s[0]] + Replace(s[1..], from, to)
  }

  ghost predicate Contains(s: string, t: string) {
    exists i :: 0 <= i <= |s| && t <= s[i..]
  }

  /** Where two texts first disagree, neither is a prefix of the other. */
  lemma NotPrefix(a: string, b: string, k: nat)
    requires k < |a| && (k >= |b| || a[k] != b[k])
    ensures !(a <= b)
  {
  }

  lemma Cut(a: string, b: string)
    ensures a <= a + b && (a + b)[|a|..] == b
  {
  }

  lemma Glue(a: string, s: string)
    requires a <= s
    ensures s == a + s[|a|..]
  {
  }

  lemma Assoc(a: string, b: string, c: string)
    ensures a + b + c == a + (b + c)
  {
  }

  lemma PrefixTail(a: string, b: string, s: string)
    ensures a + b <= s <==> a <= s && b <= s[|a|..]
  {
    if a <= s && b <= s[|a|..] {
      assert s == a + s[|a|..];
    }
    if a + b <= s {
      assert s == a + (b + s[|a + b|..]);
    }
  }

  // ---- sep.join and str.split for a one-element separator; bytes split alike ----

  function Join<T>(parts: seq<seq<T>>, sep: T): seq<T> {
    if parts == [] then []
    else if |parts| == 1 then parts[0]
    else parts[0] + ([sep] + Join(parts[1..], sep))
  }

  /** The text before the first `sep`; the whole text if there is none. */
  function Before<T(==)>(s: seq<T>, sep: T): seq<T> {
    if s == [] || s[0] == sep then [] else [s[0]] + Before(s[1..], sep)
  }

  lemma {:induction false} BeforeFirst<T>(u: seq<T>, sep: T, rest: seq<T>)
    requires sep !in u
    ensures Before(u + ([sep] + rest), sep) == u
  {
    if u == [] {
      assert u + ([sep] + rest) == [sep] + rest;
    } else {
      BeforeFirst(u[1..], sep, rest);
      assert (u + ([sep] + rest))[1..] == u[1..] + ([sep] + rest);
      assert u == [u[0]] + u[1..];
    }
  }

  lemma {:induction false} BeforeIsPrefix<T>(s: seq<T>, sep: T)
    ensures |Before(s, sep)| <= |s| && Before(s, sep) <= s && sep !in Before(s, sep)
    ensures if sep in s then |Before(s, sep)| < |s| && s[|Before(s, sep)|] == sep else Before(s, sep) == s
  {
    if s != [] && s[0] != sep {
      BeforeIsPrefix(s[1..], sep);
      assert s == [s[0]] + s[1..];
    }
  }

  /** partition: what follows the first `sep`, or nothing. */
  function After<T(==)>(s: seq<T>, sep: T): seq<T> {
    BeforeIsPrefix(s, sep);
    if sep in s then s[|Before(s, sep)| + 1..] else []
  }

  lemma AfterFirst<T>(u: seq<T>, sep: T, rest: seq<T>)
    requires sep !in u
    ensures sep in u + ([sep] + rest) && After(u + ([sep] + rest), sep) == rest
  {
    BeforeFirst(u, sep, rest);
    var s := u + ([sep] + rest);
    assert s[|u|] == sep;
    assert s[|u| + 1..] == rest;
  }

  function Split<T(==)>(s: seq<T>, sep: T): seq<seq<T>>
    decreases |s|
  {
    BeforeIsPrefix(s, sep);
    if sep in s then [Before(s, sep)] + Split(After(s, sep), sep) else [s]
  }

  lemma {:induction false} SplitJoin<T>(parts: seq<seq<T>>, sep: T)
    requires parts != [] && forall p :: p in parts ==> sep !in p
    ensures Split(Join(parts, sep), sep) == parts
  {
    var first := parts[0];
    if |parts| == 1 {
      BeforeIsPrefix(first, sep);
    } else {
      var rest := Join(parts[1..], sep);
      assert forall p :: p in parts[1..] ==> p in parts;
      SplitJoin(parts[1..], sep);
      BeforeFirst(first, sep, rest);
      AfterFirst(first, sep, rest);
    }
  }

  lemma {:induction false} JoinEmpty(parts: seq<string>, sep: char)
    ensures Join(parts, sep) == "" <==> parts == [] || parts == [""]
  {
    if |parts| > 1 {
      assert |parts[0] + ([sep] + Join(parts[1..], sep))| > 0;
    }
  }

  lemma {:induction false} JoinAvoids(parts: seq<string>, sep: char, c: char)
    requires c != sep && forall p :: p in parts ==> c !in p
    ensures c !in Join(parts, sep)
  {
    if |parts| > 1 {
      assert forall p :: p in parts[1..] ==> p in parts;
      JoinAvoids(parts[1..], sep, c);
    }
  }
}
