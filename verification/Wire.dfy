/** The peer frame's wrapper: how a body is escaped, printed and parsed back. */
module Wire {
  import opened Text

  const TAG := "cross-session-message"
  const OPEN_TAIL := TAG
  const CLOSE_TAIL := "/" + TAG + ">"
  const OPEN := "<" + OPEN_TAIL
  const CLOSE := "<" + CLOSE_TAIL
  const ESC_OPEN := "<\\" + OPEN_TAIL
  const ESC_CLOSE := "<\\" + CLOSE_TAIL

  function Escape(body: string): string {
    Replace(Replace(body, CLOSE, ESC_CLOSE), OPEN, ESC_OPEN)
  }

  function Unescape(body: string): string {
    Replace(Replace(body, ESC_CLOSE, CLOSE), ESC_OPEN, OPEN)
  }

  // ---- both replacements as one pass over the characters ----

  /** What may follow the '<' of a tag: text with neither '<' nor '\'. */
  predicate Tail(t: string) {
    t != "" && '<' !in t && '\\' !in t
  }

  ghost predicate Tails(ts: set<string>) {
    forall t :: t in ts ==> Tail(t)
  }

  ghost predicate AtTag(s: string, ts: set<string>) {
    s != "" && s[0] == '<' && exists t :: t in ts && t <= s[1..]
  }

  ghost predicate AtEscaped(s: string, ts: set<string>) {
    |s| >= 2 && s[0] == '<' && s[1] == '\\' && exists t :: t in ts && t <= s[2..]
  }

  /** A backslash after the '<' of each tag. */
  ghost function Mark(s: string, ts: set<string>): string {
    if s == "" then ""
    else if AtTag(s, ts) then ['<'] + (['\\'] + Mark(s[1..], ts))
    else [s[0]] + Mark(s[1..], ts)
  }

  /** The backslash of each escaped tag dropped. */
  ghost function Unmark(s: string, ts: set<string>): string {
    if s == "" then ""
    else if AtEscaped(s, ts) then "<" + Unmark(s[2..], ts)
    else [s[0]] + Unmark(s[1..], ts)
  }

  /** Text without '<' is seen through a marking, before and after. */
  lemma {:induction false} MarkKeepsPlain(s: string, ts: set<string>, u: string)
    requires '<' !in u
    ensures u <= Mark(s, ts) <==> u <= s
    ensures u <= s ==> Mark(s, ts) == u + Mark(s[|u|..], ts)
  {
    if u != "" && s != "" {
      MarkKeepsPlain(s[1..], ts, u[1..]);
      assert u == [u[0]] + u[1..] && s == [s[0]] + s[1..];
      if u <= s {
        assert u[1..] <= s[1..] && s[1..][|u[1..]|..] == s[|u|..];
      }
    }
  }

  lemma {:induction false} UnmarkKeepsPlain(s: string, ts: set<string>, u: string)
    requires '<' !in u
    ensures u <= Unmark(s, ts) <==> u <= s
    ensures u <= s ==> Unmark(s, ts) == u + Unmark(s[|u|..], ts)
  {
    if u != "" && s != "" {
      UnmarkKeepsPlain(s[1..], ts, u[1..]);
      assert u == [u[0]] + u[1..] && s == [s[0]] + s[1..];
      if u <= s {
        assert u[1..] <= s[1..] && s[1..][|u[1..]|..] == s[|u|..];
      }
    }
  }

  lemma EscapedTagCopied(t: string, more: string)
    ensures "<\\" + t + more == ['<'] + (['\\'] + (t + more))
  {
    Assoc("<\\", t, more);
    Assoc("<", "\\", t + more);
  }

  lemma {:induction false} ReplaceMarks(s: string, t: string)
    requires Tail(t)
    ensures Replace(s, "<" + t, "<\\" + t) == Mark(s, {t})
    decreases |s|
  {
    if s != "" {
      PrefixTail("<", t, s);
      if "<" + t <= s {
        assert AtTag(s, {t});
        MarkKeepsPlain(s[1..], {t}, t);
        var rest := s[|"<" + t|..];
        assert s[1..][|t|..] == rest;
        ReplaceMarks(rest, t);
        EscapedTagCopied(t, Mark(rest, {t}));
      } else {
        ReplaceMarks(s[1..], t);
      }
    }
  }

  lemma {:induction false} ReplaceUnmarks(s: string, t: string)
    requires Tail(t)
    ensures Replace(s, "<\\" + t, "<" + t) == Unmark(s, {t})
    decreases |s|
  {
    if s != "" {
      PrefixTail("<\\", t, s);
      if "<\\" + t <= s {
        assert AtEscaped(s, {t});
        UnmarkKeepsPlain(s[2..], {t}, t);
        assert s[2..][|t|..] == s[|"<\\" + t|..];
        ReplaceUnmarks(s[|"<\\" + t|..], t);
      } else {
        assert !AtEscaped(s, {t}) by {
          if |s| >= 2 && s[0] == '<' && s[1] == '\\' {
            assert s[..2] == "<\\";
          }
        }
        ReplaceUnmarks(s[1..], t);
      }
    }
  }

  /** A tag marked in the first pass is left alone by the second. */
  lemma MarkOnce(s: string, t1: string, t2: string)
    requires Tail(t1) && Tail(t2) && AtTag(s, {t1})
    ensures Mark(Mark(s, {t1}), {t2}) == ['<'] + (['\\'] + Mark(Mark(s[1..], {t1}), {t2}))
  {
    var rest := Mark(s[1..], {t1});
    var inner := ['\\'] + rest;
    var once := ['<'] + inner;
    Cut(['<'], inner);
    Cut(['\\'], rest);
    NotPrefix(t2, inner, 0);
    assert !AtTag(once, {t2}) && !AtTag(inner, {t2});
    assert Mark(inner, {t2}) == ['\\'] + Mark(rest, {t2});
  }

  lemma MarkSecond(s: string, t1: string, t2: string)
    requires Tail(t1) && Tail(t2) && s != "" && !AtTag(s, {t1})
    ensures AtTag(Mark(s, {t1}), {t2}) <==> AtTag(s, {t2})
    ensures Mark(s, {t1})[1..] == Mark(s[1..], {t1})
  {
    MarkKeepsPlain(s[1..], {t1}, t2);
  }

  lemma EitherTail(s: string, t1: string, t2: string)
    ensures AtTag(s, {t1, t2}) <==> AtTag(s, {t1}) || AtTag(s, {t2})
  {
  }

  /** Marking for one tail and then for another is marking for both. */
  lemma {:induction false} MarkTwice(s: string, t1: string, t2: string)
    requires Tail(t1) && Tail(t2)
    ensures Mark(Mark(s, {t1}), {t2}) == Mark(s, {t1, t2})
  {
    if s != "" {
      MarkTwice(s[1..], t1, t2);
      EitherTail(s, t1, t2);
      if AtTag(s, {t1}) {
        MarkOnce(s, t1, t2);
      } else {
        MarkSecond(s, t1, t2);
      }
    }
  }

  lemma {:induction false} UnmarkTwice(s: string, t1: string, t2: string)
    requires Tail(t1) && Tail(t2)
    ensures Unmark(Unmark(s, {t1}), {t2}) == Unmark(s, {t1, t2})
    decreases |s|
  {
    if s != "" {
      var once := Unmark(s, {t1});
      if AtEscaped(s, {t1}) {
        UnmarkTwice(s[2..], t1, t2);
        UnmarkKeepsPlain(s[2..], {t1}, t1);
        var rest := Unmark(s[2..], {t1});
        assert once[1..] == rest && once[1] == t1[0];
        assert AtEscaped(s, {t1, t2});
      } else {
        UnmarkTwice(s[1..], t1, t2);
        var rest := Unmark(s[1..], {t1});
        assert once == [s[0]] + rest && once[1..] == rest;
        UnmarkSecond(s, t1, t2);
        if AtEscaped(s, {t2}) {
          UnmarkTwice(s[2..], t1, t2);
          assert once[2..] == Unmark(s[2..], {t1});
        }
        assert AtEscaped(s, {t1, t2}) <==> AtEscaped(s, {t2});
      }
    }
  }

  /** Where the first pass leaves a '<' alone, the second sees what was there. */
  lemma UnmarkSecond(s: string, t1: string, t2: string)
    requires Tail(t1) && Tail(t2) && s != "" && !AtEscaped(s, {t1})
    ensures AtEscaped(Unmark(s, {t1}), {t2}) <==> AtEscaped(s, {t2})
    ensures AtEscaped(s, {t2}) ==> Unmark(s, {t1}) == "<\\" + Unmark(s[2..], {t1})
  {
    var once, rest := Unmark(s, {t1}), Unmark(s[1..], {t1});
    assert once == [s[0]] + rest;
    if |s| >= 2 {
      UnmarkKeepsPlain(s[2..], {t1}, t2);
      if s[1] == '\\' {
        assert s[1..][1..] == s[2..];
        assert rest == ['\\'] + Unmark(s[2..], {t1});
        assert once[2..] == Unmark(s[2..], {t1});
      } else {
        assert rest[0] != '\\';
      }
    }
  }

  lemma MarkedTag(s: string, ts: set<string>)
    requires Tails(ts) && AtTag(s, ts)
    ensures AtEscaped(Mark(s, ts), ts) && Mark(s, ts)[2..] == Mark(s[1..], ts) && !AtEscaped(s, ts)
  {
    var t :| t in ts && t <= s[1..];
    MarkKeepsPlain(s[1..], ts, t);
    assert s[1] == t[0];
  }

  lemma MarkedEscape(s: string, ts: set<string>)
    requires Tails(ts) && AtEscaped(s, ts)
    ensures AtEscaped(Mark(s, ts), ts) && Mark(s, ts)[2..] == Mark(s[2..], ts)
  {
    var t :| t in ts && t <= s[2..];
    MarkKeepsPlain(s[2..], ts, t);
    assert !AtTag(s, ts);
    assert s[1..][1..] == s[2..] && !AtTag(s[1..], ts);
    assert Mark(s, ts) == ['<', '\\'] + Mark(s[2..], ts);
  }

  /** Unmarking does not notice a marking. */
  lemma {:induction false} UnmarkMark(s: string, ts: set<string>)
    requires Tails(ts)
    ensures Unmark(Mark(s, ts), ts) == Unmark(s, ts)
    decreases |s|
  {
    if s != "" {
      if AtTag(s, ts) {
        MarkedTag(s, ts);
        UnmarkMark(s[1..], ts);
      } else if AtEscaped(s, ts) {
        MarkedEscape(s, ts);
        UnmarkMark(s[2..], ts);
      } else {
        UnmarkMark(s[1..], ts);
        assert Mark(s, ts)[1..] == Mark(s[1..], ts);
        MarkAddsNoEscape(s, ts);
      }
    }
  }

  lemma MarkAddsNoEscape(s: string, ts: set<string>)
    requires Tails(ts) && s != "" && !AtTag(s, ts) && !AtEscaped(s, ts)
    ensures !AtEscaped(Mark(s, ts), ts)
  {
    var m := Mark(s, ts);
    if AtEscaped(m, ts) {
      var t :| t in ts && t <= m[2..];
      assert m == [s[0]] + Mark(s[1..], ts);
      assert |s| >= 2 && s[1] == '\\';
      assert s[1..][1..] == s[2..] && m[2..] == Mark(s[2..], ts);
      MarkKeepsPlain(s[2..], ts, t);
      assert false;
    }
  }

  ghost predicate TagFree(s: string, ts: set<string>) {
    forall i :: 0 <= i <= |s| ==> !AtTag(s[i..], ts)
  }

  ghost predicate EscapeFree(s: string, ts: set<string>) {
    forall i :: 0 <= i <= |s| ==> !AtEscaped(s[i..], ts)
  }

  lemma {:induction false} MarkIsTagFree(s: string, ts: set<string>)
    requires Tails(ts)
    ensures TagFree(Mark(s, ts), ts)
  {
    if s != "" {
      var m, rest := Mark(s, ts), Mark(s[1..], ts);
      MarkIsTagFree(s[1..], ts);
      var n := |m| - |rest|;
      assert m[n..] == rest;
      forall i | 0 <= i <= |m|
        ensures !AtTag(m[i..], ts)
      {
        if i >= n {
          assert m[i..] == rest[i - n..];
        } else if i == 0 && !AtTag(s, ts) && AtTag(m, ts) {
          var t :| t in ts && t <= m[1..];
          MarkKeepsPlain(s[1..], ts, t);
          assert false;
        } else if i == 0 && AtTag(s, ts) {
          assert m[1] == '\\';
        }
      }
    }
  }

  /** Unmarking shortens the text exactly when there is something to unmark. */
  lemma {:induction false} UnmarkIdentity(s: string, ts: set<string>)
    ensures |Unmark(s, ts)| <= |s|
    ensures Unmark(s, ts) == s <==> EscapeFree(s, ts)
    ensures !EscapeFree(s, ts) ==> |Unmark(s, ts)| < |s|
    decreases |s|
  {
    if s != "" {
      assert s[0..] == s;
      if AtEscaped(s, ts) {
        UnmarkIdentity(s[2..], ts);
      } else {
        UnmarkIdentity(s[1..], ts);
        forall i | 1 <= i <= |s|
          ensures s[i..] == s[1..][i - 1..]
        {
        }
        assert EscapeFree(s, ts) <==> EscapeFree(s[1..], ts) by {
          if !EscapeFree(s[1..], ts) {
            var i :| 0 <= i <= |s[1..]| && AtEscaped(s[1..][i..], ts);
            assert s[i + 1..] == s[1..][i..];
          }
        }
        assert s == [s[0]] + s[1..];
      }
    } else {
      assert s[0..] == s;
    }
  }

  // ---- the laws of escaping ----

  lemma TailsOk()
    ensures Tail(OPEN_TAIL) && Tail(CLOSE_TAIL) && Tails({CLOSE_TAIL, OPEN_TAIL})
  {
  }

  lemma EscapeIsMark(b: string)
    ensures Escape(b) == Mark(b, {CLOSE_TAIL, OPEN_TAIL})
    ensures Unescape(b) == Unmark(b, {CLOSE_TAIL, OPEN_TAIL})
  {
    TailsOk();
    ReplaceMarks(b, CLOSE_TAIL);
    ReplaceMarks(Replace(b, CLOSE, ESC_CLOSE), OPEN_TAIL);
    MarkTwice(b, CLOSE_TAIL, OPEN_TAIL);
    ReplaceUnmarks(b, CLOSE_TAIL);
    ReplaceUnmarks(Replace(b, ESC_CLOSE, CLOSE), OPEN_TAIL);
    UnmarkTwice(b, CLOSE_TAIL, OPEN_TAIL);
  }

  lemma ContainsTag(s: string, t: string, ts: set<string>)
    requires t in ts
    ensures Contains(s, "<" + t) ==> !TagFree(s, ts)
    ensures Contains(s, "<\\" + t) ==> !EscapeFree(s, ts)
  {
    if i :| 0 <= i <= |s| && "<" + t <= s[i..] {
      PrefixTail("<", t, s[i..]);
      assert AtTag(s[i..], ts);
    }
    if i :| 0 <= i <= |s| && "<\\" + t <= s[i..] {
      PrefixTail("<\\", t, s[i..]);
      assert AtEscaped(s[i..], ts);
    }
  }

  /** Unescaping an escaped body gives what unescaping the body itself gives. */
  lemma UnescapeEscape(b: string)
    ensures Unescape(Escape(b)) == Unescape(b)
  {
    TailsOk();
    EscapeIsMark(b);
    EscapeIsMark(Escape(b));
    UnmarkMark(b, {CLOSE_TAIL, OPEN_TAIL});
  }

  /** An escaped body holds neither wrapper tag. */
  lemma EscapedHoldsNoTag(b: string)
    ensures !Contains(Escape(b), OPEN) && !Contains(Escape(b), CLOSE)
  {
    var ts := {CLOSE_TAIL, OPEN_TAIL};
    TailsOk();
    EscapeIsMark(b);
    MarkIsTagFree(b, ts);
    ContainsTag(Escape(b), OPEN_TAIL, ts);
    ContainsTag(Escape(b), CLOSE_TAIL, ts);
  }

  lemma EscapeIsContained(s: string, ts: set<string>) returns (t: string)
    requires !EscapeFree(s, ts)
    ensures t in ts && Contains(s, "<\\" + t)
  {
    var i :| 0 <= i <= |s| && AtEscaped(s[i..], ts);
    t :| t in ts && t <= s[i..][2..];
    assert s[i..][..2] == "<\\";
    PrefixTail("<\\", t, s[i..]);
  }

  /** A body survives exactly when it holds neither escaped tag. */
  lemma BodySurvives(b: string)
    ensures Unescape(Escape(b)) == b <==> !Contains(b, ESC_OPEN) && !Contains(b, ESC_CLOSE)
  {
    var ts := {CLOSE_TAIL, OPEN_TAIL};
    UnescapeEscape(b);
    EscapeIsMark(b);
    UnmarkIdentity(b, ts);
    ContainsTag(b, OPEN_TAIL, ts);
    ContainsTag(b, CLOSE_TAIL, ts);
    if !EscapeFree(b, ts) {
      var t := EscapeIsContained(b, ts);
    }
  }
}
