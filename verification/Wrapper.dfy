/** The wrapper around a body: a header of optional attributes in a fixed order. The
    printer writes some of them; the parser accepts every wrapper of the grammar. */
module Wrapper {
  import opened Prelude
  import opened Text
  import opened Wire

  // ---- attributes ----

  const ATTRIBUTES: nat := 5

  /** The attribute names, in the only order the pattern accepts. */
  function Name(k: nat): string
    requires k < ATTRIBUTES
  {
    match k
    case 0 => "from"
    case 1 => "from-session"
    case 2 => "hop-chain"
    case 3 => "from-name"
    case _ => "from-mode"
  }

  function Attribute(name: string, value: string): string {
    name + ("=\"" + (value + "\""))
  }

  /** What introduces an attribute inside the header. */
  function Key(name: string): string {
    " " + (name + "=\"")
  }

  /** The attributes present from the `k`-th on, then `tail`. */
  function Print(k: nat, values: seq<Option<string>>, tail: string): string
    requires k <= |values| == ATTRIBUTES
    decreases ATTRIBUTES - k
  {
    if k == ATTRIBUTES then tail
    else
      var more := Print(k + 1, values, tail);
      if values[k].Some? then Key(Name(k)) + (values[k].value + ("\"" + more)) else more
  }

  /** An optional attribute: skipped unless its name and both quotes are there. */
  function ParseAttribute(s: string, name: string): (Option<string>, string) {
    if Key(name) <= s && '"' in s[|Key(name)|..]
    then (Some(Before(s[|Key(name)|..], '"')), After(s[|Key(name)|..], '"'))
    else (None, s)
  }

  function Parse(k: nat, s: string): (r: (seq<Option<string>>, string))
    requires k <= ATTRIBUTES
    ensures |r.0| == ATTRIBUTES - k
    decreases ATTRIBUTES - k
  {
    if k == ATTRIBUTES then ([], s)
    else
      var (v, rest) := ParseAttribute(s, Name(k));
      var (vs, rest') := Parse(k + 1, rest);
      ([v] + vs, rest')
  }

  /** Attribute values hold no quote. */
  ghost predicate Quotable(values: seq<Option<string>>) {
    forall v :: v in values && v.Some? ==> '"' !in v.value
  }

  lemma NamesDiffer(j: nat, k: nat)
    requires j < k < ATTRIBUTES
    ensures Name(j) != Name(k) && '=' !in Name(j) && '=' !in Name(k)
  {
    assert |Name(0)| == 4 && |Name(1)| == 12 && |Name(2)| == |Name(3)| == |Name(4)| == 9;
    assert Name(2)[0] == 'h' && Name(3)[0] == Name(4)[0] == 'f' && Name(3)[5] == 'n' && Name(4)[5] == 'm';
  }

  /** Keys of different names disagree before either ends. */
  lemma KeysDiffer(a: string, b: string, rest: string)
    requires a != b && '=' !in a && '=' !in b
    ensures !(Key(a) <= Key(b) + rest)
  {
    var l, r := Key(a), Key(b) + rest;
    assert forall i :: 0 <= i < |a| ==> l[i + 1] == a[i];
    assert forall i :: 0 <= i < |b| ==> r[i + 1] == b[i];
    if |a| < |b| {
      assert l[|a| + 1] == '=' && r[|a| + 1] == b[|a|];
      NotPrefix(l, r, |a| + 1);
    } else if |b| < |a| {
      assert r[|b| + 1] == '=' && l[|b| + 1] == a[|b|];
      NotPrefix(l, r, |b| + 1);
    } else {
      var i :| 0 <= i < |a| && a[i] != b[i];
      NotPrefix(l, r, i + 1);
    }
  }

  /** A printed attribute parses back, whatever follows. */
  lemma PresentParses(name: string, value: string, rest: string)
    requires '"' !in value
    ensures ParseAttribute(Key(name) + (value + ("\"" + rest)), name) == (Some(value), rest)
  {
    Cut(Key(name), value + ("\"" + rest));
    BeforeFirst(value, '"', rest);
    AfterFirst(value, '"', rest);
  }

  /** An absent attribute is skipped: what follows starts with another key, or with
      no space at all. */
  lemma {:induction false} AbsentSkips(j: nat, k: nat, values: seq<Option<string>>, tail: string)
    requires j < k <= |values| == ATTRIBUTES && tail != "" && tail[0] != ' '
    ensures !(Key(Name(j)) <= Print(k, values, tail))
    decreases ATTRIBUTES - k
  {
    if k == ATTRIBUTES {
      NotPrefix(Key(Name(j)), tail, 0);
    } else if values[k].Some? {
      NamesDiffer(j, k);
      KeysDiffer(Name(j), Name(k), values[k].value + ("\"" + Print(k + 1, values, tail)));
    } else {
      AbsentSkips(j, k + 1, values, tail);
    }
  }

  /** The parser's turn at the `k`-th attribute, there or not. */
  lemma NextAttributeParses(k: nat, values: seq<Option<string>>, tail: string)
    requires k < |values| == ATTRIBUTES && tail != "" && tail[0] != ' '
    requires values[k].Some? ==> '"' !in values[k].value
    ensures ParseAttribute(Print(k, values, tail), Name(k)) == (values[k], Print(k + 1, values, tail))
  {
    if values[k].Some? {
      PresentParses(Name(k), values[k].value, Print(k + 1, values, tail));
    } else {
      AbsentSkips(k, k + 1, values, tail);
    }
  }

  lemma ParseUnfold(k: nat, s: string, v: Option<string>, rest: string)
    requires k < ATTRIBUTES && ParseAttribute(s, Name(k)) == (v, rest)
    ensures Parse(k, s) == ([v] + Parse(k + 1, rest).0, Parse(k + 1, rest).1)
  {
  }

  lemma {:induction false} PrintedParses(k: nat, values: seq<Option<string>>, tail: string)
    requires k <= |values| == ATTRIBUTES && Quotable(values) && tail != "" && tail[0] != ' '
    ensures Parse(k, Print(k, values, tail)).0 == values[k..]
    ensures Parse(k, Print(k, values, tail)).1 == tail
    decreases ATTRIBUTES - k
  {
    if k < ATTRIBUTES {
      assert values[k] in values;
      PrintedParses(k + 1, values, tail);
      NextAttributeParses(k, values, tail);
      ParseUnfold(k, Print(k, values, tail), values[k], Print(k + 1, values, tail));
    }
  }

  lemma ParsedAttributePrints(s: string, name: string)
    ensures var (v, rest) := ParseAttribute(s, name);
            if v.Some? then s == Key(name) + (v.value + ("\"" + rest)) && '"' !in v.value else rest == s
  {
    if Key(name) <= s && '"' in s[|Key(name)|..] {
      var u := s[|Key(name)|..];
      Glue(Key(name), s);
      BeforeIsPrefix(u, '"');
      assert u == Before(u, '"') + ("\"" + After(u, '"'));
    }
  }

  /** What was parsed prints back as what was read. */
  lemma {:induction false} ParsedPrints(k: nat, s: string, values: seq<Option<string>>)
    requires k <= |values| == ATTRIBUTES && values[k..] == Parse(k, s).0
    ensures s == Print(k, values, Parse(k, s).1)
    ensures forall i :: k <= i < ATTRIBUTES && values[i].Some? ==> '"' !in values[i].value
    decreases ATTRIBUTES - k
  {
    if k < ATTRIBUTES {
      var (v, rest) := ParseAttribute(s, Name(k));
      ParsedAttributePrints(s, Name(k));
      assert values[k] == values[k..][0] == v;
      assert values[k + 1..] == values[k..][1..] == Parse(k + 1, rest).0;
      ParsedPrints(k + 1, rest, values);
    }
  }

  // ---- wrappers ----

  const BODY_END := "\n" + CLOSE

  /** A wrapper of the grammar, with what follows its closing tag. */
  function PrintRaw(values: seq<Option<string>>, body: string, after: string): string
    requires |values| == ATTRIBUTES
  {
    OPEN + Print(0, values, ">\n" + (body + (BODY_END + after)))
  }

  function DropSuffix(s: string, suffix: string): Option<string> {
    if |suffix| <= |s| && s[|s| - |suffix|..] == suffix then Some(s[..|s| - |suffix|]) else None
  }

  /** The end of the pattern also matches before one final newline. */
  function ParseBody(inner: string): Option<string> {
    match DropSuffix(inner, BODY_END)
    case Some(body) => Some(body)
    case None => DropSuffix(inner, BODY_END + "\n")
  }

  /** The pattern, anchored at both ends. */
  function ParseRaw(content: string): Option<(seq<Option<string>>, string)> {
    if !(OPEN <= content) then None
    else
      var (values, rest) := Parse(0, content[|OPEN|..]);
      if !(">\n" <= rest) then None
      else
        match ParseBody(rest[2..])
        case Some(body) => Some((values, body))
        case None => None
  }

  lemma DropAppended(s: string, suffix: string)
    ensures DropSuffix(s + suffix, suffix) == Some(s)
  {
  }

  lemma BodyParses(body: string, after: string)
    requires after == "" || after == "\n"
    ensures ParseBody(body + (BODY_END + after)) == Some(body)
  {
    var inner := body + (BODY_END + after);
    if after == "" {
      assert BODY_END + after == BODY_END;
      DropAppended(body, BODY_END);
    } else {
      DropAppended(body, BODY_END + "\n");
      assert inner[|inner| - 1] == '\n' && BODY_END[|BODY_END| - 1] == '>';
      assert DropSuffix(inner, BODY_END) == None by {
        if |BODY_END| <= |inner| {
          assert inner[|inner| - |BODY_END|..][|BODY_END| - 1] == inner[|inner| - 1];
        }
      }
    }
  }

  lemma ParsedBodyPrints(inner: string) returns (after: string)
    requires ParseBody(inner).Some?
    ensures (after == "" || after == "\n") && inner == ParseBody(inner).value + (BODY_END + after)
  {
    if DropSuffix(inner, BODY_END).Some? {
      after := "";
      assert BODY_END + after == BODY_END;
    } else {
      after := "\n";
    }
  }

  /** Every printed wrapper parses back to its own fields. */
  lemma GrammarParses(values: seq<Option<string>>, body: string, after: string)
    requires |values| == ATTRIBUTES && Quotable(values) && (after == "" || after == "\n")
    ensures ParseRaw(PrintRaw(values, body, after)) == Some((values, body))
  {
    var inner := body + (BODY_END + after);
    Cut(OPEN, Print(0, values, ">\n" + inner));
    Cut(">\n", inner);
    PrintedParses(0, values, ">\n" + inner);
    assert values[0..] == values;
    BodyParses(body, after);
  }

  /** Whatever parses is a printed wrapper of the fields it parsed to. */
  lemma ParsedIsGrammar(content: string) returns (after: string)
    ensures after == "" || after == "\n"
    ensures ParseRaw(content).Some? ==>
              var (values, body) := ParseRaw(content).value;
              |values| == ATTRIBUTES && Quotable(values) && content == PrintRaw(values, body, after)
  {
    after := "";
    if ParseRaw(content).Some? {
      var s := content[|OPEN|..];
      var (values, rest) := Parse(0, s);
      Glue(OPEN, content);
      assert values[0..] == values;
      ParsedPrints(0, s, values);
      Glue(">\n", rest);
      after := ParsedBodyPrints(rest[2..]);
    }
  }

  /** The parser accepts exactly the wrappers of the grammar, up to one final newline,
      and recovers every field: parsing inverts printing in both directions. */
  lemma ParserInvertsGrammar(values: seq<Option<string>>, body: string, content: string)
    requires |values| == ATTRIBUTES
    ensures ParseRaw(content) == Some((values, body))
            <==> Quotable(values) && (content == PrintRaw(values, body, "") || content == PrintRaw(values, body, "\n"))
  {
    if ParseRaw(content) == Some((values, body)) {
      var after := ParsedIsGrammar(content);
    }
    if Quotable(values) {
      GrammarParses(values, body, "");
      GrammarParses(values, body, "\n");
    }
  }

  // ---- the source's two functions ----

  datatype Fields = Fields(
    from: Option<string>,
    fromName: Option<string>,
    fromMode: Option<string>,
    hopChain: Option<seq<string>>,
    body: string)

  /** An absent or empty chain is not printed. */
  function BuildWrapper(uri: string, name: string, body: string, hopChain: Option<seq<string>>, mode: string): string {
    var hops := if hopChain.Some? && hopChain.value != [] then [Attribute("hop-chain", Join(hopChain.value, ','))] else [];
    var attrs := [Attribute("from", uri)] + hops + [Attribute("from-name", name), Attribute("from-mode", mode)];
    OPEN + (" " + (Join(attrs, ' ') + (">\n" + (Escape(body) + BODY_END))))
  }

  function ParseWrapper(content: string): Option<Fields> {
    match ParseRaw(content)
    case None => None
    case Some((values, body)) =>
      var hop := values[2];
      Some(Fields(values[0], values[3], values[4],
                  if hop.Some? && hop.value != "" then Some(Split(hop.value, ',')) else None,
                  Unescape(body)))
  }

  /** The header values the printer writes. */
  function HeaderValues(uri: string, name: string, hopChain: Option<seq<string>>, mode: string): seq<Option<string>> {
    [Some(uri), None, if hopChain.Some? && hopChain.value != [] then Some(Join(hopChain.value, ',')) else None,
     Some(name), Some(mode)]
  }

  /** One attribute of a space-joined list, seen as the grammar prints it. */
  lemma JoinedAttribute(name: string, value: string, more: string)
    ensures " " + (Attribute(name, value) + more) == Key(name) + (value + ("\"" + more))
  {
    Assoc(name, "=\"" + (value + "\""), more);
    Assoc("=\"", value + "\"", more);
    Assoc(value, "\"", more);
    Assoc(" ", name + "=\"", value + ("\"" + more));
    Assoc(name, "=\"", value + ("\"" + more));
  }

  lemma {:induction false} JoinedCons(first: string, rest: seq<string>, tail: string)
    requires rest != []
    ensures Join([first] + rest, ' ') + tail == first + (" " + (Join(rest, ' ') + tail))
  {
    assert ([first] + rest)[1..] == rest;
    Assoc(first, " " + Join(rest, ' '), tail);
    Assoc(" ", Join(rest, ' '), tail);
  }

  /** The last two attributes, then `tail`. */
  lemma JoinedNameMode(values: seq<Option<string>>, tail: string)
    requires |values| == ATTRIBUTES && values[3].Some? && values[4].Some?
    ensures " " + (Join([Attribute("from-name", values[3].value), Attribute("from-mode", values[4].value)], ' ') + tail)
            == Print(3, values, tail)
  {
    var n, m := Attribute("from-name", values[3].value), Attribute("from-mode", values[4].value);
    JoinedCons(n, [m], tail);
    assert [n] + [m] == [n, m];
    JoinedAttribute("from-name", values[3].value, " " + (m + tail));
    JoinedAttribute("from-mode", values[4].value, tail);
    assert Print(4, values, tail) == Key("from-mode") + (values[4].value + ("\"" + Print(5, values, tail)));
  }

  /** The joined attribute list is the grammar's header. */
  lemma JoinedHeader(uri: string, name: string, hopChain: Option<seq<string>>, mode: string, tail: string)
    ensures var hops := if hopChain.Some? && hopChain.value != [] then [Attribute("hop-chain", Join(hopChain.value, ','))] else [];
            var attrs := [Attribute("from", uri)] + hops + [Attribute("from-name", name), Attribute("from-mode", mode)];
            " " + (Join(attrs, ' ') + tail) == Print(0, HeaderValues(uri, name, hopChain, mode), tail)
  {
    var v := HeaderValues(uri, name, hopChain, mode);
    var a, nm := Attribute("from", uri), [Attribute("from-name", name), Attribute("from-mode", mode)];
    JoinedNameMode(v, tail);
    assert Print(1, v, tail) == Print(2, v, tail);
    if v[2].Some? {
      var hop := Attribute("hop-chain", v[2].value);
      assert [a] + [hop] + nm == [a] + ([hop] + nm);
      JoinedCons(a, [hop] + nm, tail);
      JoinedCons(hop, nm, tail);
      JoinedAttribute("hop-chain", v[2].value, Print(3, v, tail));
      JoinedAttribute("from", uri, Print(2, v, tail));
    } else {
      assert [a] + [] + nm == [a] + nm;
      assert Print(2, v, tail) == Print(3, v, tail);
      JoinedCons(a, nm, tail);
      JoinedAttribute("from", uri, Print(3, v, tail));
    }
  }

  lemma HeaderText(uri: string, name: string, mode: string, tail: string)
    ensures OPEN + Print(0, HeaderValues(uri, name, None, mode), tail)
            == "<cross-session-message from=\"" + (uri + ("\" from-name=\"" + (name + ("\" from-mode=\"" + (mode + ("\"" + tail))))))
  {
    var v := HeaderValues(uri, name, None, mode);
    var p4, p3 := Print(4, v, tail), Print(3, v, tail);
    assert p4 == Key("from-mode") + (mode + ("\"" + tail));
    assert p3 == Key("from-name") + (name + ("\"" + p4));
    assert Print(1, v, tail) == Print(2, v, tail) == p3;
    assert Print(0, v, tail) == Key("from") + (uri + ("\"" + p3));
    Assoc("\"", Key("from-mode"), mode + ("\"" + tail));
    Assoc("\"", Key("from-name"), name + ("\"" + p4));
    Assoc(OPEN, Key("from"), uri + ("\"" + p3));
    FromText();
    NameText();
    ModeText();
  }

  lemma FromText()
    ensures OPEN + Key("from") == "<cross-session-message from=\""
  {
    var text, open := "<cross-session-message from=\"", OPEN;
    assert open == "<cross-session-message";
    assert Key("from") == " from=\"";
    assert |open + Key("from")| == |text|;
  }

  lemma NameText()
    ensures "\"" + Key("from-name") == "\" from-name=\""
  {
    assert Key("from-name") == " from-name=\"";
  }

  lemma ModeText()
    ensures "\"" + Key("from-mode") == "\" from-mode=\""
  {
    assert Key("from-mode") == " from-mode=\"";
  }

  /** The text sent for a body without a tag, character for character. */
  lemma SpelledOut(uri: string, name: string, body: string, mode: string)
    requires '<' !in body
    ensures BuildWrapper(uri, name, body, None, mode)
            == "<cross-session-message from=\"" + (uri + ("\" from-name=\"" + (name + ("\" from-mode=\"" + (mode + ("\""
               + (">\n" + (body + ("\n" + ("<" + ("/" + "cross-session-message" + ">")))))))))))
  {
    hide Print;
    hide Attribute;
    var tail := ">\n" + (Escape(body) + BODY_END);
    JoinedHeader(uri, name, None, mode, tail);
    HeaderText(uri, name, mode, tail);
    PlainBody(body);
  }

  lemma PlainBody(body: string)
    requires '<' !in body
    ensures Escape(body) == body
  {
    EscapeIsMark(body);
    MarkKeepsPlain(body, {CLOSE_TAIL, OPEN_TAIL}, body);
    assert body[|body|..] == "" && body + "" == body;
  }

  /** Printing and parsing give back every field: the URI, name, mode and chain as
      they were, and the body as unescaping leaves it. A chain that is empty, or is
      one empty token, comes back as no chain. */
  lemma WrapperRoundTrip(uri: string, name: string, body: string, hopChain: Option<seq<string>>, mode: string)
    requires '"' !in uri && '"' !in name && '"' !in mode
    requires hopChain.Some? ==> forall t :: t in hopChain.value ==> '"' !in t && ',' !in t
    ensures ParseWrapper(BuildWrapper(uri, name, body, hopChain, mode))
            == Some(Fields(Some(uri), Some(name), Some(mode),
                           if hopChain == Some([]) || hopChain == Some([""]) then None else hopChain,
                           Unescape(body)))
  {
    var v := HeaderValues(uri, name, hopChain, mode);
    if hopChain.Some? {
      JoinAvoids(hopChain.value, ',', '"');
      JoinEmpty(hopChain.value, ',');
      if hopChain.value != [] {
        SplitJoin(hopChain.value, ',');
      }
    }
    assert Quotable(v);
    JoinedHeader(uri, name, hopChain, mode, ">\n" + (Escape(body) + BODY_END));
    assert BODY_END + "" == BODY_END;
    GrammarParses(v, Escape(body), "");
    UnescapeEscape(body);
  }
}
