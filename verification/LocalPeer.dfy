/** Incoming local connections: bytes gather up to a limit, then every line is a frame. */
module LocalPeers {
  import opened Prelude
  import opened Text
  import opened Wrapper

  type byte = b: int | 0 <= b < 256
  type Bytes = seq<byte>

  const LIMIT := 1_048_576
  const NEWLINE: byte := 10

  datatype Json =
    | Null
    | Bool(truth: bool)
    | Number(literal: string)
    | Str(text: string)
    | List(items: seq<Json>)
    | Object(members: map<string, Json>)

  /** json.loads, with None for ValueError, and json.dumps. */
  datatype Codec = Codec(decode: Bytes -> Option<Json>, encode: Json -> Bytes)

  /** The bytes that bytes.strip() removes. */
  predicate IsBlank(line: Bytes) {
    forall b :: b in line ==> 9 <= b <= 13 || b == 32
  }

  /** A value is written on one line and read back; the encoder escapes control characters. */
  ghost predicate Carries(json: Codec, value: Json) {
    var line := json.encode(value);
    json.decode(line) == Some(value) && NEWLINE !in line && !IsBlank(line)
  }

  function Get(value: Json, key: string, default: Json): Json
    requires value.Object?
  {
    if key in value.members then value.members[key] else default
  }

  // ---- what the bytes of a whole connection mean ----

  function NonBlank(lines: seq<Bytes>): seq<Bytes> {
    if lines == [] then []
    else (if IsBlank(lines[0]) then [] else [lines[0]]) + NonBlank(lines[1..])
  }

  function Lines(buf: Bytes): seq<Bytes> {
    NonBlank(Split(buf, NEWLINE))
  }

  predicate IsAscii(s: string) {
    forall c :: c in s ==> c < '\U{80}'
  }

  datatype Auth = Granted | Refused | Raised

  /** The first line must be the receiver's own token; the constant-time comparison
      raises on text that is not ASCII. */
  function CheckAuth(line: Bytes, token: string, json: Codec): Auth {
    match json.decode(line)
    case Some(Object(members)) =>
      var auth := Object(members);
      var given := Get(auth, "token", Null);
      if Get(auth, "type", Null) != Str("auth") || !given.Str? then Refused
      else if !IsAscii(given.text) || !IsAscii(token) then Raised
      else if given.text == token then Granted
      else Refused
    case _ => Refused
  }

  datatype Message = Message(fields: Fields, rawFrom: Json)

  datatype Turn = Call(message: Message) | Skip | Crash

  /** One line after the first: a callback, nothing, or an attribute looked up on a value
      that is not an object. */
  function Interpret(line: Bytes, json: Codec): Turn {
    match json.decode(line)
    case None => Skip
    case Some(value) =>
      if !value.Object? then Crash
      else if Get(value, "type", Null) != Str("user") then Skip
      else
        var message := Get(value, "message", Object(map[]));
        if !message.Object? then Crash
        else
          var content := Get(message, "content", Str(""));
          if !content.Str? then Crash
          else
            match ParseWrapper(content.text)
            case None => Skip
            case Some(fields) => Call(Message(fields, Get(value, "from", Null)))
  }

  datatype Outcome = Outcome(calls: seq<Message>, crashed: bool)

  const NOTHING := Outcome([], false)

  function Dispatch(lines: seq<Bytes>, json: Codec): Outcome {
    if lines == [] then NOTHING
    else
      match Interpret(lines[0], json)
      case Crash => Outcome([], true)
      case Skip => Dispatch(lines[1..], json)
      case Call(m) =>
        var rest := Dispatch(lines[1..], json);
        Outcome([m] + rest.calls, rest.crashed)
  }

  function Meaning(buf: Bytes, token: string, json: Codec): Outcome {
    var lines := Lines(buf);
    if lines == [] then NOTHING
    else
      match CheckAuth(lines[0], token, json)
      case Refused => NOTHING
      case Raised => Outcome([], true)
      case Granted => Dispatch(lines[1..], json)
  }

  function Concat(chunks: seq<Bytes>): Bytes {
    if chunks == [] then [] else chunks[0] + Concat(chunks[1..])
  }

  lemma {:induction false} ConcatTake(chunks: seq<Bytes>, k: nat)
    requires k < |chunks|
    ensures Concat(chunks[..k + 1]) == Concat(chunks[..k]) + chunks[k]
    ensures |Concat(chunks[..k + 1])| <= |Concat(chunks)|
  {
    if k == 0 {
      assert chunks[..1] == [chunks[0]] && chunks[..1][1..] == [];
    } else {
      ConcatTake(chunks[1..], k - 1);
      assert chunks[..k + 1][1..] == chunks[1..][..k] && chunks[..k][1..] == chunks[1..][..k - 1];
    }
  }

  // ---- the handler ----

  /** How reading stops once the chunks are used up. */
  datatype End = Eof | TimedOut | Failed

  /** The read loop gathers exactly the concatenation; it gives up on a stall, on an error
      and as soon as the bytes exceed the limit, having read no chunk past that one. */
  method Receive(chunks: seq<Bytes>, end: End) returns (buf: Option<Bytes>, taken: nat)
    requires forall c :: c in chunks ==> c != []
    ensures buf == if end == Eof && |Concat(chunks)| <= LIMIT then Some(Concat(chunks)) else None
    ensures taken <= |chunks| && (taken > 0 ==> |Concat(chunks[..taken - 1])| <= LIMIT)
  {
    var got: Bytes := [];
    taken := 0;
    while taken < |chunks|
      invariant taken <= |chunks| && got == Concat(chunks[..taken]) && |got| <= LIMIT
      invariant taken > 0 ==> |Concat(chunks[..taken - 1])| <= LIMIT
    {
      ConcatTake(chunks, taken);
      assert chunks[..taken + 1][..taken] == chunks[..taken];
      got := got + chunks[taken];
      taken := taken + 1;
      if |got| > LIMIT {
        return None, taken;
      }
    }
    assert chunks[..taken] == chunks;
    if end != Eof {
      return None, taken;
    }
    buf := Some(got);
  }

  /** Whatever the chunks, the handler acts on their concatenation alone. */
  method Handle(chunks: seq<Bytes>, end: End, token: string, json: Codec) returns (outcome: Outcome)
    requires forall c :: c in chunks ==> c != []
    ensures outcome == if end == Eof && |Concat(chunks)| <= LIMIT then Meaning(Concat(chunks), token, json) else NOTHING
  {
    hide Interpret;
    hide CheckAuth;
    hide Lines;
    var received, _ := Receive(chunks, end);
    if received.None? {
      return NOTHING;
    }
    var lines := Lines(received.value);
    if lines == [] {
      return NOTHING;
    }
    match CheckAuth(lines[0], token, json) {
      case Refused => return NOTHING;
      case Raised => return Outcome([], true);
      case Granted =>
    }
    outcome := NOTHING;
    var i := 1;
    while i < |lines|
      invariant 1 <= i <= |lines| && !outcome.crashed
      invariant Dispatch(lines[1..], json)
                == Outcome(outcome.calls + Dispatch(lines[i..], json).calls, Dispatch(lines[i..], json).crashed)
    {
      assert lines[i..][1..] == lines[i + 1..];
      match Interpret(lines[i], json) {
        case Skip =>
        case Crash => return Outcome(outcome.calls, true);
        case Call(m) => outcome := outcome.(calls := outcome.calls + [m]);
      }
      i := i + 1;
    }
  }

  // ---- laws ----

  /** Lines are handled in order, and none after the first that crashes. */
  lemma {:induction false} DispatchAppend(a: seq<Bytes>, b: seq<Bytes>, json: Codec)
    ensures var first := Dispatch(a, json);
            Dispatch(a + b, json) == if first.crashed then first
                                     else Outcome(first.calls + Dispatch(b, json).calls, Dispatch(b, json).crashed)
  {
    hide Interpret;
    if a == [] {
      assert a + b == b;
    } else {
      assert (a + b)[0] == a[0] && (a + b)[1..] == a[1..] + b;
      DispatchAppend(a[1..], b, json);
      match Interpret(a[0], json) {
        case Call(m) =>
          var first, second := Dispatch(a[1..], json).calls, Dispatch(b, json).calls;
          assert [m] + (first + second) == [m] + first + second;
        case _ =>
      }
    }
  }

  /** What one line after the first does, by the shape of its JSON: a line that cannot be
      decoded and an object that is no user message are passed over, a value that is no
      object crashes, and so does a user message whose message is no object or whose
      content is no text; content that is a wrapper is called back with the sender's
      own `from`, and other content is passed over. */
  lemma OneLine(line: Bytes, json: Codec)
    ensures json.decode(line) == None ==> Dispatch([line], json) == NOTHING
    ensures json.decode(line).Some? && !json.decode(line).value.Object? ==> Dispatch([line], json) == Outcome([], true)
    ensures forall m: map<string, Json> :: json.decode(line) == Some(Object(m)) ==>
              if "type" !in m || m["type"] != Str("user") then Dispatch([line], json) == NOTHING
              else if "message" !in m then Dispatch([line], json) == NOTHING
              else if !m["message"].Object? then Dispatch([line], json) == Outcome([], true)
              else
                var inner := m["message"].members;
                if "content" !in inner then Dispatch([line], json) == NOTHING
                else if !inner["content"].Str? then Dispatch([line], json) == Outcome([], true)
                else
                  var fields := ParseWrapper(inner["content"].text);
                  Dispatch([line], json)
                  == if fields.None? then NOTHING
                     else Outcome([Message(fields.value, if "from" in m then m["from"] else Null)], false)
  {
    hide ParseRaw;
    EmptyIsNoWrapper();
    assert [line][1..] == [] && Dispatch([line][1..], json) == NOTHING;
  }

  lemma EmptyIsNoWrapper()
    ensures ParseWrapper("") == None
  {
    assert !(Wire.OPEN <= "");
  }

  /** Blank lines carry no meaning, wherever they stand. */
  lemma {:induction false} BlankLineIgnored(before: seq<Bytes>, blank: Bytes, rest: seq<Bytes>)
    requires IsBlank(blank)
    ensures NonBlank(before + [blank] + rest) == NonBlank(before + rest)
  {
    if before == [] {
      assert before + [blank] + rest == [blank] + rest && before + rest == rest;
      assert ([blank] + rest)[1..] == rest;
    } else {
      BlankLineIgnored(before[1..], blank, rest);
      assert (before + [blank] + rest)[1..] == before[1..] + [blank] + rest;
      assert (before + rest)[1..] == before[1..] + rest;
    }
  }

  /** The line is an auth object with the token `t`. */
  predicate Presents(line: Bytes, t: string, json: Codec) {
    var auth := json.decode(line);
    && auth.Some? && auth.value.Object?
    && "type" in auth.value.members && auth.value.members["type"] == Str("auth")
    && "token" in auth.value.members && auth.value.members["token"] == Str(t)
  }

  /** What the first line is taken for: the receiver's own token in an auth object lets the
      rest be heard; a token that is not ASCII, given or held, raises; anything else is
      refused. */
  lemma AuthExactly(line: Bytes, token: string, json: Codec)
    ensures CheckAuth(line, token, json) == Granted <==> Presents(line, token, json) && IsAscii(token)
    ensures CheckAuth(line, token, json) == Raised
            <==> exists t :: Presents(line, t, json) && !(IsAscii(t) && IsAscii(token))
  {
    var auth := json.decode(line);
    if auth.Some? && auth.value.Object? && "token" in auth.value.members && auth.value.members["token"].Str? {
      var t := auth.value.members["token"].text;
      assert Presents(line, t, json) <==> "type" in auth.value.members && auth.value.members["type"] == Str("auth");
    }
  }

  /** A connection causes callbacks only after presenting the receiver's token, in its
      first line that is not blank. */
  lemma CallsNeedTheToken(buf: Bytes, token: string, json: Codec)
    requires Meaning(buf, token, json).calls != []
    ensures Lines(buf) != []
    ensures var auth := json.decode(Lines(buf)[0]);
            && auth.Some? && auth.value.Object?
            && Get(auth.value, "type", Null) == Str("auth") && Get(auth.value, "token", Null) == Str(token)
  {
    hide Dispatch;
  }

  // ---- what a sending peer writes ----

  function AuthFrame(token: string): Json {
    Object(map["type" := Str("auth"), "token" := Str(token)])
  }

  function ContentFrame(uri: string, content: string, id: string): Json {
    Object(map["msgV" := Number("1"), "msg_id" := Str(id), "type" := Str("user"),
               "message" := Object(map["role" := Str("user"), "content" := Str(content)]),
               "priority" := Str("next"), "from" := Str(uri)])
  }

  function UserFrame(uri: string, name: string, body: string, id: string, hopChain: Option<seq<string>>): Json {
    ContentFrame(uri, BuildWrapper(uri, name, body, hopChain, "prompting"), id)
  }

  function EncodeFrames(token: string, message: Json, json: Codec): Bytes {
    json.encode(AuthFrame(token)) + ([NEWLINE] + (json.encode(message) + [NEWLINE]))
  }

  lemma TwoLines(a: Bytes, b: Bytes)
    requires NEWLINE !in a && NEWLINE !in b && !IsBlank(a) && !IsBlank(b)
    ensures Lines(a + ([NEWLINE] + (b + [NEWLINE]))) == [a, b]
  {
    var parts := [a, b, []];
    assert parts[1..] == [b, []] && parts[1..][1..] == [[]];
    assert [NEWLINE] + [] == [NEWLINE];
    assert Join(parts[1..][1..], NEWLINE) == [];
    assert Join(parts[1..], NEWLINE) == b + ([NEWLINE] + []);
    assert Join(parts, NEWLINE) == a + ([NEWLINE] + (b + [NEWLINE]));
    SplitJoin(parts, NEWLINE);
    assert NonBlank(parts[1..][1..]) == [];
    assert NonBlank(parts[1..]) == [b];
  }

  /** Frames mean their user message to the peer whose token they carry, and nothing to another. */
  lemma FramesMean(sent: string, token: string, message: Json, json: Codec)
    requires IsAscii(sent) && IsAscii(token) && Carries(json, AuthFrame(sent)) && Carries(json, message)
    ensures Meaning(EncodeFrames(sent, message, json), token, json)
            == if sent == token then Dispatch([json.encode(message)], json) else NOTHING
  {
    var a, b := json.encode(AuthFrame(sent)), json.encode(message);
    TwoLines(a, b);
    hide Lines;
    var lines: seq<Bytes> := [a, b];
    assert lines[1..] == [b];
    assert CheckAuth(a, token, json) == if sent == token then Granted else Refused;
    hide CheckAuth;
    hide Dispatch;
  }

  lemma ContentRead(json: Codec, uri: string, content: string, id: string)
    requires Carries(json, ContentFrame(uri, content, id))
    ensures var fields := ParseWrapper(content);
            Interpret(json.encode(ContentFrame(uri, content, id)), json)
            == if fields.Some? then Call(Message(fields.value, Str(uri))) else Skip
  {
    hide ParseWrapper;
  }

  lemma UserFrameCalls(json: Codec, uri: string, name: string, body: string, id: string, hopChain: Option<seq<string>>)
    requires '"' !in uri && '"' !in name
    requires hopChain.Some? ==> forall t :: t in hopChain.value ==> '"' !in t && ',' !in t
    requires Carries(json, UserFrame(uri, name, body, id, hopChain))
    ensures Interpret(json.encode(UserFrame(uri, name, body, id, hopChain)), json)
            == Call(Message(Fields(Some(uri), Some(name), Some("prompting"),
                                   if hopChain == Some([]) || hopChain == Some([""]) then None else hopChain,
                                   Wire.Unescape(body)),
                            Str(uri)))
  {
    WrapperRoundTrip(uri, name, body, hopChain, "prompting");
    ContentRead(json, uri, BuildWrapper(uri, name, body, hopChain, "prompting"), id);
    hide *;
  }

  /** A message sent with the receiver's token reaches it as exactly one callback, in
      whatever chunks it arrives, with the fields it was built from; under another
      token it causes nothing. */
  lemma SentIsReceived(chunks: seq<Bytes>, sent: string, token: string, json: Codec,
                       uri: string, name: string, body: string, id: string, hopChain: Option<seq<string>>)
    requires IsAscii(sent) && IsAscii(token)
    requires '"' !in uri && '"' !in name
    requires hopChain.Some? ==> forall t :: t in hopChain.value ==> '"' !in t && ',' !in t
    requires Carries(json, AuthFrame(sent)) && Carries(json, UserFrame(uri, name, body, id, hopChain))
    requires Concat(chunks) == EncodeFrames(sent, UserFrame(uri, name, body, id, hopChain), json)
    ensures Meaning(Concat(chunks), token, json)
            == if sent == token
               then Outcome([Message(Fields(Some(uri), Some(name), Some("prompting"),
                                            if hopChain == Some([]) || hopChain == Some([""]) then None else hopChain,
                                            Wire.Unescape(body)),
                                     Str(uri))], false)
               else NOTHING
  {
    var message := UserFrame(uri, name, body, id, hopChain);
    FramesMean(sent, token, message, json);
    UserFrameCalls(json, uri, name, body, id, hopChain);
    hide Interpret;
    hide Meaning;
    var lines: seq<Bytes> := [json.encode(message)];
    assert lines[1..] == [];
  }
}
