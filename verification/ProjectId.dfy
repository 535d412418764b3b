/** Project ids: one canonical form for the many spellings of a git origin. */
module ProjectId {
  import opened Prelude
  import opened Text

  /** The characters str.strip() removes. */
  predicate IsSpace(c: char) {
    || '\t' <= c <= '\r' || '\U{1C}' <= c <= ' ' || c == '\U{85}' || c == '\U{A0}' || c == '\U{1680}'
    || '\U{2000}' <= c <= '\U{200A}' || c == '\U{2028}' || c == '\U{2029}' || c == '\U{202F}'
    || c == '\U{205F}' || c == '\U{3000}'
  }

  predicate IsSlash(c: char) {
    c == '/'
  }

  function StripLeft(s: string, p: char -> bool): string {
    if s != "" && p(s[0]) then StripLeft(s[1..], p) else s
  }

  function StripRight(s: string, p: char -> bool): string {
    if s != "" && p(s[|s| - 1]) then StripRight(s[..|s| - 1], p) else s
  }

  function Strip(s: string, p: char -> bool): string {
    StripRight(StripLeft(s, p), p)
  }

  const GIT := ".git"

  function DropGit(s: string): string {
    if |s| >= 4 && s[|s| - 4..] == GIT then s[..|s| - 4] else s
  }

  predicate IsLetter(c: char) {
    'a' <= c <= 'z' || 'A' <= c <= 'Z'
  }

  predicate IsSchemeChar(c: char) {
    IsLetter(c) || '0' <= c <= '9' || c == '+' || c == '.' || c == '-'
  }

  /** How many scheme characters the text starts with. */
  function SchemeRun(s: string): nat {
    if s != "" && IsSchemeChar(s[0]) then 1 + SchemeRun(s[1..]) else 0
  }

  lemma {:induction false} SchemeRunBound(s: string)
    ensures SchemeRun(s) <= |s|
    ensures SchemeRun(s) < |s| ==> !IsSchemeChar(s[SchemeRun(s)])
    ensures forall i :: 0 <= i < SchemeRun(s) ==> IsSchemeChar(s[i])
  {
    if s != "" && IsSchemeChar(s[0]) {
      SchemeRunBound(s[1..]);
      assert forall i :: 1 <= i <= SchemeRun(s[1..]) ==> s[i] == s[1..][i - 1];
    }
  }

  /** What follows a leading `scheme://`, if there is one. */
  function DropScheme(s: string): Option<string> {
    SchemeRunBound(s);
    var rest := s[SchemeRun(s)..];
    if s != "" && IsLetter(s[0]) && "://" <= rest then Some(rest[3..]) else None
  }

  /** The host and path of a trimmed remote; `lower` is str.lower. */
  function Read(u: string, lower: string -> string): string {
    match DropScheme(u)
    case Some(v) =>
      var w := if '@' in Before(v, '/') then After(v, '@') else v;
      Id(Before(Before(w, '/'), ':'), After(w, '/'), lower)
    case None =>
      if '@' in u && ':' in Before(u, '/') then
        var w := After(u, '@');
        Id(Before(w, ':'), After(w, ':'), lower)
      else
        Id(Before(Before(u, '/'), ':'), After(u, '/'), lower)
  }

  /** normalize_remote */
  function Normalize(url: string, lower: string -> string): string {
    Read(DropGit(Strip(url, IsSpace)), lower)
  }

  function Id(host: string, path: string, lower: string -> string): string {
    lower(host) + ("/" + Strip(path, IsSlash))
  }

  // ---- spellings ----

  datatype Spelling =
    | Url(scheme: string, user: Option<string>, port: Option<string>)
    | Scp(login: string)
    | Bare

  function WithUser(user: Option<string>, rest: string): string {
    if user.Some? then user.value + ("@" + rest) else rest
  }

  function WithPort(port: Option<string>, rest: string): string {
    if port.Some? then ":" + (port.value + rest) else rest
  }

  /** The spelling of `host` and `path`; `path` may carry the suffix. */
  function Spell(sp: Spelling, host: string, path: string): string {
    match sp
    case Url(scheme, user, port) => scheme + ("://" + WithUser(user, host + WithPort(port, "/" + path)))
    case Scp(login) => login + ("@" + (host + (":" + path)))
    case Bare => host + ("/" + path)
  }

  /** Without the characters that would end the part early. */
  predicate Avoids(s: string, cs: string) {
    forall c :: c in cs ==> c !in s
  }

  predicate Startable(s: string) {
    s == "" || !IsSpace(s[0])
  }

  predicate WellFormedHost(host: string) {
    Avoids(host, "/:@") && Startable(host)
  }

  predicate WellFormedPath(path: string) {
    && (path != "" ==> path[0] != '/' && path[|path| - 1] != '/' && !IsSpace(path[|path| - 1]))
    && DropGit(path) == path
  }

  predicate WellFormedSpelling(sp: Spelling) {
    match sp
    case Url(scheme, user, port) =>
      && scheme != "" && IsLetter(scheme[0]) && (forall c :: c in scheme ==> IsSchemeChar(c))
      && (user.Some? ==> Avoids(user.value, "/@")) && (port.Some? ==> Avoids(port.value, "/@"))
    case Scp(login) => Avoids(login, "/@") && Startable(login)
    case Bare => true
  }

  // ---- stripping ----

  lemma {:induction false} StripLeftPadding(w: string, s: string, p: char -> bool)
    requires (forall c :: c in w ==> p(c)) && (s == "" || !p(s[0]))
    ensures StripLeft(w + s, p) == s
  {
    if w == "" {
      assert w + s == s;
    } else {
      assert w[0] in w && forall c :: c in w[1..] ==> c in w;
      StripLeftPadding(w[1..], s, p);
      assert (w + s)[1..] == w[1..] + s;
    }
  }

  lemma {:induction false} StripRightPadding(s: string, w: string, p: char -> bool)
    requires (forall c :: c in w ==> p(c)) && (s == "" || !p(s[|s| - 1]))
    ensures StripRight(s + w, p) == s
  {
    if w == "" {
      assert s + w == s;
    } else {
      var n := |w| - 1;
      assert w[n] in w && forall c :: c in w[..n] ==> c in w;
      StripRightPadding(s, w[..n], p);
      assert (s + w)[..|s + w| - 1] == s + w[..n];
    }
  }

  lemma StripPadding(pre: string, s: string, post: string, p: char -> bool)
    requires (forall c :: c in pre + post ==> p(c)) && s != "" && !p(s[0]) && !p(s[|s| - 1])
    ensures Strip(pre + (s + post), p) == s
  {
    assert forall c :: c in pre || c in post ==> c in pre + post;
    assert (s + post)[0] == s[0];
    StripLeftPadding(pre, s + post, p);
    StripRightPadding(s, post, p);
  }

  lemma PathStripped(path: string)
    requires WellFormedPath(path)
    ensures Strip(path, IsSlash) == path
  {
  }

  // ---- the suffix ----

  /** A suffix is dropped once; a path without one is left alone, whatever stands
      before its separator. */
  lemma GitDropped(front: string, path: string, git: bool)
    requires front != "" && front[|front| - 1] in "/:" && DropGit(path) == path
    ensures DropGit(front + (path + (if git then GIT else ""))) == front + path
  {
    var s := front + (path + (if git then GIT else ""));
    if git {
      assert s[|s| - 4..] == GIT;
      assert s[..|s| - 4] == front + path;
    } else {
      assert s == front + path;
      if |path| >= 4 {
        assert s[|s| - 4..] == path[|path| - 4..];
      } else if |s| >= 4 {
        assert s[|s| - 4..][3 - |path|] == front[|front| - 1];
      }
    }
  }

  // ---- what a spelling looks like ----

  /** The path comes last, after a separator. */
  lemma SpellEndsInPath(sp: Spelling, host: string, path: string)
    ensures var front := Spell(sp, host, "");
            && Spell(sp, host, path) == front + path
            && front != "" && front[|front| - 1] in "/:"
  {
    match sp {
      case Url(scheme, user, port) =>
        WithPortEnds(port, path);
        var tail := WithPort(port, "/");
        Assoc(host, tail, path);
        WithUserEnds(user, host + tail, path);
        Assoc("://", WithUser(user, host + tail), path);
        Assoc(scheme, "://" + WithUser(user, host + tail), path);
        assert "/" + "" == "/";
      case Scp(login) =>
        Assoc(host, ":", path);
        Assoc("@", host + ":", path);
        Assoc(login, "@" + (host + ":"), path);
        assert ":" + "" == ":";
      case Bare =>
        Assoc(host, "/", path);
        assert "/" + "" == "/";
    }
  }

  lemma WithPortEnds(port: Option<string>, path: string)
    ensures WithPort(port, "/" + path) == WithPort(port, "/") + path
    ensures WithPort(port, "/") != "" && WithPort(port, "/")[|WithPort(port, "/")| - 1] == '/'
  {
    if port.Some? {
      Assoc(port.value, "/", path);
      Assoc(":", port.value + "/", path);
    }
  }

  lemma WithUserEnds(user: Option<string>, rest: string, path: string)
    requires rest != ""
    ensures WithUser(user, rest + path) == WithUser(user, rest) + path
    ensures WithUser(user, rest) != "" && WithUser(user, rest)[|WithUser(user, rest)| - 1] == rest[|rest| - 1]
  {
    if user.Some? {
      Assoc("@", rest, path);
      Assoc(user.value, "@" + rest, path);
    }
  }

  lemma SpellStarts(sp: Spelling, host: string, path: string)
    requires WellFormedHost(host) && WellFormedSpelling(sp)
    ensures Spell(sp, host, path) != "" && !IsSpace(Spell(sp, host, path)[0])
  {
  }

  lemma TrimmedText(front: string, path: string, git: bool, pre: string, post: string)
    requires front != "" && front[|front| - 1] in "/:" && !IsSpace(front[0]) && WellFormedPath(path)
    requires forall c :: c in pre + post ==> IsSpace(c)
    ensures DropGit(Strip(pre + ((front + (path + (if git then GIT else ""))) + post), IsSpace)) == front + path
  {
    var suffix := if git then GIT else "";
    var core := front + (path + suffix);
    assert core[0] == front[0];
    assert !IsSpace(core[|core| - 1]) by {
      if git {
        assert core[|core| - 1] == GIT[3];
      } else if path != "" {
        assert core[|core| - 1] == path[|path| - 1];
      } else {
        assert core[|core| - 1] == front[|front| - 1];
      }
    }
    StripPadding(pre, core, post, IsSpace);
    GitDropped(front, path, git);
  }

  /** Whitespace around a spelling and its suffix are stripped to the bare spelling. */
  lemma Trimmed(sp: Spelling, host: string, path: string, git: bool, pre: string, post: string)
    requires WellFormedHost(host) && WellFormedPath(path) && WellFormedSpelling(sp)
    requires forall c :: c in pre + post ==> IsSpace(c)
    ensures DropGit(Strip(pre + (Spell(sp, host, path + (if git then GIT else "")) + post), IsSpace)) == Spell(sp, host, path)
  {
    SpellEndsInPath(sp, host, path + (if git then GIT else ""));
    SpellEndsInPath(sp, host, path);
    SpellStarts(sp, host, "");
    hide *;
    TrimmedText(Spell(sp, host, ""), path, git, pre, post);
  }

  // ---- the three branches ----

  lemma {:induction false} RunOf(s: string, rest: string)
    requires (forall c :: c in s ==> IsSchemeChar(c)) && (rest == "" || !IsSchemeChar(rest[0]))
    ensures SchemeRun(s + rest) == |s|
  {
    if s == "" {
      assert s + rest == rest;
    } else {
      assert s[0] in s && forall c :: c in s[1..] ==> c in s;
      RunOf(s[1..], rest);
      assert (s + rest)[1..] == s[1..] + rest;
    }
  }

  lemma SchemeFound(scheme: string, rest: string)
    requires scheme != "" && IsLetter(scheme[0]) && forall c :: c in scheme ==> IsSchemeChar(c)
    ensures DropScheme(scheme + ("://" + rest)) == Some(rest)
  {
    RunOf(scheme, "://" + rest);
    Cut(scheme, "://" + rest);
    Cut("://", rest);
  }

  lemma NoScheme(u: string, rest: string)
    requires '/' !in u && rest != "" && (rest[0] == '@' || (rest[0] == '/' && ':' !in u))
    ensures DropScheme(u + rest).None?
  {
    var s := u + rest;
    SchemeRunBound(s);
    var k := SchemeRun(s);
    assert s[|u|] == rest[0];
    assert k <= |u|;
    NotPrefix("://", s[k..], if s[k] == ':' then 1 else 0);
  }

  lemma HostRead(host: string, rest: string)
    requires Avoids(host, "/:@") && rest != "" && (rest[0] == '/' || rest[0] == ':') && '/' in rest
    ensures Before(Before(host + rest, '/'), ':') == host
  {
    assert '/' !in host && ':' !in host;
    BeforeIsPrefix(rest, '/');
    var authority := host + Before(rest, '/');
    var tail := After(rest, '/');
    assert rest == Before(rest, '/') + (['/'] + tail);
    Assoc(host, Before(rest, '/'), ['/'] + tail);
    BeforeFirst(authority, '/', tail);
    if rest[0] == ':' {
      assert Before(rest, '/') == [':'] + Before(rest, '/')[1..];
      BeforeFirst(host, ':', Before(rest, '/')[1..]);
    } else {
      assert authority == host;
      BeforeIsPrefix(host, ':');
    }
  }

  lemma UserSkipped(user: Option<string>, host: string, port: Option<string>, path: string)
    requires WellFormedHost(host) && (user.Some? ==> Avoids(user.value, "/@")) && (port.Some? ==> Avoids(port.value, "/@"))
    ensures var rest := host + WithPort(port, "/" + path);
            var v := WithUser(user, rest);
            (if '@' in Before(v, '/') then After(v, '@') else v) == rest
  {
    var rest := host + WithPort(port, "/" + path);
    PortAvoids(host, port, path);
    if user.Some? {
      var u := user.value;
      assert '/' !in u && '@' !in u;
      AfterFirst(u, '@', rest);
      BeforeFirst(host + WithPort(port, ""), '/', path);
      var front := u + ("@" + (host + WithPort(port, "")));
      PrefixAvoids(u, host + WithPort(port, ""));
      Assoc("@", host + WithPort(port, ""), "/" + path);
      Assoc(u, "@" + (host + WithPort(port, "")), "/" + path);
      BeforeFirst(front, '/', path);
      assert front[|u|] == '@';
    } else {
      BeforeFirst(host + WithPort(port, ""), '/', path);
    }
  }

  lemma PrefixAvoids(u: string, rest: string)
    requires '/' !in u && '/' !in rest
    ensures '/' !in u + ("@" + rest)
  {
  }

  lemma PortAvoids(host: string, port: Option<string>, path: string)
    requires WellFormedHost(host) && (port.Some? ==> Avoids(port.value, "/@"))
    ensures '/' !in host + WithPort(port, "") && '@' !in host + WithPort(port, "")
    ensures host + WithPort(port, "/" + path) == host + WithPort(port, "") + ("/" + path)
  {
    assert '/' !in host && '@' !in host;
    if port.Some? {
      assert '/' !in port.value && '@' !in port.value;
      Assoc(":", port.value, "/" + path);
      assert port.value + "" == port.value;
      Assoc(host, ":" + port.value, "/" + path);
    } else {
      assert host + "" == host;
    }
  }

  // ---- the three branches read the spelling back ----

  lemma UrlRead(scheme: string, user: Option<string>, port: Option<string>, host: string, path: string, lower: string -> string)
    requires WellFormedHost(host) && WellFormedSpelling(Url(scheme, user, port))
    ensures Read(Spell(Url(scheme, user, port), host, path), lower) == Id(host, path, lower)
  {
    var rest := host + WithPort(port, "/" + path);
    var v := WithUser(user, rest);
    SchemeFound(scheme, v);
    UserSkipped(user, host, port, path);
    PortAvoids(host, port, path);
    AfterFirst(host + WithPort(port, ""), '/', path);
    var tail := WithPort(port, "/" + path);
    assert '/' in tail by {
      WithPortEnds(port, path);
      var w := WithPort(port, "/");
      assert tail[|w| - 1] == '/';
    }
    HostRead(host, tail);
  }

  lemma ScpRead(login: string, host: string, path: string, lower: string -> string)
    requires WellFormedHost(host) && WellFormedSpelling(Scp(login))
    ensures Read(Spell(Scp(login), host, path), lower) == Id(host, path, lower)
  {
    var u := Spell(Scp(login), host, path);
    assert '/' !in login && '@' !in login && '/' !in host && ':' !in host;
    NoScheme(login, "@" + (host + (":" + path)));
    ScpColon(login, host, path);
    AfterFirst(login, '@', host + (":" + path));
    BeforeFirst(host, ':', path);
    AfterFirst(host, ':', path);
  }

  lemma ScpColon(login: string, host: string, path: string)
    requires '/' !in login && '/' !in host
    ensures ':' in Before(login + ("@" + (host + (":" + path))), '/')
  {
    var u, k := login + ("@" + (host + (":" + path))), |login| + 1 + |host|;
    assert u[k] == ':';
    forall i | 0 <= i <= k
      ensures u[i] != '/'
    {
      if i < |login| {
        assert u[i] == login[i];
      } else if |login| < i < k {
        assert u[i] == host[i - |login| - 1];
      }
    }
    BeforeReaches(u, '/', k);
  }

  lemma BareRead(host: string, path: string, lower: string -> string)
    requires WellFormedHost(host)
    ensures Read(Spell(Bare, host, path), lower) == Id(host, path, lower)
  {
    assert '/' !in host && ':' !in host;
    NoScheme(host, "/" + path);
    BeforeFirst(host, '/', path);
    AfterFirst(host, '/', path);
    BeforeIsPrefix(host, ':');
  }

  /** A text none of whose first k + 1 characters is `sep` keeps them before the first one. */
  lemma BeforeReaches(u: string, sep: char, k: nat)
    requires k < |u| && forall i :: 0 <= i <= k ==> u[i] != sep
    ensures u[k] in Before(u, sep)
  {
    BeforeIsPrefix(u, sep);
    var n := |Before(u, sep)|;
    assert Before(u, sep)[k] == u[k];
  }

  // ---- one form per repository ----

  /** Every well-formed spelling of a host and path, with or without the suffix and with
      whitespace around it, normalises to the same id. */
  lemma Canonical(sp: Spelling, host: string, path: string, git: bool, pre: string, post: string, lower: string -> string)
    requires WellFormedHost(host) && WellFormedPath(path) && WellFormedSpelling(sp)
    requires forall c :: c in pre + post ==> IsSpace(c)
    ensures Normalize(pre + (Spell(sp, host, path + (if git then ".git" else "")) + post), lower) == lower(host) + ("/" + path)
  {
    Trimmed(sp, host, path, git, pre, post);
    AnyRead(sp, host, path, lower);
    PathStripped(path);
  }

  lemma AnyRead(sp: Spelling, host: string, path: string, lower: string -> string)
    requires WellFormedHost(host) && WellFormedSpelling(sp)
    ensures Read(Spell(sp, host, path), lower) == Id(host, path, lower)
  {
    match sp {
      case Url(scheme, user, port) => UrlRead(scheme, user, port, host, path, lower);
      case Scp(login) => ScpRead(login, host, path, lower);
      case Bare => BareRead(host, path, lower);
    }
  }

  predicate AllSlashes(s: string) {
    forall c :: c in s ==> c == '/'
  }

  /** Slashes around the path change nothing either. */
  lemma OuterSlashesDropped(sp: Spelling, host: string, path: string, lead: string, trail: string, lower: string -> string)
    requires WellFormedHost(host) && WellFormedPath(path) && path != "" && WellFormedSpelling(sp)
    requires AllSlashes(lead) && AllSlashes(trail)
    ensures Normalize(Spell(sp, host, lead + (path + trail)), lower) == lower(host) + ("/" + path)
  {
    hide Read;
    hide Spell;
    hide Strip;
    hide DropGit;
    var slashed, front := lead + (path + trail), Spell(sp, host, "");
    SpellEndsInPath(sp, host, slashed);
    SpellStarts(sp, host, "");
    assert front[0] == (front + slashed)[0];
    SlashedText(front, path, lead, trail);
    AnyRead(sp, host, slashed, lower);
    assert forall c :: c in lead + trail ==> IsSlash(c);
    StripPadding(lead, path, trail, IsSlash);
  }

  lemma SlashedText(front: string, path: string, lead: string, trail: string)
    requires front != "" && front[|front| - 1] in "/:" && !IsSpace(front[0]) && WellFormedPath(path) && path != ""
    requires AllSlashes(lead) && AllSlashes(trail)
    ensures var s := front + (lead + (path + trail)); DropGit(Strip(s, IsSpace)) == s
  {
    var s := front + (lead + (path + trail));
    assert s[0] == front[0];
    var last := s[|s| - 1];
    if trail == "" {
      Assoc(front, lead, path);
      assert path + trail == path;
      assert lead + path == lead + (path + trail);
      var sep := front + lead;
      assert sep[|sep| - 1] in "/:" by {
        if lead != "" {
          assert sep[|sep| - 1] == lead[|lead| - 1] && lead[|lead| - 1] in lead;
        }
      }
      GitDropped(sep, path, false);
      assert path + "" == path;
      assert last == path[|path| - 1];
    } else {
      assert last == trail[|trail| - 1] && trail[|trail| - 1] in trail;
      assert |s| >= 4 ==> s[|s| - 4..][3] == last;
    }
    assert "" + (s + "") == s;
    StripPadding("", s, "", IsSpace);
  }

  /** Two spellings normalise alike exactly when they spell the same lower-cased host and path. */
  lemma NoCollision(a: Spelling, h1: string, p1: string, git1: bool, b: Spelling, h2: string, p2: string, git2: bool,
                    lower: string -> string)
    requires WellFormedHost(h1) && WellFormedPath(p1) && WellFormedSpelling(a)
    requires WellFormedHost(h2) && WellFormedPath(p2) && WellFormedSpelling(b)
    requires '/' !in lower(h1) && '/' !in lower(h2)
    ensures Normalize(Spell(a, h1, p1 + (if git1 then ".git" else "")), lower)
            == Normalize(Spell(b, h2, p2 + (if git2 then ".git" else "")), lower)
       <==> lower(h1) == lower(h2) && p1 == p2
  {
    var s, t := Spell(a, h1, p1 + (if git1 then GIT else "")), Spell(b, h2, p2 + (if git2 then GIT else ""));
    assert "" + (s + "") == s && "" + (t + "") == t;
    Canonical(a, h1, p1, git1, "", "", lower);
    Canonical(b, h2, p2, git2, "", "", lower);
    BeforeFirst(lower(h1), '/', p1);
    BeforeFirst(lower(h2), '/', p2);
    AfterFirst(lower(h1), '/', p1);
    AfterFirst(lower(h2), '/', p2);
  }

  /** Normalising an id again changes nothing, where lower-casing twice is lower-casing
      once and leaves a host a host. */
  lemma Idempotent(sp: Spelling, host: string, path: string, git: bool, lower: string -> string)
    requires WellFormedHost(host) && WellFormedPath(path) && WellFormedSpelling(sp)
    requires WellFormedHost(lower(host)) && lower(lower(host)) == lower(host)
    ensures var id := Normalize(Spell(sp, host, path + (if git then GIT else "")), lower);
            Normalize(id, lower) == id
  {
    var s, id := Spell(sp, host, path + (if git then GIT else "")), lower(host) + ("/" + path);
    assert "" + (s + "") == s && "" + (id + "") == id && path + "" == path;
    Canonical(sp, host, path, git, "", "", lower);
    Canonical(Bare, lower(host), path, false, "", "", lower);
  }

  /** The padding met in practice is whitespace. */
  lemma AsciiPadding(c: char)
    ensures c in " \t\n\r" ==> IsSpace(c)
    ensures '!' <= c <= '~' ==> !IsSpace(c)
  {
  }
}
