/** Coordination envelopes: the well-formedness check both tiers share and the
    lifetime arithmetic the mailbox rests on. */
module Envelopes {
  import opened Prelude

  datatype Target =
    | ToProject(project: string)
    | ToHost(host: string, project: string)

  datatype Payload = Payload(body: string, hopChain: Option<seq<string>>, fromName: string)

  datatype Envelope = Envelope(
    version: int,
    msgId: string,
    originHost: string,
    project: string,
    target: Target,
    mtype: string,
    ttlS: int,
    createdAt: int,
    origMsgId: Option<string>,
    payload: Payload)

  const KINDS: set<string> := {"review_request", "test_request", "assign_issue", "note", "reply"}

  datatype Fault =
    | UnsupportedVersion
    | EmptyField(name: string)
    | UnknownType
    | BadTtl
    | BadCreatedAt
    | BadTarget
    | ReplyWithoutOrigin

  /** The first check that fails, in the order the checks are made. */
  function Validate(e: Envelope): Option<Fault> {
    if e.version != 1 then Some(UnsupportedVersion)
    else if e.msgId == "" then Some(EmptyField("msg_id"))
    else if e.originHost == "" then Some(EmptyField("origin_host"))
    else if e.project == "" then Some(EmptyField("project"))
    else if e.mtype == "" then Some(EmptyField("type"))
    else if e.mtype !in KINDS then Some(UnknownType)
    else if e.ttlS <= 0 then Some(BadTtl)
    else if e.createdAt <= 0 then Some(BadCreatedAt)
    else if e.target.ToHost? && e.target.host == "" then Some(BadTarget)
    else if e.target.project == "" then Some(BadTarget)
    else if e.mtype == "reply" && (e.origMsgId == None || e.origMsgId == Some("")) then Some(ReplyWithoutOrigin)
    else None
  }

  predicate Valid(e: Envelope) {
    Validate(e).None?
  }

  /** What the checks let through, field by field. */
  lemma ValidExactly(e: Envelope)
    ensures Valid(e) <==>
              && e.version == 1 && e.msgId != "" && e.originHost != "" && e.project != ""
              && (e.mtype == "review_request" || e.mtype == "test_request" || e.mtype == "assign_issue"
                  || e.mtype == "note" || e.mtype == "reply")
              && e.ttlS > 0 && e.createdAt > 0
              && (match e.target
                  case ToProject(project) => project != ""
                  case ToHost(host, project) => host != "" && project != "")
              && (e.mtype == "reply" ==> e.origMsgId.Some? && e.origMsgId.value != "")
  {
    assert e.mtype in KINDS <==>
             e.mtype == "review_request" || e.mtype == "test_request" || e.mtype == "assign_issue"
             || e.mtype == "note" || e.mtype == "reply";
  }

  /** A fault names a field that is at fault. */
  lemma FaultIsReal(e: Envelope)
    ensures match Validate(e)
            case None => true
            case Some(UnsupportedVersion) => e.version != 1
            case Some(EmptyField(name)) =>
              || (name == "msg_id" && e.msgId == "") || (name == "origin_host" && e.originHost == "")
              || (name == "project" && e.project == "") || (name == "type" && e.mtype == "")
            case Some(UnknownType) => e.mtype !in {"review_request", "test_request", "assign_issue", "note", "reply"}
            case Some(BadTtl) => e.ttlS <= 0
            case Some(BadCreatedAt) => e.createdAt <= 0
            case Some(BadTarget) => e.target.project == "" || (e.target.ToHost? && e.target.host == "")
            case Some(ReplyWithoutOrigin) => e.mtype == "reply" && (e.origMsgId == None || e.origMsgId == Some(""))
  {
  }

  /** Creation time is in milliseconds, the lifetime in seconds. */
  function ExpiresAt(e: Envelope): int {
    e.createdAt + e.ttlS * 1000
  }

  // ---- the mailbox order: creation time, then message id ----

  /** Code-point order, which is SQLite's BINARY collation on UTF-8 text. */
  predicate TextLess(a: string, b: string) {
    b != "" && (a == "" || a[0] < b[0] || (a[0] == b[0] && TextLess(a[1..], b[1..])))
  }

  lemma {:induction false} TextIrreflexive(a: string)
    ensures !TextLess(a, a)
  {
    if a != "" {
      TextIrreflexive(a[1..]);
    }
  }

  lemma {:induction false} TextTotal(a: string, b: string)
    ensures a == b || TextLess(a, b) || TextLess(b, a)
    ensures !(TextLess(a, b) && TextLess(b, a))
    decreases |a| + |b|
  {
    if a != "" && b != "" {
      TextTotal(a[1..], b[1..]);
      assert a == [a[0]] + a[1..] && b == [b[0]] + b[1..];
    }
  }

  lemma {:induction false} TextTransitive(a: string, b: string, c: string)
    requires TextLess(a, b) && TextLess(b, c)
    ensures TextLess(a, c)
  {
    if a != "" && a[0] == b[0] == c[0] {
      TextTransitive(a[1..], b[1..], c[1..]);
    }
  }

  predicate Older(a: Envelope, b: Envelope) {
    a.createdAt < b.createdAt || (a.createdAt == b.createdAt && TextLess(a.msgId, b.msgId))
  }

  /** Each message id names one envelope of the set. */
  ghost predicate OneEnvelopePerId(rows: set<Envelope>) {
    forall a, b :: a in rows && b in rows && a.msgId == b.msgId ==> a == b
  }

  /** On rows with distinct ids the mailbox order is a strict total order. */
  lemma OlderTotal(rows: set<Envelope>)
    requires OneEnvelopePerId(rows)
    ensures forall a, b :: a in rows && b in rows ==> a == b || Older(a, b) || Older(b, a)
  {
    forall a, b | a in rows && b in rows
      ensures a == b || Older(a, b) || Older(b, a)
    {
      TextTotal(a.msgId, b.msgId);
    }
  }

  lemma OlderIrreflexive(a: Envelope, b: Envelope)
    ensures !(Older(a, b) && Older(b, a))
    ensures !Older(a, a)
  {
    TextTotal(a.msgId, b.msgId);
    TextIrreflexive(a.msgId);
  }

  lemma OlderTransitive(a: Envelope, b: Envelope, c: Envelope)
    requires Older(a, b) && Older(b, c)
    ensures Older(a, c)
  {
    if a.createdAt == b.createdAt == c.createdAt {
      TextTransitive(a.msgId, b.msgId, c.msgId);
    }
  }
}
