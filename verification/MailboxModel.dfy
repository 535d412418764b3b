/** The durable store as a value: the two tables and the meaning of each statement
    run against them. */
module MailboxModel {
  import opened Prelude
  import opened Envelopes

  /** Table `messages` by primary key, table `acks` as its set of rows. */
  datatype Store = Store(messages: map<string, Envelope>, acks: set<(string, string)>)

  const EMPTY := Store(map[], {})

  ghost predicate Keyed(s: Store) {
    forall id :: id in s.messages ==> s.messages[id].msgId == id && Valid(s.messages[id])
  }

  ghost function Rows(s: Store): set<Envelope> {
    set id | id in s.messages :: s.messages[id]
  }

  ghost function ProjectRows(s: Store, project: string): set<Envelope> {
    set e | e in Rows(s) && e.project == project
  }

  /** The rows of the same project that sort after `e`. */
  ghost function Above(rows: set<Envelope>, e: Envelope): set<Envelope> {
    set x | x in rows && x.project == e.project && Older(e, x)
  }

  /** The rows a cap of `max` per project keeps. */
  ghost function Newest(rows: set<Envelope>, max: nat): set<Envelope> {
    set e | e in rows && |Above(rows, e)| < max
  }

  ghost function OverCap(s: Store, project: string, max: nat): set<string> {
    set id | id in s.messages && s.messages[id].project == project
             && |Above(Rows(s), s.messages[id])| >= max
  }

  ghost function Delete(s: Store, ids: set<string>): Store {
    Store(s.messages - ids, set a | a in s.acks && a.0 !in ids)
  }

  /** INSERT OR IGNORE. */
  ghost function Insert(s: Store, e: Envelope): Store {
    if e.msgId in s.messages then s else s.(messages := s.messages[e.msgId := e])
  }

  ghost function PutVictims(s: Store, e: Envelope, max: nat): set<string> {
    if Valid(e) then OverCap(Insert(s, e), e.project, max) else {}
  }

  /** A refused envelope changes nothing; otherwise insert, then evict. */
  ghost function Put(s: Store, e: Envelope, max: nat): Store {
    if Valid(e) then Delete(Insert(s, e), PutVictims(s, e, max)) else s
  }

  ghost function Expired(s: Store, now: int): set<string> {
    set id | id in s.messages && ExpiresAt(s.messages[id]) <= now
  }

  ghost function Sweep(s: Store, now: int): Store {
    Delete(s, Expired(s, now))
  }

  ghost function Ack(s: Store, id: string, host: string): Store {
    s.(acks := s.acks + {(id, host)})
  }

  /** Whether an envelope is addressed to a host that announced `projects`. */
  predicate Addressed(e: Envelope, host: string, projects: set<string>) {
    match e.target
    case ToHost(h, _) => h == host
    case ToProject(_) => e.originHost != host && e.project in projects
  }

  ghost function Pending(s: Store, host: string, projects: set<string>, now: int): set<Envelope> {
    set e | e in Rows(s) && ExpiresAt(e) > now && (e.msgId, host) !in s.acks
            && Addressed(e, host, projects)
  }

  /** `l` is the result of ordering `rows` by creation time and id, ascending. */
  ghost predicate Listing(l: seq<Envelope>, rows: set<Envelope>) {
    Members(l) == rows && forall i, j :: 0 <= i < j < |l| ==> Older(l[i], l[j])
  }

  // ---- operations as data, for statements about runs ----

  datatype Operation =
    | PutOp(env: Envelope)
    | SweepOp(now: int)
    | AckOp(id: string, host: string)

  ghost function Apply(s: Store, op: Operation, max: nat): Store {
    match op
    case PutOp(e) => Put(s, e, max)
    case SweepOp(now) => Sweep(s, now)
    case AckOp(id, host) => Ack(s, id, host)
  }

  ghost function Run(s: Store, ops: seq<Operation>, max: nat): Store {
    if ops == [] then s
    else Apply(Run(s, ops[..|ops| - 1], max), ops[|ops| - 1], max)
  }

  /** The ids whose rows an operation deletes. A put can delete what it inserted. */
  ghost function Deleted(s: Store, op: Operation, max: nat): set<string> {
    match op
    case PutOp(e) => PutVictims(s, e, max)
    case SweepOp(now) => Expired(s, now)
    case AckOp(_, _) => {}
  }
}
