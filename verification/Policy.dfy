/** Pulling policy from the hub (controlplane/controlplane.go): a batch of decisions and its cursor are
    stored together, so over every run the stored verdicts are those of the hub's log at the cursor. */
module Policy {
  import opened Options
  import opened Tables
  import opened Approval
  import opened Legacy
  import opened StoreSpec
  import opened StoreRuns
  import opened Stores

  /** The key of the stored cursor, whether the gate enforces scopes, and whether it takes trusted ranges. */
  datatype Gate = Gate(cursorKey: string, enforcesScopes: bool, takesRanges: bool)

  /** What the hub says; a request that fails in any way, or an answer that cannot be decoded, is Failed. */
  datatype Reply = Failed | Answer(decisions: seq<Decision>, cursor: string, trusted: Option<seq<string>>)

  /** The database, the cursor in memory, and the trusted ranges last handed to the gate. */
  datatype Node = Node(db: DB, cursor: string, trusted: Option<seq<string>>)

  function DecisionFault(x: Decision, enforcesScopes: bool): Option<Error> {
    if DecisionError(x).Some? then DecisionError(x)
    else if x.scope.Some? && !enforcesScopes then Some(UnsupportedScope)
    else None
  }

  function FirstFault(ds: seq<Decision>, enforcesScopes: bool): Option<Error> {
    if ds == [] then None
    else if DecisionFault(ds[0], enforcesScopes).Some? then DecisionFault(ds[0], enforcesScopes)
    else FirstFault(ds[1..], enforcesScopes)
  }

  predicate HandsOver(g: Gate, reply: Reply) {
    reply.Answer? && reply.trusted.Some? && g.takesRanges
  }

  /** Why a pull fails. `rangesOk` is the gate's answer to new trusted ranges; statement number `fault` of
      the transaction fails, if there is one. */
  function PullError(g: Gate, reply: Reply, rangesOk: bool, fault: nat): Option<Error> {
    if reply.Failed? then Some(RequestFailed)
    else if FirstFault(reply.decisions, g.enforcesScopes).Some? then FirstFault(reply.decisions, g.enforcesScopes)
    else if HandsOver(g, reply) && !rangesOk then Some(RangesRefused)
    else if !ApplySucceeds(reply.decisions, g.cursorKey, reply.cursor, fault) then Some(DatabaseFailure)
    else None
  }

  function AfterRanges(g: Gate, trusted: Option<seq<string>>, reply: Reply, rangesOk: bool): Option<seq<string>> {
    if HandsOver(g, reply) && FirstFault(reply.decisions, g.enforcesScopes).None? && rangesOk then reply.trusted
    else trusted
  }

  function AfterPull(g: Gate, n: Node, reply: Reply, rangesOk: bool, now: string, fault: nat): Node {
    var trusted := AfterRanges(g, n.trusted, reply, rangesOk);
    if PullError(g, reply, rangesOk, fault).Some? then n.(trusted := trusted)
    else Node(AfterApply(n.db, reply.decisions, g.cursorKey, reply.cursor, now, fault),
              if reply.cursor != "" then reply.cursor else n.cursor, trusted)
  }

  function Persisted(g: Gate, d: DB): string {
    if g.cursorKey in d.meta then d.meta[g.cursorKey] else ""
  }

  function AfterNew(g: Gate, n: Node): Node {
    n.(cursor := Persisted(g, n.db))
  }

  /** What a pull reports: why it failed, or that the answer's body could not be closed, which undoes
      nothing. */
  function PullReport(g: Gate, reply: Reply, rangesOk: bool, fault: nat, closes: bool): Option<Error> {
    if PullError(g, reply, rangesOk, fault).None? && !closes then Some(CloseFailed)
    else PullError(g, reply, rangesOk, fault)
  }

  /** Builds a syncer, unless its configuration is invalid or the stored cursor cannot be read. */
  method New(gate: Gate, store: Store, trusted: Option<seq<string>>, valid: bool, fault: bool)
      returns (r: Result<PolicySyncer>)
    ensures r == Err(InvalidConfig) <==> !valid
    ensures r == Err(DatabaseFailure) <==> valid && fault
    ensures r.Ok? <==> valid && !fault
    ensures r.Ok? ==> fresh(r.value) && r.value.gate == gate && r.value.store == store
    ensures r.Ok? ==> r.value.State() == AfterNew(gate, Node(store.Contents(), "", trusted))
  {
    if !valid {
      return Err(InvalidConfig);
    }
    if fault {
      return Err(DatabaseFailure);
    }
    var s := new PolicySyncer(gate, store, trusted);
    return Ok(s);
  }

  class PolicySyncer {
    const gate: Gate
    const store: Store
    var cursor: string
    var trusted: Option<seq<string>>

    function State(): Node
      reads this, store
    {
      Node(store.Contents(), cursor, trusted)
    }

    /** Loads the stored cursor. */
    constructor (gate: Gate, store: Store, trusted: Option<seq<string>>)
      ensures this.gate == gate && this.store == store
      ensures State() == AfterNew(gate, Node(store.Contents(), "", trusted))
    {
      this.gate, this.store, this.trusted := gate, store, trusted;
      this.cursor := if gate.cursorKey in store.meta then store.meta[gate.cursorKey] else "";
    }

    /** One pull. `closes` says whether the answer's body can be closed when everything is done. */
    method PullPolicy(reply: Reply, rangesOk: bool, now: string, fault: nat, closes: bool)
      returns (error: Option<Error>)
      modifies this, store
      ensures error == PullReport(gate, reply, rangesOk, fault, closes)
      ensures State() == AfterPull(gate, old(State()), reply, rangesOk, now, fault)
    {
      error := Pull(reply, rangesOk, now, fault);
      if error.None? && !closes {
        error := Some(CloseFailed);
      }
    }

    method Pull(reply: Reply, rangesOk: bool, now: string, fault: nat) returns (error: Option<Error>)
      modifies this, store
      ensures error == PullError(gate, reply, rangesOk, fault)
      ensures State() == AfterPull(gate, old(State()), reply, rangesOk, now, fault)
    {
      if reply.Failed? {
        return Some(RequestFailed);
      }
      var ds := reply.decisions;
      for i := 0 to |ds|
        invariant unchanged(this) && unchanged(store)
        invariant FirstFault(ds, gate.enforcesScopes) == FirstFault(ds[i..], gate.enforcesScopes)
      {
        var e := DecisionError(ds[i]);
        if e.Some? {
          return e;
        }
        if ds[i].scope.Some? && !gate.enforcesScopes {
          return Some(UnsupportedScope);
        }
      }
      if reply.trusted.Some? && gate.takesRanges {
        if !rangesOk {
          return Some(RangesRefused);
        }
        trusted := reply.trusted;
      }
      var applied := store.ApplyDecisions(ds, gate.cursorKey, reply.cursor, now, fault);
      if applied.Err? {
        return Some(DatabaseFailure);
      }
      if reply.cursor != "" {
        cursor := reply.cursor;
      }
      return None;
    }
  }

  // ---------------------------------------------------------------------- verdicts

  datatype Verdict = Verdict(status: Status, labelText: string, scope: Option<Scope>)

  function VerdictOf(row: Row): Verdict {
    Verdict(row.status, row.labelText, row.scope)
  }

  function VerdictsOf(d: DB): map<string, Verdict> {
    map fp | fp in d.rows :: VerdictOf(d.rows[fp])
  }

  /** Decisions over verdicts: each replaces all of its fingerprint's verdict. */
  function Replay(v: map<string, Verdict>, ds: seq<Decision>): map<string, Verdict> {
    if ds == [] then v
    else
      var x := ds[|ds|-1];
      Replay(v, ds[..|ds|-1])[x.fp := Verdict(x.status, x.labelText, x.scope)]
  }

  /** The hub's decision log, and the cursor text for each length of it; "" stands for none of it. */
  datatype Hub = Hub(log: seq<Decision>, marks: seq<string>)

  ghost predicate ValidHub(h: Hub) {
    && |h.marks| == |h.log| + 1 && h.marks[0] == ""
    && forall i, j :: 0 <= i < j < |h.marks| ==> h.marks[i] != h.marks[j]
  }

  /** The fold of the first `k` decisions. */
  function VerdictsAt(h: Hub, k: int): map<string, Verdict>
    requires 0 <= k <= |h.log|
  {
    Replay(map[], h.log[..k])
  }

  /** An answer that carries the reader from position `k` to position `m`. The hub may leave out what a
      later decision replaces, and may leave out a cursor that has not moved. */
  ghost predicate Carries(h: Hub, k: int, m: int, reply: Reply)
    requires ValidHub(h) && 0 <= k <= m <= |h.log| && reply.Answer?
  {
    && Replay(VerdictsAt(h, k), reply.decisions) == VerdictsAt(h, m)
    && (reply.cursor == h.marks[m] || (reply.cursor == "" && k == m))
  }

  ghost predicate Honest(h: Hub, since: string, reply: Reply)
    requires ValidHub(h) && reply.Answer?
  {
    forall k :: 0 <= k <= |h.log| && h.marks[k] == since ==> exists m :: k <= m <= |h.log| && Carries(h, k, m, reply)
  }

  lemma {:induction false} ReplayAppend(v: map<string, Verdict>, a: seq<Decision>, b: seq<Decision>)
    ensures Replay(v, a + b) == Replay(Replay(v, a), b)
  {
    if b == [] {
      assert a + b == a;
    } else {
      assert (a + b)[..|a + b|-1] == a + b[..|b|-1];
      ReplayAppend(v, a, b[..|b|-1]);
    }
  }

  /** The plain answer, the decisions after the cursor up to any later point, is one. */
  lemma LogReplyIsHonest(h: Hub, k: int, m: int, trusted: Option<seq<string>>)
    requires ValidHub(h) && 0 <= k <= m <= |h.log|
    ensures Honest(h, h.marks[k], Answer(h.log[k..m], h.marks[m], trusted))
  {
    assert h.log[..m] == h.log[..k] + h.log[k..m];
    ReplayAppend(map[], h.log[..k], h.log[k..m]);
    assert Carries(h, k, m, Answer(h.log[k..m], h.marks[m], trusted));
  }

  // -------------------------------------------------------------------------- runs

  datatype Event =
    | Pull(reply: Reply, rangesOk: bool, now: string, fault: nat)
    | CrashedPull(reply: Reply, rangesOk: bool, now: string, fault: nat)
    | Restart
    | Local(op: Op)

  predicate Permitted(op: Op) {
    op.Observe? || op.Prune? || op.Reopen? || op.RolledBack?
  }

  /** What an event does, whatever the hub answers and whichever store operation runs locally; a crash loses
      the cursor in memory. */
  ghost predicate NodeMoves(c: Config, g: Gate, n: Node, e: Event, next: Node) {
    match e
    case Pull(reply, rangesOk, now, fault) => next == AfterPull(g, n, reply, rangesOk, now, fault)
    case CrashedPull(reply, rangesOk, now, fault) => next == AfterNew(g, AfterPull(g, n, reply, rangesOk, now, fault))
    case Restart => next == AfterNew(g, n)
    case Local(op) => !op.ApplyDecisions? && Step(c, n.db, op, next.db) && next == n.(db := next.db)
  }

  /** Hub answers are honest unless the node rejects them. */
  ghost predicate HubHonest(g: Gate, h: Hub, n: Node, e: Event)
    requires ValidHub(h)
  {
    match e
    case Pull(reply, rangesOk, _, fault) => PullError(g, reply, rangesOk, fault).None? ==> Honest(h, n.cursor, reply)
    case CrashedPull(reply, rangesOk, _, fault) =>
      PullError(g, reply, rangesOk, fault).None? ==> Honest(h, n.cursor, reply)
    case _ => true
  }

  ghost predicate NodeStep(c: Config, g: Gate, h: Hub, n: Node, e: Event, next: Node)
    requires ValidHub(h)
  {
    NodeMoves(c, g, n, e, next) && HubHonest(g, h, n, e) && (e.Local? ==> Permitted(e.op))
  }

  /** Approved rows are exactly the approved decisions, label and scope included. Without eviction every
      decision has its row, and a row that no decision names has no label and no scope. */
  ghost predicate Follows(rows: map<string, Verdict>, v: map<string, Verdict>, evicting: bool) {
    && (forall fp :: fp in v && (!evicting || v[fp].status == Approved) ==> fp in rows && rows[fp] == v[fp])
    && (forall fp :: fp in rows && rows[fp].status == Approved ==> fp in v && rows[fp] == v[fp])
    && (forall fp :: fp in rows && fp !in v && !evicting ==> rows[fp].labelText == "" && rows[fp].scope == None)
  }

  ghost predicate InSyncAt(h: Hub, g: Gate, n: Node, evicting: bool, k: int)
    requires ValidHub(h) && 0 <= k <= |h.log|
  {
    n.cursor == h.marks[k] && Persisted(g, n.db) == h.marks[k] && Follows(VerdictsOf(n.db), VerdictsAt(h, k), evicting)
  }

  /** The cursor in memory and the stored one name the same point of the log, and the rows follow the
      decisions up to that point. */
  ghost predicate InSync(h: Hub, g: Gate, n: Node, evicting: bool)
    requires ValidHub(h)
  {
    exists k :: 0 <= k <= |h.log| && InSyncAt(h, g, n, evicting, k)
  }

  predicate Evicts(c: Config, e: Event) {
    e.Local? && (e.op.Prune? || (e.op.Observe? && c.maxFingerprints > 0))
  }

  lemma {:induction false} DecidedAllVerdicts(d: DB, ds: seq<Decision>, now: string)
    ensures VerdictsOf(DecidedAll(d, ds, now)) == Replay(VerdictsOf(d), ds) && DecidedAll(d, ds, now).meta == d.meta
  {
    if ds != [] {
      DecidedAllVerdicts(d, ds[..|ds|-1], now);
    }
  }

  lemma {:induction false} FollowsReplay(rows: map<string, Verdict>, v: map<string, Verdict>, ds: seq<Decision>,
                                         evicting: bool)
    requires Follows(rows, v, evicting)
    ensures Follows(Replay(rows, ds), Replay(v, ds), evicting)
  {
    if ds != [] {
      FollowsReplay(rows, v, ds[..|ds|-1], evicting);
    }
  }

  /** A pull that succeeds from point `k` with an honest answer reaches a point `m`, on disk and in memory
      together; one that fails stays at `k`. */
  lemma PullSyncs(g: Gate, h: Hub, n: Node, reply: Reply, rangesOk: bool, now: string, fault: nat, evicting: bool,
                  k: int, m: int)
    requires ValidHub(h) && g.cursorKey != "" && 0 <= k <= m <= |h.log| && InSyncAt(h, g, n, evicting, k)
    requires if PullError(g, reply, rangesOk, fault).None? then Carries(h, k, m, reply) else m == k
    ensures InSyncAt(h, g, AfterPull(g, n, reply, rangesOk, now, fault), evicting, m)
  {
    if PullError(g, reply, rangesOk, fault).None? {
      var r := DecidedAll(n.db, reply.decisions, now);
      DecidedAllVerdicts(n.db, reply.decisions, now);
      FollowsReplay(VerdictsOf(n.db), VerdictsAt(h, k), reply.decisions, evicting);
      var e := AfterPull(g, n, reply, rangesOk, now, fault);
      assert VerdictsOf(e.db) == VerdictsOf(r);
      assert m > 0 ==> h.marks[m] != h.marks[0];
    }
  }

  /** Rows that survive keep their verdicts, only eviction removes rows, never approved ones, and new rows
      carry no decision. */
  ghost predicate KeepsVerdicts(d: DB, e: DB, evicts: bool) {
    && (forall fp :: fp in e.rows && fp in d.rows ==> VerdictOf(e.rows[fp]) == VerdictOf(d.rows[fp]))
    && (forall fp :: fp in d.rows && fp !in e.rows ==> evicts && d.rows[fp].status != Approved)
    && (forall fp :: fp in e.rows && fp !in d.rows ==>
          e.rows[fp].status != Approved && e.rows[fp].labelText == "" && e.rows[fp].scope == None)
  }

  lemma PruneKeepsVerdicts(d: DB, max: int, e: DB)
    requires Pruned(d, max, e)
    ensures KeepsVerdicts(d, e, true)
  {
    PruneFacts(d, max, e);
    assert forall fp :: fp in ApprovedRows(d.rows) ==> fp in ApprovedRows(e.rows);
  }

  lemma RecordKeepsVerdicts(x: Codec, d: DB, obs: Observation, block: bool, now: string)
    ensures KeepsVerdicts(d, Recorded(x, d, obs, block, now), false)
  {
  }

  lemma KeepsVerdictsTwice(d: DB, r: DB, e: DB)
    requires KeepsVerdicts(d, r, false) && KeepsVerdicts(r, e, true) && e.rows.Keys <= r.rows.Keys
    ensures KeepsVerdicts(d, e, true)
  {
  }

  lemma ReopenKeepsVerdicts(c: Config, d: DB, cols: seq<Column>, e: DB)
    requires Step(c, d, Reopen(cols), e)
    ensures KeepsVerdicts(d, e, false)
  {
    OpenKeepsVerdicts(c.codec, d, cols);
  }

  lemma LocalKeepsVerdicts(c: Config, d: DB, op: Op, e: DB)
    requires Permitted(op) && Step(c, d, op, e)
    ensures KeepsVerdicts(d, e, Evicts(c, Local(op)))
  {
    match op
    case Observe(obs, block, now) =>
      if ObserveError(c.codec, d, obs, block, now).None? {
        var r := Recorded(c.codec, d, obs, block, now);
        RecordKeepsVerdicts(c.codec, d, obs, block, now);
        if e != r {
          PruneKeepsVerdicts(r, c.maxFingerprints, e);
          KeepsVerdictsTwice(d, r, e);
        }
      }
    case Prune(max) => PruneKeepsVerdicts(d, max, e);
    case Reopen(cols) => ReopenKeepsVerdicts(c, d, cols, e);
    case RolledBack =>
  }

  lemma LocalKeepsCursor(c: Config, d: DB, op: Op, e: DB, g: Gate)
    requires Permitted(op) && Step(c, d, op, e) && IsCursorKey(g.cursorKey)
    ensures Persisted(g, e) == Persisted(g, d)
  {
    if op.Reopen? {
      OpenKeepsVerdicts(c.codec, d, op.cols);
      assert LEGACY_MARKER[4] != CURSOR_PREFIX[4];
    }
  }

  lemma FollowsLater(d: DB, e: DB, v: map<string, Verdict>, evicts: bool, evicting: bool)
    requires KeepsVerdicts(d, e, evicts) && (evicts ==> evicting) && Follows(VerdictsOf(d), v, evicting)
    ensures Follows(VerdictsOf(e), v, evicting)
  {
    var before, rows := VerdictsOf(d), VerdictsOf(e);
    forall fp | fp in v && (!evicting || v[fp].status == Approved) ensures fp in rows && rows[fp] == v[fp] {
      assert fp in before && before[fp] == v[fp];
    }
    forall fp | fp in rows && rows[fp].status == Approved ensures fp in v && rows[fp] == v[fp] {
      assert fp in d.rows && rows[fp] == before[fp];
    }
  }

  lemma StepKeepsSync(c: Config, g: Gate, h: Hub, n: Node, e: Event, next: Node, evicting: bool)
    requires ValidHub(h) && IsCursorKey(g.cursorKey) && InSync(h, g, n, evicting) && NodeStep(c, g, h, n, e, next)
    requires Evicts(c, e) ==> evicting
    ensures InSync(h, g, next, evicting)
  {
    var k :| 0 <= k <= |h.log| && InSyncAt(h, g, n, evicting, k);
    match e
    case Pull(reply, rangesOk, now, fault) =>
      var m :| k <= m <= |h.log|
               && if PullError(g, reply, rangesOk, fault).None? then Carries(h, k, m, reply) else m == k;
      PullSyncs(g, h, n, reply, rangesOk, now, fault, evicting, k, m);
    case CrashedPull(reply, rangesOk, now, fault) =>
      var m :| k <= m <= |h.log|
               && if PullError(g, reply, rangesOk, fault).None? then Carries(h, k, m, reply) else m == k;
      PullSyncs(g, h, n, reply, rangesOk, now, fault, evicting, k, m);
      assert InSyncAt(h, g, next, evicting, m);
    case Restart =>
      assert InSyncAt(h, g, next, evicting, k);
    case Local(op) =>
      LocalKeepsCursor(c, n.db, op, next.db, g);
      LocalKeepsVerdicts(c, n.db, op, next.db);
      FollowsLater(n.db, next.db, VerdictsAt(h, k), Evicts(c, e), evicting);
      assert InSyncAt(h, g, next, evicting, k);
  }

  ghost predicate IsRun(c: Config, g: Gate, h: Hub, events: seq<Event>, nodes: seq<Node>)
    requires ValidHub(h)
  {
    && |nodes| == |events| + 1
    && forall i :: 0 <= i < |events| ==> NodeStep(c, g, h, nodes[i], events[i], nodes[i+1])
  }

  /** Over every run of pulls that succeed, fail, abort or repeat, crashes, restarts, observations, reopens
      and evictions, with no local verdict edits, the node stays in sync with some point of the log. If
      nothing can evict, every decision up to that point is in force, not only the approvals. */
  lemma {:induction false} RunsStayInSync(c: Config, g: Gate, h: Hub, events: seq<Event>, nodes: seq<Node>,
                                          evicting: bool, n: nat)
    requires ValidHub(h) && IsCursorKey(g.cursorKey) && IsRun(c, g, h, events, nodes) && n < |nodes|
    requires InSync(h, g, nodes[0], evicting)
    requires forall i :: 0 <= i < n && Evicts(c, events[i]) ==> evicting
    ensures InSync(h, g, nodes[n], evicting)
  {
    if n > 0 {
      RunsStayInSync(c, g, h, events, nodes, evicting, n - 1);
      StepKeepsSync(c, g, h, nodes[n-1], events[n-1], nodes[n], evicting);
    }
  }

  // ------------------------------------------------------------- refused policies

  /** A batch is refused if and only if one of its decisions is invalid or restricts an approval on a gate
      that does not enforce restrictions. */
  lemma {:induction false} FirstFaultFinds(ds: seq<Decision>, enforcesScopes: bool)
    ensures FirstFault(ds, enforcesScopes).None? <==>
            AllValid(ds) && forall i :: 0 <= i < |ds| && ds[i].scope.Some? ==> enforcesScopes
  {
    if ds != [] {
      FirstFaultFinds(ds[1..], enforcesScopes);
      assert forall i :: 1 <= i < |ds| ==> ds[1..][i-1] == ds[i];
      assert AllValid(ds) ==> AllValid(ds[1..]);
    }
  }

  /** A pull that reports an error changes neither verdicts nor cursor, unless only the closing of the
      answer failed: then everything is in force. It may leave new trusted ranges behind otherwise too, but
      only when the failure is that of the transaction after they were handed over. */
  lemma FailedPullKeepsStore(g: Gate, n: Node, reply: Reply, rangesOk: bool, now: string, fault: nat, closes: bool)
    requires PullReport(g, reply, rangesOk, fault, closes).Some?
    ensures var next := AfterPull(g, n, reply, rangesOk, now, fault);
            if PullReport(g, reply, rangesOk, fault, closes) == Some(CloseFailed) then
              && reply.Answer? && AllValid(reply.decisions) && !closes
              && next.db.rows == DecidedAll(n.db, reply.decisions, now).rows
              && (reply.cursor != "" && g.cursorKey != "" ==> next.cursor == reply.cursor == Persisted(g, next.db))
            else
              && next.db == n.db && next.cursor == n.cursor
              && (next.trusted != n.trusted ==>
                    PullReport(g, reply, rangesOk, fault, closes) == Some(DatabaseFailure) && HandsOver(g, reply)
                    && next.trusted == reply.trusted)
  {
    if reply.Answer? {
      FirstFaultFinds(reply.decisions, g.enforcesScopes);
      FirstFaultKind(reply.decisions, g.enforcesScopes);
    }
  }

  /** New trusted ranges reach the gate with a pull that succeeds, and only if the gate takes ranges and the
      answer brings some; ranges that the gate refuses fail the pull, which then changes nothing. */
  lemma RangesHandedOver(g: Gate, n: Node, reply: Reply, rangesOk: bool, now: string, fault: nat)
    requires reply.Answer?
    ensures var next, error := AfterPull(g, n, reply, rangesOk, now, fault), PullError(g, reply, rangesOk, fault);
            var offered := reply.trusted.Some? && g.takesRanges;
            && (error == None && offered ==> rangesOk && next.trusted == reply.trusted)
            && (!offered ==> next.trusted == n.trusted)
            && (offered && !rangesOk ==> error.Some? && next == n)
            && (error.Some? && error != Some(DatabaseFailure) ==> next == n)
            && (error == Some(DatabaseFailure) && offered ==> rangesOk && next == n.(trusted := reply.trusted))
  {
    FirstFaultKind(reply.decisions, g.enforcesScopes);
  }

  /** A pull succeeds if and only if it is answered, no decision is refused, the gate does not refuse the
      ranges, and no statement of the transaction fails. */
  lemma PullSucceedsExactly(g: Gate, reply: Reply, rangesOk: bool)
    requires reply.Answer?
    ensures (exists fault: nat :: PullError(g, reply, rangesOk, fault) == None) <==>
            && (forall i :: 0 <= i < |reply.decisions| ==> DecisionError(reply.decisions[i]) == None)
            && (forall i :: 0 <= i < |reply.decisions| && reply.decisions[i].scope.Some? ==> g.enforcesScopes)
            && (reply.trusted.Some? && g.takesRanges ==> rangesOk)
  {
    FirstFaultFinds(reply.decisions, g.enforcesScopes);
    if AllValid(reply.decisions) && FirstFault(reply.decisions, g.enforcesScopes) == None
       && (reply.trusted.Some? && g.takesRanges ==> rangesOk) {
      assert PullError(g, reply, rangesOk, |reply.decisions| + 2) == None;
    }
  }

  /** The reported refusal is that of the first decision refused. */
  lemma {:induction false} FirstFaultIsFirst(ds: seq<Decision>, enforcesScopes: bool)
    requires FirstFault(ds, enforcesScopes).Some?
    ensures exists i :: 0 <= i < |ds| && DecisionFault(ds[i], enforcesScopes) == FirstFault(ds, enforcesScopes)
                        && forall j :: 0 <= j < i ==> DecisionFault(ds[j], enforcesScopes) == None
  {
    if DecisionFault(ds[0], enforcesScopes).None? {
      FirstFaultIsFirst(ds[1..], enforcesScopes);
      var i :| 0 <= i < |ds[1..]| && DecisionFault(ds[1..][i], enforcesScopes) == FirstFault(ds[1..], enforcesScopes)
               && forall j :: 0 <= j < i ==> DecisionFault(ds[1..][j], enforcesScopes) == None;
      assert ds[i+1] == ds[1..][i];
      forall j | 0 <= j < i + 1 ensures DecisionFault(ds[j], enforcesScopes) == None {
        if j > 0 { assert ds[j] == ds[1..][j-1]; }
      }
    }
  }

  lemma RestCarries(h: Hub, k: int)
    requires ValidHub(h) && 0 <= k <= |h.log|
    ensures Carries(h, k, |h.log|, Answer(h.log[k..], h.marks[|h.log|], None))
  {
    assert h.log == h.log[..k] + h.log[k..] && h.log[..|h.log|] == h.log;
    ReplayAppend(map[], h.log[..k], h.log[k..]);
  }

  lemma ValidAnswerSucceeds(g: Gate, ds: seq<Decision>, cursor: string, rangesOk: bool, fault: nat)
    requires (forall i :: 0 <= i < |ds| ==> DecisionFault(ds[i], g.enforcesScopes) == None) && fault >= |ds| + 2
    ensures PullError(g, Answer(ds, cursor, None), rangesOk, fault) == None
  {
    FirstFaultFinds(ds, g.enforcesScopes);
  }

  /** A pull that a hub answers with all it has, and that meets no fault, catches up: both cursors name the
      end of the log, and the rows follow all of it. */
  lemma PullCatchesUp(h: Hub, g: Gate, n: Node, evicting: bool, k: int, rangesOk: bool, now: string, fault: nat)
    requires ValidHub(h) && g.cursorKey != "" && 0 <= k <= |h.log| && InSyncAt(h, g, n, evicting, k)
    requires forall i :: 0 <= i < |h.log| ==> DecisionFault(h.log[i], g.enforcesScopes) == None
    requires fault >= |h.log| + 2
    ensures var reply := Answer(h.log[k..], h.marks[|h.log|], None);
            && PullError(g, reply, rangesOk, fault) == None
            && InSyncAt(h, g, AfterPull(g, n, reply, rangesOk, now, fault), evicting, |h.log|)
  {
    assert forall i :: 0 <= i < |h.log[k..]| ==> h.log[k..][i] == h.log[k + i];
    RestCarries(h, k);
    ValidAnswerSucceeds(g, h.log[k..], h.marks[|h.log|], rangesOk, fault);
    PullSyncs(g, h, n, Answer(h.log[k..], h.marks[|h.log|], None), rangesOk, now, fault, evicting, k, |h.log|);
  }

  lemma {:induction false} FirstFaultKind(ds: seq<Decision>, enforcesScopes: bool)
    ensures FirstFault(ds, enforcesScopes) != Some(CloseFailed)
            && FirstFault(ds, enforcesScopes) != Some(DatabaseFailure)
  {
    if ds != [] {
      FirstFaultKind(ds[1..], enforcesScopes);
    }
  }

  ghost predicate Unscoped(d: DB) {
    forall fp :: fp in d.rows ==> d.rows[fp].scope == None
  }

  lemma {:induction false} DecidedAllUnscoped(d: DB, ds: seq<Decision>, now: string)
    requires Unscoped(d) && forall i :: 0 <= i < |ds| ==> ds[i].scope == None
    ensures Unscoped(DecidedAll(d, ds, now))
  {
    if ds != [] {
      DecidedAllUnscoped(d, ds[..|ds|-1], now);
    }
  }

  lemma PullUnscoped(g: Gate, n: Node, reply: Reply, rangesOk: bool, now: string, fault: nat)
    requires Unscoped(n.db) && !g.enforcesScopes
    ensures Unscoped(AfterPull(g, n, reply, rangesOk, now, fault).db)
  {
    if PullError(g, reply, rangesOk, fault).None? {
      FirstFaultFinds(reply.decisions, false);
      DecidedAllUnscoped(n.db, reply.decisions, now);
      assert AfterPull(g, n, reply, rangesOk, now, fault).db.rows == DecidedAll(n.db, reply.decisions, now).rows;
    }
  }

  /** The states of any run, with any answers and any local operations at all. */
  ghost predicate IsAnyRun(c: Config, g: Gate, events: seq<Event>, nodes: seq<Node>) {
    && |nodes| == |events| + 1
    && forall i :: 0 <= i < |events| ==> NodeMoves(c, g, nodes[i], events[i], nodes[i+1])
  }

  /** A gate that does not enforce restrictions never stores one, whatever the hub answers and whatever is
      done locally. */
  lemma {:induction false} NeverScopedWithoutSupport(c: Config, g: Gate, events: seq<Event>, nodes: seq<Node>, n: nat)
    requires IsAnyRun(c, g, events, nodes) && n < |nodes|
    requires !g.enforcesScopes && Unscoped(nodes[0].db)
    ensures Unscoped(nodes[n].db)
  {
    if n > 0 {
      NeverScopedWithoutSupport(c, g, events, nodes, n - 1);
      StepUnscoped(c, g, nodes[n-1], events[n-1], nodes[n]);
    }
  }

  lemma StepUnscoped(c: Config, g: Gate, n: Node, e: Event, next: Node)
    requires NodeMoves(c, g, n, e, next) && !g.enforcesScopes && Unscoped(n.db)
    ensures Unscoped(next.db)
  {
    match e
    case Pull(reply, rangesOk, now, fault) => PullUnscoped(g, n, reply, rangesOk, now, fault);
    case CrashedPull(reply, rangesOk, now, fault) => PullUnscoped(g, n, reply, rangesOk, now, fault);
    case Restart =>
    case Local(op) =>
      forall fp | fp in next.db.rows ensures next.db.rows[fp].scope == None {
        StepNeverWidens(c, n.db, op, next.db, fp);
      }
  }

  // ------------------------------------------------------------------------ resets

  /** A reset before the syncer is built starts a run: the whole log is fetched again. */
  lemma ResetThenNew(h: Hub, g: Gate, n: Node, evicting: bool)
    requires ValidHub(h) && IsCursorKey(g.cursorKey)
    ensures InSync(h, g, AfterNew(g, n.(db := AfterReset(n.db))), evicting)
  {
    assert InSyncAt(h, g, AfterNew(g, n.(db := AfterReset(n.db))), evicting, 0);
  }

  /** A reset under a live syncer is safe if and only if that syncer has not fetched anything yet. */
  lemma ResetSafeExactly(h: Hub, g: Gate, n: Node, evicting: bool, k: int)
    requires ValidHub(h) && IsCursorKey(g.cursorKey) && 0 <= k <= |h.log| && InSyncAt(h, g, n, evicting, k)
    ensures InSync(h, g, n.(db := AfterReset(n.db)), evicting) <==> n.cursor == ""
  {
    var after := n.(db := AfterReset(n.db));
    if n.cursor == "" {
      assert InSyncAt(h, g, after, evicting, 0);
    } else {
      forall j | 0 <= j <= |h.log| ensures !InSyncAt(h, g, after, evicting, j) {
        assert Persisted(g, after.db) == "";
      }
    }
  }

  lemma {:induction false} UnnamedStays(d: DB, v: map<string, Verdict>, ds: seq<Decision>, now: string, fp: string)
    requires !Names(ds, fp)
    ensures fp in DecidedAll(d, ds, now).rows <==> fp in d.rows
    ensures fp in Replay(v, ds) <==> fp in v
    ensures fp in v ==> Replay(v, ds)[fp] == v[fp]
  {
    if ds != [] {
      var init := ds[..|ds|-1];
      assert forall i :: 0 <= i < |init| ==> init[i] == ds[i];
      UnnamedStays(d, v, init, now, fp);
    }
  }

  lemma MissingIsBehind(h: Hub, g: Gate, n: Node, evicting: bool, m: int, fp: string)
    requires ValidHub(h) && 0 <= m <= |h.log| && n.cursor == h.marks[m] && fp !in n.db.rows
    requires fp in VerdictsAt(h, m) && VerdictsAt(h, m)[fp].status == Approved
    ensures !InSync(h, g, n, evicting)
  {
    forall j | 0 <= j <= |h.log| ensures !InSyncAt(h, g, n, evicting, j) {
      assert h.marks[j] == h.marks[m] ==> j == m;
    }
  }

  /** And it is not recovered from: whatever honest answer a later pull applies, an approval from before
      the reset that the answer does not name again stays missing, and the node out of sync. */
  lemma ResetUnderLiveSyncer(h: Hub, g: Gate, n: Node, evicting: bool, k: int, fp: string, reply: Reply, rangesOk: bool,
                             now: string, fault: nat)
    requires ValidHub(h) && IsCursorKey(g.cursorKey) && 0 < k <= |h.log| && InSyncAt(h, g, n, evicting, k)
    requires fp in VerdictsAt(h, k) && VerdictsAt(h, k)[fp].status == Approved
    requires PullError(g, reply, rangesOk, fault).None? && Honest(h, n.cursor, reply) && !Names(reply.decisions, fp)
    ensures var next := AfterPull(g, n.(db := AfterReset(n.db)), reply, rangesOk, now, fault);
            fp !in next.db.rows && !InSync(h, g, next, evicting)
  {
    var d, ds := AfterReset(n.db), reply.decisions;
    var next := AfterPull(g, n.(db := d), reply, rangesOk, now, fault);
    var m :| k <= m <= |h.log| && Carries(h, k, m, reply);
    UnnamedStays(d, VerdictsAt(h, k), ds, now, fp);
    assert next.db.rows == DecidedAll(d, ds, now).rows;
    assert next.cursor == h.marks[m];
    MissingIsBehind(h, g, next, evicting, m, fp);
  }

  /** The plain answer to a hub that has decided nothing since is such an answer. */
  lemma QuietAnswer(h: Hub, g: Gate, k: int)
    requires ValidHub(h) && IsCursorKey(g.cursorKey) && 0 < k <= |h.log|
    ensures var reply := Answer([], h.marks[k], None);
            Honest(h, h.marks[k], reply) && PullError(g, reply, true, 2).None?
            && forall fp :: !Names(reply.decisions, fp)
  {
    assert h.log[k..k] == [];
    LogReplyIsHonest(h, k, k, None);
    assert h.marks[0] != h.marks[k];
  }
}
