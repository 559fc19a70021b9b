/** What each store operation does to the database (store/store.go, store/decisions.go), and what every
    run of operations keeps. */
module StoreSpec {
  import opened Options
  import opened Order
  import opened Approval
  import opened Tables
  import opened Legacy

  const CURSOR_PREFIX := "gatehub_cursor:"

  /** The row cap (none if not positive) and the JSON codec. */
  datatype Config = Config(maxFingerprints: int, codec: Codec)

  datatype Observation = Observation(fp: string, ip: string, port: int, meta: Bag)

  /** Replaces status, label and scope together; no scope removes a restriction. */
  datatype Decision = Decision(fp: string, status: Status, labelText: string, scope: Option<Scope>)

  datatype Entry = Entry(fp: string, status: Status, labelText: string, scope: Option<Scope>, firstSeen: string,
                         lastSeen: string, count: int, ips: seq<string>, ports: seq<int>, sightings: seq<Sighting>,
                         meta: Bag)

  // --------------------------------------------------------------------- reading

  /** A row decoded without its history. A stored scope must be valid and the row approved. */
  function ScanRow(fp: string, row: Row): Result<Entry> {
    if row.scope.Some? && (!ValidScope(row.scope.value) || row.status != Approved) then Err(CorruptRow)
    else if row.meta.content.None? then Err(MalformedMetadata)
    else Ok(Entry(fp, row.status, row.labelText, row.scope, row.firstSeen, row.lastSeen, row.count, [], [], [],
                  row.meta.content.value))
  }

  ghost function WithHistory(e: Entry, h: History): Entry {
    e.(ips := Sorted(h.ips, Less), ports := Sorted(h.ports, IntLess), sightings := Sorted(h.sightings, NewestFirst))
  }

  ghost function Read(d: DB, fp: string): Result<Entry> {
    if fp !in d.rows then Err(UnknownFingerprint)
    else
      match ScanRow(fp, d.rows[fp])
      case Err(e) => Err(e)
      case Ok(e) => Ok(WithHistory(e, HistoryOf(d, fp)))
  }

  // -------------------------------------------------------------------- observing

  /** The row of an observed fingerprint: a repeat keeps verdict, label, scope and first sighting. */
  function ObservedRow(x: Codec, d: DB, obs: Observation, blockUnknown: bool, now: string): Row {
    if obs.fp in d.rows then
      d.rows[obs.fp].(lastSeen := now, count := d.rows[obs.fp].count + 1, meta := EncodeMeta(x, obs.meta))
    else
      Row(if blockUnknown then Blocked else Pending, "", None, now, now, 1, EncodeMeta(x, obs.meta), d.columns)
  }

  function ObserveError(x: Codec, d: DB, obs: Observation, blockUnknown: bool, now: string): Option<Error> {
    if obs.fp == "" then Some(EmptyFingerprint)
    else if EncodeMeta(x, obs.meta).length > MAX_METADATA then Some(MetadataTooLarge)
    else
      match ScanRow(obs.fp, ObservedRow(x, d, obs, blockUnknown, now))
      case Err(e) => Some(e)
      case Ok(_) => None
  }

  function WithSighting(t: set<Child<Sighting>>, fp: string, s: Sighting): set<Child<Sighting>> {
    (set c | c in t && (c.fp != fp || c.value.ip != s.ip || c.value.port != s.port)) + {Child(fp, s)}
  }

  /** The observation recorded and the history trimmed; eviction comes after. */
  function Recorded(x: Codec, d: DB, obs: Observation, blockUnknown: bool, now: string): DB {
    var fp := obs.fp;
    var ips := if obs.ip != "" then d.ips + {Child(fp, obs.ip)} else d.ips;
    var ports := if obs.port != 0 then d.ports + {Child(fp, obs.port)} else d.ports;
    var sightings := if obs.ip != "" then WithSighting(d.sightings, fp, Sighting(obs.ip, obs.port, now))
                     else d.sightings;
    d.(rows := d.rows[fp := ObservedRow(x, d, obs, blockUnknown, now)],
       ips := TrimOne(ips, fp, Less, MAX_VALUES),
       ports := TrimOne(ports, fp, IntLess, MAX_VALUES),
       sightings := TrimOne(sightings, fp, NewestFirst, MAX_VALUES))
  }

  lemma WithSightingValues(t: set<Child<Sighting>>, fp: string, s: Sighting, g: string)
    ensures ValuesOf(WithSighting(t, fp, s), g) == if g == fp then Refreshed(ValuesOf(t, g), s) else ValuesOf(t, g)
  {
    forall v ensures v in ValuesOf(WithSighting(t, fp, s), g) <==>
                     v in (if g == fp then Refreshed(ValuesOf(t, g), s) else ValuesOf(t, g)) {
      InValues(WithSighting(t, fp, s), g, v);
      InValues(t, g, v);
    }
  }

  /** An observation extends its own fingerprint's history and trims it; no other history changes. */
  lemma RecordedHistory(x: Codec, d: DB, obs: Observation, blockUnknown: bool, now: string, g: string)
    ensures HistoryOf(Recorded(x, d, obs, blockUnknown, now), g) ==
            if g == obs.fp then Trimmed(Extended(HistoryOf(d, g), obs.ip, obs.port, now)) else HistoryOf(d, g)
  {
    var fp := obs.fp;
    var ips := if obs.ip != "" then d.ips + {Child(fp, obs.ip)} else d.ips;
    var ports := if obs.port != 0 then d.ports + {Child(fp, obs.port)} else d.ports;
    var sightings := if obs.ip != "" then WithSighting(d.sightings, fp, Sighting(obs.ip, obs.port, now))
                     else d.sightings;
    AddValues(d.ips, fp, obs.ip, g);
    AddValues(d.ports, fp, obs.port, g);
    WithSightingValues(d.sightings, fp, Sighting(obs.ip, obs.port, now), g);
    TrimOneValues(ips, fp, Less, MAX_VALUES, g);
    TrimOneValues(ports, fp, IntLess, MAX_VALUES, g);
    TrimOneValues(sightings, fp, NewestFirst, MAX_VALUES, g);
  }

  // --------------------------------------------------------------------- eviction

  function Unapproved(rows: map<string, Row>): set<string> {
    set fp | fp in rows && rows[fp].status != Approved
  }

  function ApprovedRows(rows: map<string, Row>): set<string> {
    set fp | fp in rows && rows[fp].status == Approved
  }

  /** `ORDER BY last_seen ASC LIMIT excess` among the rows not approved; ties fall either way. */
  ghost predicate Victims(rows: map<string, Row>, max: int, v: set<string>) {
    if max <= 0 || |rows| <= max then v == {}
    else
      && v <= Unapproved(rows)
      && |v| == Min(|rows| - max, |Unapproved(rows)|)
      && forall a, b {:trigger AtMost(rows[a].lastSeen, rows[b].lastSeen)} ::
           a in v && b in Unapproved(rows) && b !in v ==> AtMost(rows[a].lastSeen, rows[b].lastSeen)
  }

  /** Rows removed together with the history that refers to them. */
  function Without(d: DB, v: set<string>): DB {
    d.(rows := d.rows - v,
       ips := (set c | c in d.ips && c.fp !in v),
       ports := (set c | c in d.ports && c.fp !in v),
       sightings := (set c | c in d.sightings && c.fp !in v))
  }

  ghost predicate Pruned(d: DB, max: int, e: DB) {
    exists v :: Victims(d.rows, max, v) && e == Without(d, v)
  }

  lemma WithoutHistory(d: DB, v: set<string>, g: string)
    ensures HistoryOf(Without(d, v), g) == if g in v then NO_HISTORY else HistoryOf(d, g)
  {
    var e := Without(d, v);
    forall w ensures w in ValuesOf(e.ips, g) <==> g !in v && w in ValuesOf(d.ips, g) {
      InValues(e.ips, g, w);
      InValues(d.ips, g, w);
    }
    forall w ensures w in ValuesOf(e.ports, g) <==> g !in v && w in ValuesOf(d.ports, g) {
      InValues(e.ports, g, w);
      InValues(d.ports, g, w);
    }
    forall w ensures w in ValuesOf(e.sightings, g) <==> g !in v && w in ValuesOf(d.sightings, g) {
      InValues(e.sightings, g, w);
      InValues(d.sightings, g, w);
    }
  }

  lemma WithoutNone(d: DB)
    ensures Without(d, {}) == d
  {
  }

  lemma RowsSplit(rows: map<string, Row>)
    ensures |rows| == |ApprovedRows(rows)| + |Unapproved(rows)|
  {
    assert rows.Keys == ApprovedRows(rows) + Unapproved(rows);
    assert |rows| == |rows.Keys|;
  }

  lemma RemoveUnapproved(rows: map<string, Row>, v: set<string>)
    requires v <= Unapproved(rows)
    ensures |rows - v| == |rows| - |v| && ApprovedRows(rows - v) == ApprovedRows(rows)
  {
    assert (rows - v).Keys == rows.Keys - v;
    assert rows.Keys == (rows.Keys - v) + v;
    assert |(rows - v).Keys| == |rows - v| && |rows.Keys| == |rows|;
  }

  lemma VictimCounts(rows: map<string, Row>, max: int, v: set<string>)
    requires Victims(rows, max, v)
    ensures v <= Unapproved(rows) && ApprovedRows(rows - v) == ApprovedRows(rows)
    ensures |rows - v| == |rows| - |v|
    ensures max > 0 && |rows| > max ==> |rows - v| == (if max > |ApprovedRows(rows)| then max else |ApprovedRows(rows)|)
  {
    RemoveUnapproved(rows, v);
    RowsSplit(rows);
  }

  /** A row that pruning leaves is unchanged, with its history. */
  lemma Survives(d: DB, max: int, e: DB, fp: string)
    requires Pruned(d, max, e) && fp in e.rows
    ensures fp in d.rows && e.rows[fp] == d.rows[fp] && HistoryOf(e, fp) == HistoryOf(d, fp)
  {
    var v :| Victims(d.rows, max, v) && e == Without(d, v);
    WithoutHistory(d, v, fp);
  }

  /** Pruning never removes an approved row or changes a survivor, removes exactly
      min(excess, not approved) rows, oldest first, and leaves max(cap, approved) when it had to prune. */
  lemma PruneFacts(d: DB, max: int, e: DB)
    requires Pruned(d, max, e)
    ensures e.rows.Keys <= d.rows.Keys && forall fp :: fp in e.rows ==> e.rows[fp] == d.rows[fp]
    ensures forall fp :: fp in e.rows ==> HistoryOf(e, fp) == HistoryOf(d, fp)
    ensures ApprovedRows(e.rows) == ApprovedRows(d.rows)
    ensures |d.rows| - |e.rows| == if max <= 0 || |d.rows| <= max then 0 else Min(|d.rows| - max, |Unapproved(d.rows)|)
    ensures max > 0 && |d.rows| > max ==>
              |e.rows| == (if max > |ApprovedRows(d.rows)| then max else |ApprovedRows(d.rows)|)
    ensures forall gone, kept :: gone in d.rows && gone !in e.rows && kept in e.rows && kept in Unapproved(d.rows) ==>
              AtMost(d.rows[gone].lastSeen, d.rows[kept].lastSeen)
  {
    var v :| Victims(d.rows, max, v) && e == Without(d, v);
    VictimCounts(d.rows, max, v);
    forall fp | fp in e.rows ensures HistoryOf(e, fp) == HistoryOf(d, fp) {
      WithoutHistory(d, v, fp);
    }
  }

  ghost predicate AfterObserve(c: Config, d: DB, obs: Observation, blockUnknown: bool, now: string, e: DB) {
    var r := Recorded(c.codec, d, obs, blockUnknown, now);
    if r.rows[obs.fp].count == 1 && c.maxFingerprints > 0 then Pruned(r, c.maxFingerprints, e) else e == r
  }

  /** A row that an observation leaves is the observed row or an old one, with its history. */
  lemma ObserveLeaves(c: Config, d: DB, obs: Observation, blockUnknown: bool, now: string, e: DB, fp: string)
    requires AfterObserve(c, d, obs, blockUnknown, now, e) && fp in e.rows
    ensures if fp == obs.fp then e.rows[fp] == ObservedRow(c.codec, d, obs, blockUnknown, now)
            else fp in d.rows && e.rows[fp] == d.rows[fp]
    ensures HistoryOf(e, fp) == HistoryOf(Recorded(c.codec, d, obs, blockUnknown, now), fp)
  {
    var r := Recorded(c.codec, d, obs, blockUnknown, now);
    if e != r {
      Survives(r, c.maxFingerprints, e, fp);
    }
  }

  /** A capped observation that overflows leaves max(cap, approved) rows, and no observation raises the
      count above max(cap, the count before), even when the new row itself is evicted. */
  lemma ObserveKeepsCap(c: Config, d: DB, obs: Observation, blockUnknown: bool, now: string, e: DB)
    requires AfterObserve(c, d, obs, blockUnknown, now, e) && c.maxFingerprints > 0
    requires forall fp :: fp in d.rows ==> d.rows[fp].count >= 0
    ensures |e.rows| <= (if c.maxFingerprints > |d.rows| then c.maxFingerprints else |d.rows|)
    ensures var r := Recorded(c.codec, d, obs, blockUnknown, now);
            r.rows[obs.fp].count == 1 && |r.rows| > c.maxFingerprints ==>
              |e.rows| == (if c.maxFingerprints > |ApprovedRows(r.rows)| then c.maxFingerprints
                           else |ApprovedRows(r.rows)|)
  {
    var r := Recorded(c.codec, d, obs, blockUnknown, now);
    assert r.rows.Keys == d.rows.Keys + {obs.fp};
    assert |r.rows.Keys| == |r.rows| && |d.rows.Keys| == |d.rows|;
    if r.rows[obs.fp].count == 1 {
      PruneFacts(r, c.maxFingerprints, e);
      RowsSplit(r.rows);
      if obs.fp !in d.rows {
        NewRowUnapproved(c.codec, d, obs, blockUnknown, now);
      } else {
        assert r.rows.Keys == d.rows.Keys;
      }
    } else {
      assert obs.fp in d.rows;
      assert r.rows.Keys == d.rows.Keys;
    }
  }

  lemma NewRowUnapproved(x: Codec, d: DB, obs: Observation, blockUnknown: bool, now: string)
    requires obs.fp !in d.rows
    ensures |Unapproved(Recorded(x, d, obs, blockUnknown, now).rows)| >= 1
  {
    SubsetSize({obs.fp}, Unapproved(Recorded(x, d, obs, blockUnknown, now).rows));
  }

  /** What Observe returns is what Get then reads, unless its own pruning evicted the row. */
  lemma ObserveReturnsGet(c: Config, d: DB, obs: Observation, blockUnknown: bool, now: string, e: DB)
    requires AfterObserve(c, d, obs, blockUnknown, now, e)
    ensures if obs.fp in e.rows then Read(e, obs.fp) == Read(Recorded(c.codec, d, obs, blockUnknown, now), obs.fp)
            else Read(e, obs.fp) == Err(UnknownFingerprint)
  {
    var r := Recorded(c.codec, d, obs, blockUnknown, now);
    if e != r && obs.fp in e.rows {
      Survives(r, c.maxFingerprints, e, obs.fp);
    }
  }

  // --------------------------------------------------------------------- verdicts

  function SetStatusError(d: DB, fp: string, status: Status): Option<Error> {
    if !ValidStatus(status) then Some(InvalidStatus)
    else if fp !in d.rows || (d.rows[fp].scope.Some? && status == Approved) then Some(UnknownFingerprint)
    else None
  }

  function AfterSetStatus(d: DB, fp: string, status: Status): DB {
    if SetStatusError(d, fp, status).Some? then d
    else d.(rows := d.rows[fp := d.rows[fp].(status := status, scope := None)])
  }

  function UpsertStatusError(d: DB, fp: string, status: Status): Option<Error> {
    if !ValidStatus(status) then Some(InvalidStatus)
    else if fp in d.rows && d.rows[fp].scope.Some? && status == Approved then Some(UnknownFingerprint)
    else None
  }

  function Placeholder(d: DB, status: Status, text: string, scope: Option<Scope>, now: string): Row {
    Row(status, text, scope, now, now, 0, EMPTY_META, d.columns)
  }

  function AfterUpsertStatus(d: DB, fp: string, status: Status, text: string, now: string): DB {
    if UpsertStatusError(d, fp, status).Some? then d
    else if fp in d.rows then d.(rows := d.rows[fp := d.rows[fp].(status := status, labelText := text, scope := None)])
    else d.(rows := d.rows[fp := Placeholder(d, status, text, None, now)])
  }

  function AfterSetLabel(d: DB, fp: string, text: string): DB {
    if fp in d.rows then d.(rows := d.rows[fp := d.rows[fp].(labelText := text)]) else d
  }

  function AfterDelete(d: DB, fp: string): DB {
    if fp in d.rows then Without(d, {fp}) else d
  }

  function DecisionError(x: Decision): Option<Error> {
    if x.fp == "" || !ValidStatus(x.status) then Some(InvalidDecision)
    else if x.scope.Some? && x.status != Approved then Some(InvalidDecision)
    else if x.scope.Some? && !ValidScope(x.scope.value) then Some(InvalidScope)
    else None
  }

  predicate AllValid(ds: seq<Decision>) {
    forall i :: 0 <= i < |ds| ==> DecisionError(ds[i]).None?
  }

  function Decided(d: DB, x: Decision, now: string): DB {
    d.(rows := d.rows[x.fp :=
         if x.fp in d.rows then d.rows[x.fp].(status := x.status, labelText := x.labelText, scope := x.scope)
         else Placeholder(d, x.status, x.labelText, x.scope, now)])
  }

  function DecidedAll(d: DB, ds: seq<Decision>, now: string): DB {
    if ds == [] then d else Decided(DecidedAll(d, ds[..|ds|-1], now), ds[|ds|-1], now)
  }

  predicate Names(ds: seq<Decision>, fp: string) {
    exists i :: 0 <= i < |ds| && ds[i].fp == fp
  }

  predicate SavesCursor(key: string, cursor: string) {
    key != "" && cursor != ""
  }

  /** The statements of one batch, with the commit. */
  function Statements(ds: seq<Decision>, key: string, cursor: string): nat {
    |ds| + (if SavesCursor(key, cursor) then 1 else 0) + 1
  }

  /** Statement number `fault` fails, if there is one. */
  predicate ApplySucceeds(ds: seq<Decision>, key: string, cursor: string, fault: nat) {
    AllValid(ds) && fault >= Statements(ds, key, cursor)
  }

  function AfterApply(d: DB, ds: seq<Decision>, key: string, cursor: string, now: string, fault: nat): DB {
    if !ApplySucceeds(ds, key, cursor, fault) then d
    else
      var r := DecidedAll(d, ds, now);
      r.(meta := if SavesCursor(key, cursor) then r.meta[key := cursor] else r.meta)
  }

  predicate IsCursorKey(key: string) {
    CURSOR_PREFIX <= key
  }

  function AfterReset(d: DB): DB {
    Without(d, d.rows.Keys).(meta := map k | k in d.meta && !IsCursorKey(k) :: d.meta[k])
  }

  // ------------------------------------------------------------------------- runs

  datatype Op =
    | Observe(obs: Observation, blockUnknown: bool, now: string)
    | SetStatus(fp: string, status: Status)
    | UpsertStatus(fp: string, status: Status, text: string, now: string)
    | SetLabel(fp: string, text: string)
    | Delete(fp: string)
    | Prune(max: int)
    | ApplyDecisions(decisions: seq<Decision>, key: string, cursor: string, now: string, fault: nat)
    | Reset
    | Reopen(cols: seq<Column>)
    | RolledBack // any operation whose transaction the database fails

  /** The operation `op` may take the database from `d` to `e`; a failed one leaves it alone. */
  ghost predicate Step(c: Config, d: DB, op: Op, e: DB) {
    match op
    case Observe(obs, block, now) =>
      if ObserveError(c.codec, d, obs, block, now).Some? then e == d else AfterObserve(c, d, obs, block, now, e)
    case SetStatus(fp, status) => e == AfterSetStatus(d, fp, status)
    case UpsertStatus(fp, status, text, now) => e == AfterUpsertStatus(d, fp, status, text, now)
    case SetLabel(fp, text) => e == AfterSetLabel(d, fp, text)
    case Delete(fp) => e == AfterDelete(d, fp)
    case Prune(max) => Pruned(d, max, e)
    case ApplyDecisions(ds, key, cursor, now, fault) => e == AfterApply(d, ds, key, cursor, now, fault)
    case Reset => e == AfterReset(d)
    case RolledBack => e == d
    case Reopen(cols) => e == if MigrateFails(c.codec, d, cols) then d else Opened(c.codec, d, cols)
  }

  ghost predicate IsRun(c: Config, ops: seq<Op>, states: seq<DB>) {
    && |states| == |ops| + 1
    && forall i :: 0 <= i < |ops| ==> Step(c, states[i], ops[i], states[i+1])
  }

  /** History refers to stored rows only. */
  ghost predicate Linked(d: DB) {
    && (forall x :: x in d.ips ==> x.fp in d.rows)
    && (forall x :: x in d.ports ==> x.fp in d.rows)
    && (forall x :: x in d.sightings ==> x.fp in d.rows)
  }

  ghost predicate Keyed(d: DB) {
    forall fp :: KeyedByPair(ValuesOf(d.sightings, fp))
  }

  /** A restricted row is approved, and its scope has 1 to 128 ranges. */
  ghost predicate ScopesValid(d: DB) {
    forall fp :: fp in d.rows && d.rows[fp].scope.Some? ==>
      d.rows[fp].status == Approved && ValidScope(d.rows[fp].scope.value)
  }

  ghost predicate MetaReadable(d: DB) {
    forall fp :: fp in d.rows ==> d.rows[fp].meta.content.Some?
  }

  ghost predicate CountsNatural(d: DB) {
    forall fp :: fp in d.rows ==> d.rows[fp].count >= 0
  }

  /** Sound, but with no bound on metadata and history, as older releases may have left it. */
  ghost predicate Sound(d: DB) {
    Linked(d) && Keyed(d) && ScopesValid(d) && MetaReadable(d) && CountsNatural(d)
  }

  ghost predicate WellFormed(d: DB) {
    Sound(d) && WithinBounds(d)
  }
}
