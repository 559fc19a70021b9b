/** What each store operation means for the caller: the fields it writes, the rows it leaves alone, and
    when it does nothing (store/store.go, store/decisions.go). */
module StoreEffects {
  import opened Options
  import opened Order
  import opened Approval
  import opened Tables
  import opened Legacy
  import opened StoreSpec
  import opened StoreRuns

  ghost predicate SameRow(d: DB, e: DB, g: string) {
    (g in e.rows <==> g in d.rows) && (g in d.rows ==> e.rows[g] == d.rows[g]) && HistoryOf(e, g) == HistoryOf(d, g)
  }

  ghost predicate OthersUntouched(d: DB, e: DB, fp: string) {
    forall g :: g != fp ==> SameRow(d, e, g)
  }

  /** Stamps, count, metadata and legacy values are what they were. */
  predicate FactsKept(was: Row, row: Row) {
    row.firstSeen == was.firstSeen && row.lastSeen == was.lastSeen && row.count == was.count && row.meta == was.meta
    && row.legacy == was.legacy
  }

  predicate IsPlaceholder(row: Row, now: string, columns: map<string, Raw>) {
    row.firstSeen == now && row.lastSeen == now && row.count == 0 && row.meta.content == Some(map[])
    && row.legacy == columns
  }

  // ---------------------------------------------------------------------- setters

  /** SetStatus writes the status of a stored row and removes its scope, unless the status is unknown or
      would approve a restricted row; then it does nothing. */
  lemma SetStatusSets(c: Config, d: DB, fp: string, status: Status, e: DB)
    requires Step(c, d, SetStatus(fp, status), e)
    ensures OthersUntouched(d, e, fp) && HistoryOf(e, fp) == HistoryOf(d, fp) && e.meta == d.meta
    ensures if fp in d.rows && !status.Unrecognized? && (d.rows[fp].scope == None || status != Approved) then
              && SetStatusError(d, fp, status) == None
              && fp in e.rows && e.rows[fp].status == status && e.rows[fp].scope == None
              && e.rows[fp].labelText == d.rows[fp].labelText && FactsKept(d.rows[fp], e.rows[fp])
            else e == d && SetStatusError(d, fp, status).Some?
  {
  }

  /** UpsertStatus writes status and label and removes the scope, on a placeholder if nothing is stored. */
  lemma UpsertSets(c: Config, d: DB, fp: string, status: Status, text: string, now: string, e: DB)
    requires Step(c, d, UpsertStatus(fp, status, text, now), e)
    ensures OthersUntouched(d, e, fp) && HistoryOf(e, fp) == HistoryOf(d, fp) && e.meta == d.meta
    ensures if !status.Unrecognized? && (fp !in d.rows || d.rows[fp].scope == None || status != Approved) then
              && UpsertStatusError(d, fp, status) == None
              && fp in e.rows && e.rows[fp].status == status && e.rows[fp].scope == None && e.rows[fp].labelText == text
              && (if fp in d.rows then FactsKept(d.rows[fp], e.rows[fp]) else IsPlaceholder(e.rows[fp], now, d.columns))
            else e == d && UpsertStatusError(d, fp, status).Some?
  {
  }

  /** SetLabel writes the label of a stored row and nothing else. */
  lemma LabelSets(c: Config, d: DB, fp: string, text: string, e: DB)
    requires Step(c, d, SetLabel(fp, text), e)
    ensures OthersUntouched(d, e, fp) && HistoryOf(e, fp) == HistoryOf(d, fp) && e.meta == d.meta
    ensures fp in e.rows <==> fp in d.rows
    ensures fp in d.rows ==>
              && e.rows[fp].labelText == text && e.rows[fp].status == d.rows[fp].status
              && e.rows[fp].scope == d.rows[fp].scope && FactsKept(d.rows[fp], e.rows[fp])
  {
  }

  /** Delete removes the row with its history, and touches nothing else. */
  lemma DeleteRemoves(c: Config, d: DB, fp: string, e: DB)
    requires Step(c, d, Delete(fp), e)
    ensures fp !in e.rows && (fp in d.rows ==> HistoryOf(e, fp) == NO_HISTORY)
    ensures OthersUntouched(d, e, fp) && e.meta == d.meta && e.columns == d.columns
  {
    forall g ensures HistoryOf(Without(d, {fp}), g) == if g == fp then NO_HISTORY else HistoryOf(d, g) {
      WithoutHistory(d, {fp}, g);
    }
  }

  /** A reset removes every row with its history and every stored hub cursor, and keeps the rest of the
      metadata. */
  lemma ResetClears(c: Config, d: DB, e: DB)
    requires Step(c, d, Reset, e) && Linked(d)
    ensures e.rows == map[] && e.ips == {} && e.ports == {} && e.sightings == {}
    ensures forall k :: k in e.meta <==> k in d.meta && !("gatehub_cursor:" <= k)
    ensures forall k :: k in e.meta ==> e.meta[k] == d.meta[k]
  {
  }

  // ------------------------------------------------------------------- decisions

  /** A decision is valid if and only if it names a fingerprint and a known status, and any scope it brings
      is on an approval and has 1 to 128 ranges. */
  lemma DecisionValidExactly(x: Decision)
    ensures DecisionError(x) == None <==>
            && x.fp != "" && (x.status == Pending || x.status == Approved || x.status == Blocked)
            && (x.scope.Some? ==> x.status == Approved && 1 <= |x.scope.value.prefixes| <= 128)
  {
  }

  /** Decision `i` is the last that names its fingerprint. */
  predicate LastWord(ds: seq<Decision>, i: int) {
    0 <= i < |ds| && forall j :: i < j < |ds| ==> ds[j].fp != ds[i].fp
  }

  ghost predicate Says(x: Decision, row: Row) {
    row.status == x.status && row.labelText == x.labelText && row.scope == x.scope
  }

  lemma {:induction false} LastWordStands(d: DB, ds: seq<Decision>, now: string, i: int)
    requires LastWord(ds, i)
    ensures var e := DecidedAll(d, ds, now); ds[i].fp in e.rows && Says(ds[i], e.rows[ds[i].fp])
  {
    var n := |ds| - 1;
    if i < n {
      var init := ds[..n];
      assert forall j :: 0 <= j < n ==> init[j] == ds[j];
      LastWordStands(d, init, now, i);
      assert ds[n].fp != ds[i].fp;
    }
  }

  lemma {:induction false} UnnamedRowStays(d: DB, ds: seq<Decision>, now: string, fp: string)
    requires !Names(ds, fp)
    ensures SameRow(d, DecidedAll(d, ds, now), fp)
  {
    if ds != [] {
      var init := ds[..|ds|-1];
      assert forall j :: 0 <= j < |init| ==> init[j] == ds[j];
      UnnamedRowStays(d, init, now, fp);
    }
  }

  lemma {:induction false} DecidedFacts(d: DB, ds: seq<Decision>, now: string, fp: string)
    ensures var e := DecidedAll(d, ds, now);
            && e.meta == d.meta && e.columns == d.columns && HistoryOf(e, fp) == HistoryOf(d, fp)
            && (fp in d.rows ==> fp in e.rows)
            && (fp in e.rows ==>
                  if fp in d.rows then FactsKept(d.rows[fp], e.rows[fp]) else IsPlaceholder(e.rows[fp], now, d.columns))
  {
    if ds != [] {
      DecidedFacts(d, ds[..|ds|-1], now, fp);
    }
  }

  /** A valid batch that the database does not fail puts the last word on each fingerprint in force, on a
      placeholder if nothing is stored, keeps all that was observed, leaves every fingerprint that it does
      not name, and stores the cursor if there is one. */
  lemma BatchApplies(c: Config, d: DB, ds: seq<Decision>, key: string, cursor: string, now: string, fault: nat, e: DB)
    requires Step(c, d, ApplyDecisions(ds, key, cursor, now, fault), e)
    requires forall i :: 0 <= i < |ds| ==> DecisionError(ds[i]) == None
    requires fault >= |ds| + (if key != "" && cursor != "" then 2 else 1)
    ensures forall i :: LastWord(ds, i) ==> ds[i].fp in e.rows && Says(ds[i], e.rows[ds[i].fp])
    ensures forall fp :: fp in e.rows ==>
              if fp in d.rows then FactsKept(d.rows[fp], e.rows[fp]) else IsPlaceholder(e.rows[fp], now, d.columns)
    ensures forall fp :: HistoryOf(e, fp) == HistoryOf(d, fp)
    ensures forall fp :: !Names(ds, fp) ==> SameRow(d, e, fp)
    ensures e.meta == if key != "" && cursor != "" then d.meta[key := cursor] else d.meta
  {
    var r := DecidedAll(d, ds, now);
    DecidedFacts(d, ds, now, "");
    BatchIsDecided(d, ds, key, cursor, now, fault);
    forall i | LastWord(ds, i) ensures ds[i].fp in r.rows && Says(ds[i], r.rows[ds[i].fp]) {
      LastWordStands(d, ds, now, i);
    }
    forall fp
      ensures HistoryOf(r, fp) == HistoryOf(d, fp)
      ensures fp in r.rows ==>
                if fp in d.rows then FactsKept(d.rows[fp], r.rows[fp]) else IsPlaceholder(r.rows[fp], now, d.columns)
    {
      DecidedFacts(d, ds, now, fp);
    }
    forall fp | !Names(ds, fp) ensures SameRow(d, r, fp) {
      UnnamedRowStays(d, ds, now, fp);
    }
    SameTables(r, e);
  }

  lemma BatchIsDecided(d: DB, ds: seq<Decision>, key: string, cursor: string, now: string, fault: nat)
    requires AllValid(ds) && fault >= |ds| + (if key != "" && cursor != "" then 2 else 1)
    ensures var r, e := DecidedAll(d, ds, now), AfterApply(d, ds, key, cursor, now, fault);
            e == r.(meta := e.meta) && e.meta == if key != "" && cursor != "" then r.meta[key := cursor] else r.meta
  {
  }

  lemma SameTables(r: DB, e: DB)
    requires e == r.(meta := e.meta)
    ensures forall fp :: HistoryOf(e, fp) == HistoryOf(r, fp)
  {
  }

  /** Otherwise nothing is applied: an invalid decision anywhere, or a fault in any statement, be it one for
      a decision, the one for the cursor, or the commit. */
  lemma BatchRefused(c: Config, d: DB, ds: seq<Decision>, key: string, cursor: string, now: string, fault: nat, e: DB)
    requires Step(c, d, ApplyDecisions(ds, key, cursor, now, fault), e)
    requires || fault < |ds| + (if key != "" && cursor != "" then 2 else 1)
             || exists i :: 0 <= i < |ds| && DecisionError(ds[i]) != None
    ensures e == d
  {
  }

  // ------------------------------------------------------------------- observing

  /** An observation is accepted if and only if it names a fingerprint, its metadata fits in 64 KiB, and the
      stored row is not corrupt. */
  lemma AcceptedExactly(x: Codec, d: DB, obs: Observation, block: bool, now: string)
    ensures ObserveError(x, d, obs, block, now) == None <==>
            && obs.fp != "" && EncodeMeta(x, obs.meta).length <= 64 * 1024
            && (obs.fp in d.rows && d.rows[obs.fp].scope.Some? ==>
                  d.rows[obs.fp].status == Approved && 1 <= |d.rows[obs.fp].scope.value.prefixes| <= 128)
  {
  }

  /** An accepted observation that evicts nothing is stored: the row exists with its metadata and stamp, the
      address and port are in the full history before the trim, and no other fingerprint changes. */
  lemma ObservationIsStored(c: Config, d: DB, obs: Observation, block: bool, now: string, e: DB)
    requires Step(c, d, Observe(obs, block, now), e) && ObserveError(c.codec, d, obs, block, now) == None
    requires c.maxFingerprints <= 0 || |d.rows| < c.maxFingerprints || (obs.fp in d.rows && d.rows[obs.fp].count != 0)
    ensures OthersUntouched(d, e, obs.fp) && e.meta == d.meta
    ensures obs.fp in e.rows && e.rows[obs.fp].meta.content == Some(obs.meta) && e.rows[obs.fp].lastSeen == now
    ensures HistoryOf(e, obs.fp) == Trimmed(AllSeen(HistoryOf(d, obs.fp), [Seen(obs.ip, obs.port, now)]))
  {
    var r := Recorded(c.codec, d, obs, block, now);
    NothingEvicted(c, d, obs, block, now, e);
    var h, seen := HistoryOf(d, obs.fp), [Seen(obs.ip, obs.port, now)];
    assert seen[..0] == [] && AllSeen(h, seen) == Extended(h, obs.ip, obs.port, now);
    forall g ensures HistoryOf(r, g) == if g == obs.fp then Trimmed(Extended(HistoryOf(d, g), obs.ip, obs.port, now))
                                        else HistoryOf(d, g) {
      RecordedHistory(c.codec, d, obs, block, now, g);
    }
  }

  lemma NoneOver(rows: map<string, Row>, max: int, v: set<string>)
    requires Victims(rows, max, v) && |rows| <= max
    ensures v == {}
  {
  }

  lemma NoneToPrune(d: DB, max: int, e: DB)
    requires Pruned(d, max, e) && |d.rows| <= max
    ensures e == d
  {
    var v :| Victims(d.rows, max, v) && e == Without(d, v);
    NoneOver(d.rows, max, v);
    WithoutNone(d);
  }

  lemma NothingEvicted(c: Config, d: DB, obs: Observation, block: bool, now: string, e: DB)
    requires AfterObserve(c, d, obs, block, now, e)
    requires c.maxFingerprints <= 0 || |d.rows| < c.maxFingerprints || (obs.fp in d.rows && d.rows[obs.fp].count != 0)
    ensures e == Recorded(c.codec, d, obs, block, now)
  {
    var r := Recorded(c.codec, d, obs, block, now);
    if r.rows[obs.fp].count == 1 && c.maxFingerprints > 0 {
      RecordedSize(c.codec, d, obs, block, now);
      NoneToPrune(r, c.maxFingerprints, e);
    }
  }

  lemma RecordedSize(x: Codec, d: DB, obs: Observation, block: bool, now: string)
    ensures |Recorded(x, d, obs, block, now).rows| <= |d.rows| + 1
  {
    var r := Recorded(x, d, obs, block, now);
    assert r.rows.Keys == d.rows.Keys + {obs.fp};
    assert |r.rows.Keys| == |r.rows| && |d.rows.Keys| == |d.rows|;
  }

  // --------------------------------------------------------------------- reading

  /** A read succeeds if and only if the row is stored, its metadata decodes, and any scope is valid and on
      an approval; it then returns the row and its ordered history. */
  lemma ReadExactly(d: DB, fp: string)
    ensures Read(d, fp).Ok? <==>
            && fp in d.rows && d.rows[fp].meta.content.Some?
            && (d.rows[fp].scope.Some? ==>
                  d.rows[fp].status == Approved && 1 <= |d.rows[fp].scope.value.prefixes| <= 128)
    ensures Read(d, fp) == Err(UnknownFingerprint) <==> fp !in d.rows
    ensures Read(d, fp).Ok? ==>
              var e, row := Read(d, fp).value, d.rows[fp];
              && e.fp == fp && e.status == row.status && e.labelText == row.labelText && e.scope == row.scope
              && e.firstSeen == row.firstSeen && e.lastSeen == row.lastSeen && e.count == row.count
              && Some(e.meta) == row.meta.content
  {
  }

  lemma ReadHistory(d: DB, fp: string)
    requires Read(d, fp).Ok?
    ensures var e, h := Read(d, fp).value, HistoryOf(d, fp);
            && Members(e.ips) == h.ips && Ascending(e.ips, Less)
            && Members(e.ports) == h.ports && Ascending(e.ports, IntLess)
            && Members(e.sightings) == h.sightings && Ascending(e.sightings, NewestFirst)
  {
    TextIsTotal();
    IntIsTotal();
    NewestFirstIsTotal();
    SortedCorrect(HistoryOf(d, fp).ips, Less);
    SortedCorrect(HistoryOf(d, fp).ports, IntLess);
    SortedCorrect(HistoryOf(d, fp).sightings, NewestFirst);
  }

  // ------------------------------------------------------------- what no run can store

  predicate KnownStatus(s: Status) {
    s == Pending || s == Approved || s == Blocked
  }

  ghost predicate AllKnown(d: DB) {
    forall fp :: fp in d.rows ==> KnownStatus(d.rows[fp].status)
  }

  lemma {:induction false} DecidedAllKnown(d: DB, ds: seq<Decision>, now: string)
    requires AllKnown(d) && AllValid(ds)
    ensures AllKnown(DecidedAll(d, ds, now)) && ("" !in d.rows ==> "" !in DecidedAll(d, ds, now).rows)
  {
    if ds != [] {
      var n := |ds| - 1;
      DecidedAllKnown(d, ds[..n], now);
      assert DecisionError(ds[n]).None?;
    }
  }

  lemma ObserveAllKnown(c: Config, d: DB, obs: Observation, block: bool, now: string, e: DB)
    requires AllKnown(d) && AfterObserve(c, d, obs, block, now, e)
    ensures AllKnown(e)
  {
    forall fp | fp in e.rows ensures KnownStatus(e.rows[fp].status) {
      ObserveLeaves(c, d, obs, block, now, e, fp);
    }
  }

  lemma StepAllKnown(c: Config, d: DB, op: Op, e: DB)
    requires Step(c, d, op, e) && AllKnown(d)
    ensures AllKnown(e)
  {
    match op
    case Observe(obs, block, now) =>
      if ObserveError(c.codec, d, obs, block, now).None? {
        ObserveAllKnown(c, d, obs, block, now, e);
      }
    case Prune(max) => PruneFacts(d, max, e);
    case ApplyDecisions(ds, key, cursor, now, fault) =>
      if ApplySucceeds(ds, key, cursor, fault) {
        DecidedAllKnown(d, ds, now);
      }
    case Reopen(cols) => OpenKeepsVerdicts(c.codec, d, cols);
    case _ =>
  }

  /** Over every run each stored status is pending, approved or blocked. */
  lemma {:induction false} StatusesAreKnown(c: Config, ops: seq<Op>, states: seq<DB>, n: nat)
    requires IsRun(c, ops, states) && n < |states| && AllKnown(states[0])
    ensures AllKnown(states[n])
  {
    if n > 0 {
      StatusesAreKnown(c, ops, states, n - 1);
      StepAllKnown(c, states[n-1], ops[n-1], states[n]);
    }
  }

  lemma StepNamesRows(c: Config, d: DB, op: Op, e: DB)
    requires Step(c, d, op, e) && "" !in d.rows && "" in e.rows
    ensures op.UpsertStatus? && op.fp == ""
  {
    match op
    case Observe(obs, block, now) =>
      if ObserveError(c.codec, d, obs, block, now).None? {
        ObserveLeaves(c, d, obs, block, now, e, "");
      }
    case Prune(max) => PruneFacts(d, max, e);
    case ApplyDecisions(ds, key, cursor, now, fault) =>
      if ApplySucceeds(ds, key, cursor, fault) {
        DecidedAllNamed(d, ds, now);
      }
    case Reopen(cols) => OpenKeepsVerdicts(c.codec, d, cols);
    case _ =>
  }

  lemma {:induction false} DecidedAllNamed(d: DB, ds: seq<Decision>, now: string)
    requires "" !in d.rows && AllValid(ds)
    ensures "" !in DecidedAll(d, ds, now).rows
  {
    if ds != [] {
      var n := |ds| - 1;
      DecidedAllNamed(d, ds[..n], now);
      assert DecisionError(ds[n]).None?;
    }
  }

  /** Over every run a row without a fingerprint comes only from a verdict set for the empty one. */
  lemma {:induction false} EmptyFingerprintSource(c: Config, ops: seq<Op>, states: seq<DB>, n: nat)
    requires IsRun(c, ops, states) && n < |states| && "" !in states[0].rows && "" in states[n].rows
    ensures exists i :: 0 <= i < n && ops[i].UpsertStatus? && ops[i].fp == ""
  {
    if n > 0 {
      if "" in states[n-1].rows {
        EmptyFingerprintSource(c, ops, states, n - 1);
      } else {
        StepNamesRows(c, states[n-1], ops[n-1], states[n]);
      }
    }
  }
}
