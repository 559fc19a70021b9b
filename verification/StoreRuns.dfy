/** What every run of store operations keeps. */
module StoreRuns {
  import opened Options
  import opened Order
  import opened Approval
  import opened Tables
  import opened Legacy
  import opened StoreSpec
  import Timestamps

  // ------------------------------------------------------- well-formedness, step by step

  lemma TrimmedFits(h: History)
    ensures |Trimmed(h).ips| <= MAX_VALUES && |Trimmed(h).ports| <= MAX_VALUES && |Trimmed(h).sightings| <= MAX_VALUES
    ensures KeyedByPair(h.sightings) ==> KeyedByPair(Trimmed(h).sightings)
  {
    TextIsTotal();
    IntIsTotal();
    NewestFirstIsTotal();
    FirstSize(h.ips, Less, MAX_VALUES);
    FirstSize(h.ports, IntLess, MAX_VALUES);
    FirstSize(h.sightings, NewestFirst, MAX_VALUES);
  }

  /** The bounds and keys of one fingerprint's history. */
  ghost predicate HistoryFits(h: History) {
    |h.ips| <= MAX_VALUES && |h.ports| <= MAX_VALUES && |h.sightings| <= MAX_VALUES && KeyedByPair(h.sightings)
  }

  ghost predicate RowSound(row: Row) {
    && (row.scope.Some? ==> row.status == Approved && ValidScope(row.scope.value))
    && row.meta.content.Some? && row.count >= 0
  }

  ghost predicate RowFits(row: Row) {
    RowSound(row) && row.meta.length <= MAX_METADATA
  }

  lemma WellFormedByParts(d: DB)
    ensures WellFormed(d) <==>
            && Linked(d)
            && (forall fp :: fp in d.rows ==> RowFits(d.rows[fp]))
            && (forall fp :: HistoryFits(HistoryOf(d, fp)))
  {
    if WellFormed(d) {
      forall fp ensures HistoryFits(HistoryOf(d, fp)) {
        assert KeyedByPair(ValuesOf(d.sightings, fp));
      }
    }
    if Linked(d) && (forall fp :: fp in d.rows ==> RowFits(d.rows[fp]))
       && (forall fp :: HistoryFits(HistoryOf(d, fp))) {
      forall fp
        ensures KeyedByPair(ValuesOf(d.sightings, fp)) && |ValuesOf(d.ips, fp)| <= MAX_VALUES
                && |ValuesOf(d.ports, fp)| <= MAX_VALUES && |ValuesOf(d.sightings, fp)| <= MAX_VALUES
      {
        assert HistoryFits(HistoryOf(d, fp));
      }
    }
  }

  /** Changing or adding one row, with no change of history. */
  lemma RowChangeKeeps(d: DB, fp: string, row: Row)
    requires WellFormed(d) && RowFits(row)
    ensures WellFormed(d.(rows := d.rows[fp := row]))
  {
    var e := d.(rows := d.rows[fp := row]);
    WellFormedByParts(d);
    forall g ensures HistoryFits(HistoryOf(e, g)) {
      assert HistoryOf(e, g) == HistoryOf(d, g);
    }
    WellFormedByParts(e);
  }

  lemma MetaChangeKeeps(d: DB, meta: map<string, string>)
    requires WellFormed(d)
    ensures WellFormed(d.(meta := meta))
  {
    var e := d.(meta := meta);
    WellFormedByParts(d);
    forall g ensures HistoryFits(HistoryOf(e, g)) {
      assert HistoryOf(e, g) == HistoryOf(d, g);
    }
    WellFormedByParts(e);
  }

  lemma RecordedLinked(x: Codec, d: DB, obs: Observation, block: bool, now: string)
    requires Linked(d)
    ensures Linked(Recorded(x, d, obs, block, now))
  {
  }

  lemma ExtendedKeyed(h: History, ip: string, port: int, now: string)
    requires KeyedByPair(h.sightings)
    ensures KeyedByPair(Extended(h, ip, port, now).sightings)
  {
  }

  lemma RecordedFits(x: Codec, d: DB, obs: Observation, block: bool, now: string, g: string)
    requires HistoryFits(HistoryOf(d, g))
    ensures HistoryFits(HistoryOf(Recorded(x, d, obs, block, now), g))
  {
    RecordedHistory(x, d, obs, block, now, g);
    ExtendedKeyed(HistoryOf(d, g), obs.ip, obs.port, now);
    TrimmedFits(Extended(HistoryOf(d, g), obs.ip, obs.port, now));
  }

  lemma RecordedKeeps(x: Codec, d: DB, obs: Observation, block: bool, now: string)
    requires WellFormed(d) && ObserveError(x, d, obs, block, now).None?
    ensures WellFormed(Recorded(x, d, obs, block, now))
  {
    var e := Recorded(x, d, obs, block, now);
    WellFormedByParts(d);
    RecordedLinked(x, d, obs, block, now);
    assert RowFits(ObservedRow(x, d, obs, block, now));
    forall g ensures HistoryFits(HistoryOf(e, g)) {
      RecordedFits(x, d, obs, block, now, g);
    }
    WellFormedByParts(e);
  }

  lemma WithoutKeeps(d: DB, v: set<string>)
    requires WellFormed(d)
    ensures WellFormed(Without(d, v))
  {
    var e := Without(d, v);
    WellFormedByParts(d);
    forall g ensures HistoryFits(HistoryOf(e, g)) {
      WithoutHistory(d, v, g);
      assert HistoryFits(HistoryOf(d, g));
    }
    WellFormedByParts(e);
  }

  lemma PrunedKeeps(d: DB, max: int, e: DB)
    requires WellFormed(d) && Pruned(d, max, e)
    ensures WellFormed(e)
  {
    var v :| Victims(d.rows, max, v) && e == Without(d, v);
    WithoutKeeps(d, v);
  }

  lemma ObserveKeeps(c: Config, d: DB, obs: Observation, block: bool, now: string, e: DB)
    requires WellFormed(d) && ObserveError(c.codec, d, obs, block, now).None? && AfterObserve(c, d, obs, block, now, e)
    ensures WellFormed(e)
  {
    var r := Recorded(c.codec, d, obs, block, now);
    RecordedKeeps(c.codec, d, obs, block, now);
    if e != r {
      PrunedKeeps(r, c.maxFingerprints, e);
    }
  }

  lemma {:induction false} DecidedAllKeeps(d: DB, ds: seq<Decision>, now: string)
    requires WellFormed(d) && AllValid(ds)
    ensures WellFormed(DecidedAll(d, ds, now))
  {
    if ds != [] {
      var r, x := DecidedAll(d, ds[..|ds|-1], now), ds[|ds|-1];
      DecidedAllKeeps(d, ds[..|ds|-1], now);
      WellFormedByParts(r);
      assert DecisionError(x).None?;
      RowChangeKeeps(r, x.fp, Decided(r, x, now).rows[x.fp]);
    }
  }

  lemma VerdictKeeps(d: DB, fp: string, status: Status, text: string, now: string)
    requires WellFormed(d)
    ensures WellFormed(AfterSetStatus(d, fp, status)) && WellFormed(AfterUpsertStatus(d, fp, status, text, now))
    ensures WellFormed(AfterSetLabel(d, fp, text))
  {
    WellFormedByParts(d);
    if fp in d.rows {
      var row := d.rows[fp];
      RowChangeKeeps(d, fp, row.(labelText := text));
      RowChangeKeeps(d, fp, row.(status := status, scope := None));
      RowChangeKeeps(d, fp, row.(status := status, labelText := text, scope := None));
    } else {
      RowChangeKeeps(d, fp, Placeholder(d, status, text, None, now));
    }
  }

  lemma ReopenKeeps(c: Config, d: DB, cols: seq<Column>, e: DB)
    requires WellFormed(d) && Step(c, d, Reopen(cols), e)
    ensures WellFormed(e)
  {
    if !MigrateFails(c.codec, d, cols) {
      OpenMakesWellFormed(c.codec, d, cols);
    }
  }

  lemma ObserveStepKeeps(c: Config, d: DB, obs: Observation, block: bool, now: string, e: DB)
    requires WellFormed(d) && Step(c, d, Observe(obs, block, now), e)
    ensures WellFormed(e)
  {
    if ObserveError(c.codec, d, obs, block, now).None? {
      ObserveKeeps(c, d, obs, block, now, e);
    }
  }

  lemma ApplyKeeps(d: DB, ds: seq<Decision>, key: string, cursor: string, now: string, fault: nat)
    requires WellFormed(d)
    ensures WellFormed(AfterApply(d, ds, key, cursor, now, fault))
  {
    if ApplySucceeds(ds, key, cursor, fault) {
      DecidedAllKeeps(d, ds, now);
      MetaChangeKeeps(DecidedAll(d, ds, now), AfterApply(d, ds, key, cursor, now, fault).meta);
    }
  }

  lemma ResetKeeps(d: DB)
    requires WellFormed(d)
    ensures WellFormed(AfterReset(d))
  {
    WithoutKeeps(d, d.rows.Keys);
    MetaChangeKeeps(Without(d, d.rows.Keys), AfterReset(d).meta);
  }

  lemma OpenedFits(x: Codec, d: DB, cols: seq<Column>, g: string)
    requires KeyedByPair(HistoryOf(d, g).sightings)
    ensures HistoryFits(HistoryOf(Opened(x, d, cols), g))
  {
    OpenEstablishesBounds(x, d, cols);
    TrimmedFits(HistoryOf(d, g));
  }

  lemma OpenedRowFits(x: Codec, d: DB, cols: seq<Column>, fp: string)
    requires fp in d.rows && RowSound(d.rows[fp])
    ensures var e := Opened(x, d, cols);
            fp in e.rows && RowFits(e.rows[fp])
  {
    OpenKeepsVerdicts(x, d, cols);
    OpenEstablishesBounds(x, d, cols);
  }

  lemma OpenedLinked(x: Codec, d: DB, cols: seq<Column>)
    requires Linked(d)
    ensures Linked(Opened(x, d, cols)) && Opened(x, d, cols).rows.Keys == d.rows.Keys
  {
    OpenKeepsVerdicts(x, d, cols);
  }

  /** Open takes a sound database of any size, with or without columns to fold, to a well-formed one. */
  lemma OpenMakesWellFormed(x: Codec, d: DB, cols: seq<Column>)
    requires Sound(d)
    ensures WellFormed(Opened(x, d, cols))
  {
    var e := Opened(x, d, cols);
    OpenedLinked(x, d, cols);
    forall fp | fp in e.rows ensures RowFits(e.rows[fp]) {
      assert RowSound(d.rows[fp]);
      OpenedRowFits(x, d, cols, fp);
    }
    forall g ensures HistoryFits(HistoryOf(e, g)) {
      assert KeyedByPair(ValuesOf(d.sightings, g));
      OpenedFits(x, d, cols, g);
    }
    WellFormedByParts(e);
  }

  lemma StepKeepsWellFormed(c: Config, d: DB, op: Op, e: DB)
    requires WellFormed(d) && Step(c, d, op, e)
    ensures WellFormed(e)
  {
    match op
    case Observe(obs, block, now) => ObserveStepKeeps(c, d, obs, block, now, e);
    case SetStatus(fp, status) => VerdictKeeps(d, fp, status, "", "");
    case UpsertStatus(fp, status, text, now) => VerdictKeeps(d, fp, status, text, now);
    case SetLabel(fp, text) => VerdictKeeps(d, fp, Pending, text, "");
    case Delete(fp) => WithoutKeeps(d, {fp});
    case Prune(max) => PrunedKeeps(d, max, e);
    case ApplyDecisions(ds, key, cursor, now, fault) => ApplyKeeps(d, ds, key, cursor, now, fault);
    case Reset => ResetKeeps(d);
    case Reopen(cols) => ReopenKeeps(c, d, cols, e);
    case RolledBack =>
  }

  /** In every reachable state: history refers to stored rows and is bounded, metadata is bounded, and a
      restricted row is approved with 1 to 128 ranges. */
  lemma {:induction false} RunsKeepWellFormed(c: Config, ops: seq<Op>, states: seq<DB>, n: nat)
    requires IsRun(c, ops, states) && n < |states| && WellFormed(states[0])
    ensures WellFormed(states[n])
  {
    if n > 0 {
      RunsKeepWellFormed(c, ops, states, n - 1);
      StepKeepsWellFormed(c, states[n-1], ops[n-1], states[n]);
    }
  }

  // ----------------------------------------------------------------------- scopes

  lemma StepNeverWidens(c: Config, d: DB, op: Op, e: DB, fp: string)
    requires Step(c, d, op, e) && !op.ApplyDecisions? && fp in e.rows
    ensures e.rows[fp].scope.Some? ==> fp in d.rows && d.rows[fp].scope == e.rows[fp].scope
    ensures fp in d.rows && d.rows[fp].scope.Some? && e.rows[fp].status == Approved && d.rows[fp].status == Approved ==>
              e.rows[fp].scope == d.rows[fp].scope
  {
    match op
    case Observe(obs, block, now) =>
      if ObserveError(c.codec, d, obs, block, now).None? {
        ObserveLeaves(c, d, obs, block, now, e, fp);
      }
    case Prune(max) => Survives(d, max, e, fp);
    case Reopen(cols) => OpenKeepsVerdicts(c.codec, d, cols);
    case _ =>
  }

  /** Without a decision batch, a restricted row that stays approved keeps the identical scope over any
      run of observations, label and status changes, evictions and reopens. */
  lemma {:induction false} ScopeRetained(c: Config, ops: seq<Op>, states: seq<DB>, fp: string, n: nat)
    requires IsRun(c, ops, states) && n < |states|
    requires forall i :: 0 <= i < n ==> !ops[i].ApplyDecisions?
    requires forall i :: 0 <= i <= n ==> fp in states[i].rows && states[i].rows[fp].status == Approved
    requires states[0].rows[fp].scope.Some?
    ensures states[n].rows[fp].scope == states[0].rows[fp].scope
  {
    if n > 0 {
      ScopeRetained(c, ops, states, fp, n - 1);
      StepNeverWidens(c, states[n-1], ops[n-1], states[n], fp);
    }
  }

  /** Nor can such a run create a restriction. */
  lemma {:induction false} ScopeNeverAppears(c: Config, ops: seq<Op>, states: seq<DB>, fp: string, n: nat)
    requires IsRun(c, ops, states) && n < |states|
    requires forall i :: 0 <= i < n ==> !ops[i].ApplyDecisions?
    requires fp in states[n].rows && states[n].rows[fp].scope.Some?
    ensures fp in states[0].rows && states[0].rows[fp].scope == states[n].rows[fp].scope
  {
    if n > 0 {
      StepNeverWidens(c, states[n-1], ops[n-1], states[n], fp);
      ScopeNeverAppears(c, ops, states, fp, n - 1);
    }
  }

  predicate WithdrawsApproval(op: Op, fp: string) {
    (op.SetStatus? || op.UpsertStatus?) && op.fp == fp && ValidStatus(op.status) && op.status != Approved
  }

  /** A stored restriction is lost exactly when a local verdict withdraws the approval, and then wholly. */
  lemma ScopeLostExactly(c: Config, d: DB, op: Op, e: DB, fp: string)
    requires Step(c, d, op, e) && !op.ApplyDecisions? && fp in d.rows && fp in e.rows
    ensures e.rows[fp].scope == if WithdrawsApproval(op, fp) then None else d.rows[fp].scope
  {
    match op
    case Observe(obs, block, now) =>
      if ObserveError(c.codec, d, obs, block, now).None? {
        ObserveLeaves(c, d, obs, block, now, e, fp);
      }
    case Prune(max) => Survives(d, max, e, fp);
    case Reopen(cols) => OpenKeepsVerdicts(c.codec, d, cols);
    case _ =>
  }

  ghost predicate ScopedAt(ops: seq<Op>, states: seq<DB>, fp: string, i: int) {
    0 <= i < |ops| && |states| == |ops| + 1 && fp in states[i].rows && fp in states[i+1].rows
    && states[i+1].rows[fp].scope == if WithdrawsApproval(ops[i], fp) then None else states[i].rows[fp].scope
  }

  lemma {:induction false} ScopedThrough(ops: seq<Op>, states: seq<DB>, fp: string, n: nat)
    requires n <= |ops| && |states| == |ops| + 1 && fp in states[0].rows
    requires forall i :: 0 <= i < n ==> ScopedAt(ops, states, fp, i)
    ensures fp in states[n].rows
    ensures states[n].rows[fp].scope ==
            if exists i :: 0 <= i < n && WithdrawsApproval(ops[i], fp) then None else states[0].rows[fp].scope
  {
    if n > 0 {
      ScopedThrough(ops, states, fp, n - 1);
      assert ScopedAt(ops, states, fp, n - 1);
    }
  }

  /** Over a run without a decision batch, the scope of a row that stays stored is what it was, or none if
      any local verdict withdrew the approval. */
  lemma ScopeFollowsVerdicts(c: Config, ops: seq<Op>, states: seq<DB>, fp: string, n: nat)
    requires IsRun(c, ops, states) && n < |states|
    requires forall i :: 0 <= i < n ==> !ops[i].ApplyDecisions?
    requires forall i :: 0 <= i <= n ==> fp in states[i].rows
    ensures states[n].rows[fp].scope ==
            if exists i :: 0 <= i < n && WithdrawsApproval(ops[i], fp) then None else states[0].rows[fp].scope
  {
    forall i | 0 <= i < n ensures ScopedAt(ops, states, fp, i) {
      ScopeLostExactly(c, states[i], ops[i], states[i+1], fp);
    }
    ScopedThrough(ops, states, fp, n);
  }

  /** Staying approved is needed: blocking and then approving leaves an unrestricted approval. */
  lemma BlockThenApproveDropsScope(d: DB, fp: string)
    requires fp in d.rows && d.rows[fp].scope.Some?
    ensures SetStatusError(d, fp, Approved).Some?
    ensures var e := AfterSetStatus(AfterSetStatus(d, fp, Blocked), fp, Approved);
            fp in e.rows && e.rows[fp].status == Approved && e.rows[fp].scope == None
  {
  }

  // ---------------------------------------------------------------------- history

  predicate Succeeds(c: Config, d: DB, op: Op, fp: string) {
    op.Observe? && op.obs.fp == fp && ObserveError(c.codec, d, op.obs, op.blockUnknown, op.now).None?
  }

  /** What an operation on `d` sees of `fp`. */
  ghost function SeenHere(c: Config, d: DB, op: Op, fp: string): seq<Seen> {
    if Succeeds(c, d, op, fp) then [Seen(op.obs.ip, op.obs.port, op.now)] else []
  }

  /** What the successful observations of `fp` among the first `n` operations saw. */
  ghost function SeenBy(c: Config, ops: seq<Op>, states: seq<DB>, fp: string, n: nat): seq<Seen>
    requires n <= |ops| && |states| == |ops| + 1
  {
    if n == 0 then [] else SeenBy(c, ops, states, fp, n - 1) + SeenHere(c, states[n-1], ops[n-1], fp)
  }

  lemma StepHistory(c: Config, d: DB, op: Op, e: DB, fp: string)
    requires Step(c, d, op, e) && WellFormed(d) && fp in e.rows
    ensures HistoryOf(e, fp) == SeenTrimming(HistoryOf(d, fp), SeenHere(c, d, op, fp))
  {
    match op
    case Observe(obs, block, now) =>
      if ObserveError(c.codec, d, obs, block, now).None? {
        RecordedHistory(c.codec, d, obs, block, now, fp);
        SeenTrimmingSnoc(HistoryOf(d, fp), [], Seen(obs.ip, obs.port, now));
        assert [] + [Seen(obs.ip, obs.port, now)] == [Seen(obs.ip, obs.port, now)];
        ObserveLeaves(c, d, obs, block, now, e, fp);
      }
    case Delete(g) => WithoutHistory(d, {g}, fp);
    case Prune(max) => Survives(d, max, e, fp);
    case Reopen(cols) =>
      OpenEstablishesBounds(c.codec, d, cols);
      FittingIsTrimmed(d, fp);
    case ApplyDecisions(ds, key, cursor, now, fault) => DecidedAllHistory(d, ds, now, fp);
    case _ =>
  }

  lemma {:induction false} DecidedAllHistory(d: DB, ds: seq<Decision>, now: string, fp: string)
    ensures HistoryOf(DecidedAll(d, ds, now), fp) == HistoryOf(d, fp)
  {
    if ds != [] {
      DecidedAllHistory(d, ds[..|ds|-1], now, fp);
    }
  }

  lemma FittingIsTrimmed(d: DB, fp: string)
    requires WithinBounds(d)
    ensures Trimmed(HistoryOf(d, fp)) == HistoryOf(d, fp)
  {
    TextIsTotal();
    IntIsTotal();
    NewestFirstIsTotal();
    FirstAll(ValuesOf(d.ips, fp), Less, MAX_VALUES);
    FirstAll(ValuesOf(d.ports, fp), IntLess, MAX_VALUES);
    FirstAll(ValuesOf(d.sightings, fp), NewestFirst, MAX_VALUES);
  }

  lemma SeenTrimmingSnoc(h: History, seen: seq<Seen>, s: Seen)
    ensures SeenTrimming(h, seen + [s]) == Trimmed(Extended(SeenTrimming(h, seen), s.ip, s.port, s.now))
  {
    assert (seen + [s])[..|seen|] == seen;
  }

  lemma {:induction false} SeenTrimmingSplit(h: History, a: seq<Seen>, b: seq<Seen>)
    ensures SeenTrimming(h, a + b) == SeenTrimming(SeenTrimming(h, a), b)
    decreases |b|
  {
    if b == [] {
      assert a + b == a;
    } else {
      var init, s := b[..|b|-1], b[|b|-1];
      SeenTrimmingSplit(h, a, init);
      assert a + b == (a + init) + [s];
      SeenTrimmingSnoc(h, a + init, s);
    }
  }

  ghost predicate TrackedAt(c: Config, ops: seq<Op>, states: seq<DB>, fp: string, i: int) {
    0 <= i < |ops| && |states| == |ops| + 1
    && HistoryOf(states[i+1], fp) == SeenTrimming(HistoryOf(states[i], fp), SeenHere(c, states[i], ops[i], fp))
  }

  lemma {:induction false} TrackedThrough(c: Config, ops: seq<Op>, states: seq<DB>, fp: string, n: nat)
    requires n <= |ops| && |states| == |ops| + 1
    requires forall i :: 0 <= i < n ==> TrackedAt(c, ops, states, fp, i)
    ensures HistoryOf(states[n], fp) == SeenTrimming(HistoryOf(states[0], fp), SeenBy(c, ops, states, fp, n))
  {
    if n > 0 {
      TrackedThrough(c, ops, states, fp, n - 1);
      assert TrackedAt(c, ops, states, fp, n - 1);
      SeenTrimmingSplit(HistoryOf(states[0], fp), SeenBy(c, ops, states, fp, n - 1),
        SeenHere(c, states[n-1], ops[n-1], fp));
    }
  }

  lemma HistoryFollowsSeen(c: Config, ops: seq<Op>, states: seq<DB>, fp: string, n: nat)
    requires IsRun(c, ops, states) && n < |states| && WellFormed(states[0])
    requires forall i :: 1 <= i <= n ==> fp in states[i].rows
    ensures HistoryOf(states[n], fp) == SeenTrimming(HistoryOf(states[0], fp), SeenBy(c, ops, states, fp, n))
  {
    forall i | 0 <= i < n ensures TrackedAt(c, ops, states, fp, i) {
      RunsKeepWellFormed(c, ops, states, i);
      StepHistory(c, states[i], ops[i], states[i+1], fp);
    }
    TrackedThrough(c, ops, states, fp, n);
  }

  ghost predicate LosesNothing(h: History, seen: seq<Seen>) {
    forall j :: 0 <= j < |seen| ==> !LosesAt(h, seen, j)
  }

  /** While a row stays stored, whatever else runs, its history is the first 128 of everything ever seen:
      the 128 smallest addresses and ports and, when no observation loses a sighting, the first 128 of the
      latest sightings. None does when no source pair is stamped backwards. */
  lemma HistoryIsFirstOfAllSeen(c: Config, ops: seq<Op>, states: seq<DB>, fp: string, n: nat)
    requires IsRun(c, ops, states) && n < |states| && WellFormed(states[0])
    requires forall i :: 1 <= i <= n ==> fp in states[i].rows
    ensures var h, seen := HistoryOf(states[0], fp), SeenBy(c, ops, states, fp, n);
            var all, kept := AllSeen(h, seen), HistoryOf(states[n], fp);
            && kept.ips == First(all.ips, Less, MAX_VALUES)
            && kept.ports == First(all.ports, IntLess, MAX_VALUES)
            && (PairsForward(h, seen) || LosesNothing(h, seen) ==>
                  kept.sightings == First(all.sightings, NewestFirst, MAX_VALUES))
  {
    var h, seen := HistoryOf(states[0], fp), SeenBy(c, ops, states, fp, n);
    HistoryFollowsSeen(c, ops, states, fp, n);
    WellFormedByParts(states[0]);
    assert HistoryFits(h);
    TrimmingKeepsSmallest(h, seen);
    if seen == [] {
      FittingIsTrimmed(states[0], fp);
    } else if PairsForward(h, seen) {
      TrimmingLosesNothing(h, seen);
    } else if LosesNothing(h, seen) {
      KeptUpTo(h, seen, |seen|);
      assert seen[..|seen|] == seen;
    }
  }

  lemma {:induction false} SeenByGrows(c: Config, ops: seq<Op>, states: seq<DB>, fp: string, i: nat, n: nat)
    requires i <= n <= |ops| && |states| == |ops| + 1
    ensures SeenBy(c, ops, states, fp, i) <= SeenBy(c, ops, states, fp, n)
  {
    if i < n {
      SeenByGrows(c, ops, states, fp, i, n - 1);
    }
  }

  lemma {:induction false} SeenByReaches(c: Config, ops: seq<Op>, states: seq<DB>, fp: string, n: nat, j: nat)
      returns (i: nat)
    requires n <= |ops| && |states| == |ops| + 1 && j <= |SeenBy(c, ops, states, fp, n)|
    ensures i <= n && |SeenBy(c, ops, states, fp, i)| == j
  {
    if j == |SeenBy(c, ops, states, fp, n)| {
      i := n;
    } else {
      i := SeenByReaches(c, ops, states, fp, n - 1, j);
    }
  }

  /** The sightings stored after `i` operations are the first 128 of the latest sightings seen by then. */
  ghost predicate SightingsKept(c: Config, ops: seq<Op>, states: seq<DB>, fp: string, i: int) {
    0 <= i <= |ops| && |states| == |ops| + 1
    && HistoryOf(states[i], fp).sightings ==
       First(AllSeen(HistoryOf(states[0], fp), SeenBy(c, ops, states, fp, i)).sightings, NewestFirst, MAX_VALUES)
  }

  lemma KeptInRun(c: Config, ops: seq<Op>, states: seq<DB>, fp: string, n: nat, i: nat)
    requires i <= n <= |ops| && |states| == |ops| + 1
    requires HistoryOf(states[i], fp) == SeenTrimming(HistoryOf(states[0], fp), SeenBy(c, ops, states, fp, i))
    ensures SightingsKept(c, ops, states, fp, i) <==>
            KeptAt(HistoryOf(states[0], fp), SeenBy(c, ops, states, fp, n), |SeenBy(c, ops, states, fp, i)|)
  {
    SeenByGrows(c, ops, states, fp, i, n);
    assert SeenBy(c, ops, states, fp, n)[..|SeenBy(c, ops, states, fp, i)|] == SeenBy(c, ops, states, fp, i);
  }

  ghost predicate FollowsAt(c: Config, ops: seq<Op>, states: seq<DB>, fp: string, i: int) {
    0 <= i <= |ops| && |states| == |ops| + 1
    && HistoryOf(states[i], fp) == SeenTrimming(HistoryOf(states[0], fp), SeenBy(c, ops, states, fp, i))
  }

  lemma KeptThroughout(c: Config, ops: seq<Op>, states: seq<DB>, fp: string, n: nat)
    requires n <= |ops| && |states| == |ops| + 1 && forall i :: 0 <= i <= n ==> FollowsAt(c, ops, states, fp, i)
    ensures var h, seen := HistoryOf(states[0], fp), SeenBy(c, ops, states, fp, n);
            (forall i :: 0 <= i <= n ==> SightingsKept(c, ops, states, fp, i)) <==>
            (forall j :: 0 <= j <= |seen| ==> KeptAt(h, seen, j))
  {
    var h, seen := HistoryOf(states[0], fp), SeenBy(c, ops, states, fp, n);
    if forall j :: 0 <= j <= |seen| ==> KeptAt(h, seen, j) {
      forall i | 0 <= i <= n ensures SightingsKept(c, ops, states, fp, i) {
        assert FollowsAt(c, ops, states, fp, i);
        SeenByGrows(c, ops, states, fp, i, n);
        KeptInRun(c, ops, states, fp, n, i);
      }
    }
    if forall i :: 0 <= i <= n ==> SightingsKept(c, ops, states, fp, i) {
      forall j | 0 <= j <= |seen| ensures KeptAt(h, seen, j) {
        var i := SeenByReaches(c, ops, states, fp, n, j);
        assert SightingsKept(c, ops, states, fp, i) && FollowsAt(c, ops, states, fp, i);
        KeptInRun(c, ops, states, fp, n, i);
      }
    }
  }

  lemma StartFits(d: DB, fp: string)
    requires WellFormed(d)
    ensures HistoryFits(HistoryOf(d, fp))
  {
    WellFormedByParts(d);
  }

  /** Over any run in which a row stays stored, its sightings are the first 128 of the latest ones seen,
      all along, if and only if no observation of it refreshes a kept pair with a stamp that a dropped
      sighting does not sort after. */
  lemma SightingsExactInRun(c: Config, ops: seq<Op>, states: seq<DB>, fp: string, n: nat)
    requires IsRun(c, ops, states) && n < |states| && WellFormed(states[0])
    requires forall i :: 1 <= i <= n ==> fp in states[i].rows
    ensures (forall i :: 0 <= i <= n ==> SightingsKept(c, ops, states, fp, i)) <==>
            LosesNothing(HistoryOf(states[0], fp), SeenBy(c, ops, states, fp, n))
  {
    forall i | 0 <= i <= n ensures FollowsAt(c, ops, states, fp, i) {
      HistoryFollowsSeen(c, ops, states, fp, i);
    }
    KeptThroughout(c, ops, states, fp, n);
    StartFits(states[0], fp);
    SightingsKeptExactly(HistoryOf(states[0], fp), SeenBy(c, ops, states, fp, n));
  }

  // ------------------------------------------------------------ a run that loses one

  const SOURCE := "192.0.2.1"

  /** One source on `n` ports. */
  function Burst(n: nat, stamp: string): seq<Seen> {
    seq(n, i => Seen(SOURCE, i + 1, stamp))
  }

  lemma {:induction false} BurstSeen(n: nat, stamp: string)
    ensures var s := AllSeen(NO_HISTORY, Burst(n, stamp)).sightings;
            && |s| == n && KeyedByPair(s)
            && forall x :: x in s ==> x.ip == SOURCE && 1 <= x.port <= n && x.lastSeen == stamp
  {
    if n > 0 {
      BurstSeen(n - 1, stamp);
      assert Burst(n, stamp)[..n-1] == Burst(n - 1, stamp);
      var s, x := AllSeen(NO_HISTORY, Burst(n - 1, stamp)).sightings, Sighting(SOURCE, n, stamp);
      assert Refreshed(s, x) == s + {x} && x !in s;
    }
  }

  lemma SomeDropped(s: set<Sighting>) returns (d: Sighting)
    requires |s| > MAX_VALUES
    ensures d in s && d !in First(s, NewestFirst, MAX_VALUES)
  {
    NewestFirstIsTotal();
    FirstSize(s, NewestFirst, MAX_VALUES);
    assert s != First(s, NewestFirst, MAX_VALUES);
    d :| d in s && d !in First(s, NewestFirst, MAX_VALUES);
  }

  lemma BackwardStampLoses(s: set<Sighting>, o: Sighting, d: Sighting, now: string)
    requires o in First(s, NewestFirst, MAX_VALUES) && d in s && d !in First(s, NewestFirst, MAX_VALUES)
    requires Less(now, d.lastSeen) && o.ip != ""
    ensures Loses(s, Seen(o.ip, o.port, now))
  {
    LessAsymmetric(now, d.lastSeen);
    assert !NewestFirst(Sighting(o.ip, o.port, now), d);
  }

  /** A source is seen on 129 ports at a whole second, and again on a kept one within that second: later in
      time, but earlier as text, so the stored sightings are no longer the latest ones. */
  lemma WholeSecondLoses(t: Timestamps.Instant, u: Timestamps.Instant) returns (seen: seq<Seen>)
    requires Timestamps.Valid(t) && Timestamps.Valid(u) && Timestamps.SameSecond(t, u) && t.nanos == 0 < u.nanos
    ensures Timestamps.Before(t, u) && |seen| == 130 && seen[..129] == Burst(129, Timestamps.Encode(t))
    ensures seen[129].now == Timestamps.Encode(u)
    ensures LosesAt(NO_HISTORY, seen, 129) && exists n :: 0 <= n <= |seen| && !KeptAt(NO_HISTORY, seen, n)
  {
    var was, now := Timestamps.Encode(t), Timestamps.Encode(u);
    var s := AllSeen(NO_HISTORY, Burst(129, was)).sightings;
    WholeSecondIsLater(t, u);
    BurstSeen(129, was);
    NewestFirstIsTotal();
    FirstSize(s, NewestFirst, MAX_VALUES);
    assert First(s, NewestFirst, MAX_VALUES) != {};
    var o :| o in First(s, NewestFirst, MAX_VALUES);
    var d := SomeDropped(s);
    BackwardStampLoses(s, o, d, now);
    seen := Burst(129, was) + [Seen(o.ip, o.port, now)];
    assert seen[..129] == Burst(129, was);
    assert LosesAt(NO_HISTORY, seen, 129);
    SightingsKeptExactly(NO_HISTORY, seen);
  }

  lemma WholeSecondIsLater(t: Timestamps.Instant, u: Timestamps.Instant)
    requires Timestamps.Valid(t) && Timestamps.Valid(u) && Timestamps.SameSecond(t, u) && t.nanos == 0 < u.nanos
    ensures Timestamps.Before(t, u) && Less(Timestamps.Encode(u), Timestamps.Encode(t))
  {
    Timestamps.PowersOfTen();
    Timestamps.FractionOfZero();
    Timestamps.FractionOfMore(u.nanos);
    Timestamps.TextOrderIsTimeOrder(u, t);
  }

  /** A row not stored has no history, so a new row's history is its own. */
  lemma UnstoredHasNoHistory(d: DB, fp: string)
    requires Linked(d) && fp !in d.rows
    ensures HistoryOf(d, fp) == NO_HISTORY
  {
  }

  // ------------------------------------------------------------- counts and stamps

  /** A row appears with the first observation of its fingerprint, blocked if unknown ones are to be, or
      as a placeholder for a verdict, never observed. */
  lemma CreatedRow(c: Config, d: DB, op: Op, e: DB, fp: string)
    requires Step(c, d, op, e) && fp !in d.rows && fp in e.rows
    ensures var row := e.rows[fp];
            if Succeeds(c, d, op, fp) then
              && row.count == 1 && row.firstSeen == op.now && row.lastSeen == op.now
              && row.status == (if op.blockUnknown then Blocked else Pending) && row.scope == None
              && row.labelText == ""
            else
              row.count == 0 && (op.UpsertStatus? || op.ApplyDecisions?)
  {
    match op
    case Observe(obs, block, now) =>
      if ObserveError(c.codec, d, obs, block, now).None? {
        ObserveLeaves(c, d, obs, block, now, e, fp);
      }
    case Prune(max) => Survives(d, max, e, fp);
    case Reopen(cols) => OpenKeepsVerdicts(c.codec, d, cols);
    case ApplyDecisions(ds, key, cursor, now, fault) => DecidedAllCounts(d, ds, now, fp);
    case _ =>
  }

  lemma {:induction false} DecidedAllCounts(d: DB, ds: seq<Decision>, now: string, fp: string)
    ensures var e := DecidedAll(d, ds, now);
            && d.rows.Keys <= e.rows.Keys
            && (fp in e.rows ==>
                  if fp in d.rows then e.rows[fp].count == d.rows[fp].count
                     && e.rows[fp].firstSeen == d.rows[fp].firstSeen
                                       && e.rows[fp].lastSeen == d.rows[fp].lastSeen
                  else e.rows[fp].count == 0)
  {
    if ds != [] {
      DecidedAllCounts(d, ds[..|ds|-1], now, fp);
    }
  }

  function LatestStamp(start: string, seen: seq<Seen>): string {
    if seen == [] then start else seen[|seen|-1].now
  }

  /** The row has gone from `was` to `row` by being seen so often. */
  predicate CountsSeen(was: Row, seen: seq<Seen>, row: Row) {
    row.count == was.count + |seen| && row.firstSeen == was.firstSeen && row.lastSeen == LatestStamp(was.lastSeen, seen)
  }

  lemma CountsSeenMore(was: Row, a: seq<Seen>, row: Row, b: seq<Seen>, later: Row)
    requires CountsSeen(was, a, row) && CountsSeen(row, b, later)
    ensures CountsSeen(was, a + b, later)
  {
  }

  lemma StepCounts(c: Config, d: DB, op: Op, e: DB, fp: string)
    requires Step(c, d, op, e) && fp in d.rows && fp in e.rows
    ensures CountsSeen(d.rows[fp], SeenHere(c, d, op, fp), e.rows[fp])
  {
    match op
    case Observe(obs, block, now) =>
      if ObserveError(c.codec, d, obs, block, now).None? {
        ObserveLeaves(c, d, obs, block, now, e, fp);
      }
    case Prune(max) => Survives(d, max, e, fp);
    case Reopen(cols) => OpenKeepsVerdicts(c.codec, d, cols);
    case ApplyDecisions(ds, key, cursor, now, fault) => DecidedAllCounts(d, ds, now, fp);
    case _ =>
  }

  ghost predicate CountedAt(c: Config, ops: seq<Op>, states: seq<DB>, fp: string, i: int) {
    0 <= i < |ops| && |states| == |ops| + 1 && fp in states[i].rows && fp in states[i+1].rows
    && CountsSeen(states[i].rows[fp], SeenHere(c, states[i], ops[i], fp), states[i+1].rows[fp])
  }

  lemma {:induction false} CountedThrough(c: Config, ops: seq<Op>, states: seq<DB>, fp: string, n: nat)
    requires n <= |ops| && |states| == |ops| + 1 && fp in states[0].rows
    requires forall i :: 0 <= i < n ==> CountedAt(c, ops, states, fp, i)
    ensures fp in states[n].rows && CountsSeen(states[0].rows[fp], SeenBy(c, ops, states, fp, n), states[n].rows[fp])
  {
    if n > 0 {
      CountedThrough(c, ops, states, fp, n - 1);
      assert CountedAt(c, ops, states, fp, n - 1);
      CountsSeenMore(states[0].rows[fp], SeenBy(c, ops, states, fp, n - 1), states[n-1].rows[fp],
                     SeenHere(c, states[n-1], ops[n-1], fp), states[n].rows[fp]);
    }
  }

  /** While a row stays stored its count grows by exactly its successful observations, its first sighting
      never moves, and its last one is that of the latest observation, whatever else runs. */
  lemma RowCountsObservations(c: Config, ops: seq<Op>, states: seq<DB>, fp: string, n: nat)
    requires IsRun(c, ops, states) && n < |states|
    requires forall i :: 0 <= i <= n ==> fp in states[i].rows
    ensures CountsSeen(states[0].rows[fp], SeenBy(c, ops, states, fp, n), states[n].rows[fp])
  {
    forall i | 0 <= i < n ensures CountedAt(c, ops, states, fp, i) {
      StepCounts(c, states[i], ops[i], states[i+1], fp);
    }
    CountedThrough(c, ops, states, fp, n);
  }

  // --------------------------------------------------------------------- metadata

  predicate FoldDone(d: DB) {
    LEGACY_MARKER in d.meta && d.meta[LEGACY_MARKER] == "1"
  }

  /** The fold is done from the first open that names a column, and not before: opening with no
      columns leaves it due. */
  lemma OpenFinishesFold(c: Config, d: DB, cols: seq<Column>)
    requires !MigrateFails(c.codec, d, cols)
    ensures FoldDone(Opened(c.codec, d, cols)) <==> FoldDone(d) || cols != []
  {
  }

  lemma {:induction false} DecidedAllMeta(d: DB, ds: seq<Decision>, now: string, fp: string)
    ensures var e := DecidedAll(d, ds, now);
            && e.meta == d.meta && d.rows.Keys <= e.rows.Keys
            && (fp in e.rows ==> e.rows[fp].meta == if fp in d.rows then d.rows[fp].meta else EMPTY_META)
  {
    if ds != [] {
      DecidedAllMeta(d, ds[..|ds|-1], now, fp);
    }
  }

  lemma StepKeepsFold(c: Config, d: DB, op: Op, e: DB)
    requires Step(c, d, op, e) && FoldDone(d) && (op.ApplyDecisions? ==> op.key != LEGACY_MARKER)
    ensures FoldDone(e)
  {
    match op
    case ApplyDecisions(ds, key, cursor, now, fault) => DecidedAllMeta(d, ds, now, "");
    case Reset => assert LEGACY_MARKER[4] != CURSOR_PREFIX[4];
    case _ =>
  }

  /** Once the fold is done, only observing a fingerprint changes its metadata, and it becomes exactly the
      observed bag. */
  lemma StepMetadata(c: Config, d: DB, op: Op, e: DB, fp: string)
    requires Step(c, d, op, e) && WellFormed(d) && FoldDone(d)
    ensures fp in e.rows ==>
              e.rows[fp].meta ==
              if Succeeds(c, d, op, fp) then EncodeMeta(c.codec, op.obs.meta)
              else if fp in d.rows then d.rows[fp].meta else EMPTY_META
  {
    match op
    case Observe(obs, block, now) =>
      if ObserveError(c.codec, d, obs, block, now).None? && fp in e.rows {
        ObserveLeaves(c, d, obs, block, now, e, fp);
      }
    case ApplyDecisions(ds, key, cursor, now, fault) => DecidedAllMeta(d, ds, now, fp);
    case Prune(max) =>
      if fp in e.rows { Survives(d, max, e, fp); }
    case Reopen(cols) => OpenKeepsVerdicts(c.codec, d, cols);
    case _ =>
  }

  lemma {:induction false} FoldStaysDone(c: Config, ops: seq<Op>, states: seq<DB>, n: nat)
    requires IsRun(c, ops, states) && n < |states| && FoldDone(states[0])
    requires forall i :: 0 <= i < n && ops[i].ApplyDecisions? ==> ops[i].key != LEGACY_MARKER
    ensures FoldDone(states[n])
  {
    if n > 0 {
      FoldStaysDone(c, ops, states, n - 1);
      StepKeepsFold(c, states[n-1], ops[n-1], states[n]);
    }
  }

  lemma RunStepMetadata(c: Config, ops: seq<Op>, states: seq<DB>, fp: string, n: nat)
    requires IsRun(c, ops, states) && n < |ops| && WellFormed(states[0]) && FoldDone(states[0])
    requires forall i :: 0 <= i <= n && ops[i].ApplyDecisions? ==> ops[i].key != LEGACY_MARKER
    requires fp in states[n+1].rows
    ensures states[n+1].rows[fp].meta ==
            if Succeeds(c, states[n], ops[n], fp) then EncodeMeta(c.codec, ops[n].obs.meta)
            else if fp in states[n].rows then states[n].rows[fp].meta else EMPTY_META
  {
    RunsKeepWellFormed(c, ops, states, n);
    FoldStaysDone(c, ops, states, n);
    StepMetadata(c, states[n], ops[n], states[n+1], fp);
  }

  ghost predicate KeepsMarker(ops: seq<Op>) {
    forall i :: 0 <= i < |ops| && ops[i].ApplyDecisions? ==> ops[i].key != LEGACY_MARKER
  }

  lemma {:induction false} BagStays(c: Config, ops: seq<Op>, states: seq<DB>, fp: string, k: nat, n: nat, m: MetaText)
    requires IsRun(c, ops, states) && k <= n < |states| && WellFormed(states[0]) && FoldDone(states[0])
             && KeepsMarker(ops)
    requires forall i :: k <= i <= n ==> fp in states[i].rows
    requires forall i :: k <= i < n ==> !Succeeds(c, states[i], ops[i], fp)
    requires states[k].rows[fp].meta == m
    ensures states[n].rows[fp].meta == m
    decreases n
  {
    if n > k {
      BagStays(c, ops, states, fp, k, n - 1, m);
      RunStepMetadata(c, ops, states, fp, n - 1);
    }
  }

  /** After the fold, no legacy value replaces or reappears over an observed bag: from a successful
      observation on, the stored bag is the observed one until the next, through any number of reopens
      with any column mappings. */
  lemma ObservedBagStays(c: Config, ops: seq<Op>, states: seq<DB>, fp: string, k: nat, n: nat)
    requires IsRun(c, ops, states) && k < n < |states| && WellFormed(states[0]) && FoldDone(states[0])
             && KeepsMarker(ops)
    requires Succeeds(c, states[k], ops[k], fp)
    requires forall i :: k < i <= n ==> fp in states[i].rows
    requires forall i :: k < i < n ==> !Succeeds(c, states[i], ops[i], fp)
    ensures states[n].rows[fp].meta == EncodeMeta(c.codec, ops[k].obs.meta)
  {
    RunStepMetadata(c, ops, states, fp, k);
    BagStays(c, ops, states, fp, k + 1, n, EncodeMeta(c.codec, ops[k].obs.meta));
  }
}
