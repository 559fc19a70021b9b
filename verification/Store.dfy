/** The fingerprint store (store/store.go, store/limits.go, store/decisions.go, store/legacy.go). Each
    method is one transaction: it works on local copies of the tables and assigns them when it commits. */
module Stores {
  import opened Options
  import opened Order
  import opened Tables
  import opened Resolve
  import opened Legacy
  import opened StoreSpec
  import opened Paging
  import opened Listing

  /** Every entry by fingerprint, or the first row that cannot be read. */
  ghost predicate ListsAs(d: DB, r: Result<map<string, Entry>>) {
    match r
    case Ok(out) => out.Keys == d.rows.Keys && forall fp :: fp in out ==> Read(d, fp) == Ok(out[fp])
    case Err(_) => SomeUnreadable(d)
  }

  /** The entries of a page, in key order. */
  ghost predicate PagesAs(d: DB, after: string, through: string, limit: int, r: Result<seq<Entry>>) {
    if limit < 1 || limit > 128 then r == Err(PageSize)
    else
      var keys := PageKeys(d.rows, after, through, limit);
      match r
      case Ok(out) => |out| == |keys| && forall i :: 0 <= i < |keys| ==> Read(d, keys[i]) == Ok(out[i])
      case Err(_) => exists i :: 0 <= i < |keys| && Read(d, keys[i]).Err?
  }

  /** `ORDER BY last_seen ASC`; rows of equal stamp come in some order, here that of their keys. */
  function Stamp(rows: map<string, Row>, fp: string): string {
    if fp in rows then rows[fp].lastSeen else ""
  }

  predicate Older(rows: map<string, Row>, a: string, b: string) {
    if Stamp(rows, a) != Stamp(rows, b) then Less(Stamp(rows, a), Stamp(rows, b)) else Less(a, b)
  }

  function OldestFirst(rows: map<string, Row>): (string, string) -> bool {
    (a, b) => Older(rows, a, b)
  }

  lemma OlderTransitive(rows: map<string, Row>, a: string, b: string, c: string)
    requires Older(rows, a, b) && Older(rows, b, c)
    ensures Older(rows, a, c)
  {
    var x, y, z := Stamp(rows, a), Stamp(rows, b), Stamp(rows, c);
    if x != y && y != z {
      LessTransitive(x, y, z);
      LessAsymmetric(x, y);
    } else if x == y && y == z {
      LessTransitive(a, b, c);
    }
  }

  lemma OldestFirstIsTotal(rows: map<string, Row>)
    ensures TotalOrder(OldestFirst(rows))
  {
    var lt := OldestFirst(rows);
    forall a: string ensures !lt(a, a) { LessIrreflexive(a); }
    forall a: string, b: string, c: string | lt(a, b) && lt(b, c) ensures lt(a, c) { OlderTransitive(rows, a, b, c); }
    forall a: string, b: string ensures a == b || lt(a, b) || lt(b, a) {
      LessConnected(a, b);
      LessConnected(Stamp(rows, a), Stamp(rows, b));
    }
  }

  function OldestRows(rows: map<string, Row>, excess: nat): set<string> {
    First(Unapproved(rows), OldestFirst(rows), excess)
  }

  lemma OldestAreVictims(rows: map<string, Row>, max: int)
    requires 0 < max < |rows|
    ensures Victims(rows, max, OldestRows(rows, |rows| - max))
  {
    var u, lt, n := Unapproved(rows), OldestFirst(rows), |rows| - max;
    OldestFirstIsTotal(rows);
    FirstSize(u, lt, n);
    forall a, b | a in First(u, lt, n) && b in u && b !in First(u, lt, n)
      ensures AtMost(rows[a].lastSeen, rows[b].lastSeen)
    {
      FirstBefore(u, lt, n, a, b);
      assert Older(rows, a, b);
    }
  }

  lemma VictimsPrune(d: DB, max: int, v: set<string>)
    requires Victims(d.rows, max, v)
    ensures Pruned(d, max, Without(d, v)) && |v| == |d.rows| - |Without(d, v).rows|
  {
    VictimCounts(d.rows, max, v);
  }

  lemma NoVictims(rows: map<string, Row>, max: int)
    requires max <= 0 || |rows| <= max
    ensures Victims(rows, max, {})
  {
  }

  method PruneToLimit(d: DB, max: int) returns (e: DB, deleted: nat)
    ensures Pruned(d, max, e) && deleted == |d.rows| - |e.rows|
  {
    var total := |d.rows|;
    if max <= 0 || total - max <= 0 {
      NoVictims(d.rows, max);
      VictimsPrune(d, max, {});
      WithoutNone(d);
      return d, 0;
    }
    var victims := OldestRows(d.rows, total - max);
    OldestAreVictims(d.rows, max);
    VictimsPrune(d, max, victims);
    return Without(d, victims), |victims|;
  }

  /** A row's first observation may push others out. */
  method EvictIfNew(d: DB, count: int, max: int) returns (e: DB)
    ensures if count == 1 && max > 0 then Pruned(d, max, e) else e == d
  {
    e := d;
    if count == 1 && max > 0 {
      var deleted;
      e, deleted := PruneToLimit(d, max);
    }
  }

  method SelectText(s: set<string>) returns (q: seq<string>)
    ensures q == Sorted(s, Less)
  {
    TextIsTotal();
    q := Select(s, Less);
  }

  method SelectInts(s: set<int>) returns (q: seq<int>)
    ensures q == Sorted(s, IntLess)
  {
    IntIsTotal();
    q := Select(s, IntLess);
  }

  method SelectSightings(s: set<Sighting>) returns (q: seq<Sighting>)
    ensures q == Sorted(s, NewestFirst)
  {
    NewestFirstIsTotal();
    q := Select(s, NewestFirst);
  }

  /** The history of one entry, one ordered query for each kind. */
  method AttachHistory(d: DB, e: Entry) returns (full: Entry)
    ensures full == WithHistory(e, HistoryOf(d, e.fp))
  {
    var ipList := SelectText(ValuesOf(d.ips, e.fp));
    var portList := SelectInts(ValuesOf(d.ports, e.fp));
    var sightingList := SelectSightings(ValuesOf(d.sightings, e.fp));
    full := e.(ips := ipList, ports := portList, sightings := sightingList);
  }

  /** The statements of Observe that record and trim the history of its row. */
  method RecordHistory(d: DB, obs: Observation, now: string) returns (tx: DB)
    ensures var fp, s := obs.fp, Sighting(obs.ip, obs.port, now);
            tx == d.(
              ips := TrimOne(if obs.ip != "" then d.ips + {Child(fp, obs.ip)} else d.ips, fp, Less, MAX_VALUES),
              ports := TrimOne(if obs.port != 0 then d.ports + {Child(fp, obs.port)} else d.ports,
                               fp, IntLess, MAX_VALUES),
              sightings := TrimOne(if obs.ip != "" then WithSighting(d.sightings, fp, s) else d.sightings,
                                   fp, NewestFirst, MAX_VALUES))
  {
    tx := d;
    var fp := obs.fp;
    if obs.ip != "" {
      tx := tx.(ips := tx.ips + {Child(fp, obs.ip)});
    }
    if obs.port != 0 {
      tx := tx.(ports := tx.ports + {Child(fp, obs.port)});
    }
    if obs.ip != "" {
      tx := tx.(sightings := WithSighting(tx.sightings, fp, Sighting(obs.ip, obs.port, now)));
    }
    tx := tx.(sightings := TrimOne(tx.sightings, fp, NewestFirst, MAX_VALUES));
    tx := tx.(ips := TrimOne(tx.ips, fp, Less, MAX_VALUES));
    tx := tx.(ports := TrimOne(tx.ports, fp, IntLess, MAX_VALUES));
  }

  /** The statements of Observe up to its pruning. */
  method RecordObservation(x: Codec, d: DB, obs: Observation, blockUnknown: bool, now: string)
      returns (r: Result<Entry>, tx: DB)
    ensures match ObserveError(x, d, obs, blockUnknown, now)
            case Some(e) => r == Err(e)
            case None => tx == Recorded(x, d, obs, blockUnknown, now) && r == ScanRow(obs.fp, tx.rows[obs.fp]) && r.Ok?
  {
    tx := d;
    var fp := obs.fp;
    if fp == "" {
      return Err(EmptyFingerprint), tx;
    }
    var encoded := EncodeMeta(x, obs.meta);
    if encoded.length > MAX_METADATA {
      return Err(MetadataTooLarge), tx;
    }
    var row;
    if fp in d.rows {
      row := d.rows[fp].(lastSeen := now, count := d.rows[fp].count + 1, meta := encoded);
    } else {
      row := Row(if blockUnknown then Blocked else Pending, "", None, now, now, 1, encoded, d.columns);
    }
    tx := tx.(rows := d.rows[fp := row]);
    r := ScanRow(fp, row);
    if r.Err? {
      return;
    }
    tx := RecordHistory(tx, obs, now);
  }

  lemma UnreadableRow(d: DB, fp: string)
    requires fp in d.rows && ScanRow(fp, d.rows[fp]).Err?
    ensures Read(d, fp).Err?
  {
  }

  ghost predicate SomeUnreadable(d: DB) {
    exists fp :: fp in d.rows && Read(d, fp).Err?
  }

  lemma UnreadableFound(d: DB, fp: string)
    requires fp in d.rows && ScanRow(fp, d.rows[fp]).Err?
    ensures SomeUnreadable(d)
  {
    UnreadableRow(d, fp);
  }

  /** Decodes every row, without history. */
  method ScanAll(d: DB) returns (r: Result<map<string, Entry>>)
    ensures match r
            case Ok(out) => out.Keys == d.rows.Keys && forall fp :: fp in out ==> ScanRow(fp, d.rows[fp]) == Ok(out[fp])
            case Err(_) => SomeUnreadable(d)
  {
    var out: map<string, Entry> := map[];
    var fps := Listed(d.rows.Keys);
    for n := 0 to |fps|
      invariant out.Keys == Members(fps[..n]) <= d.rows.Keys
      invariant forall fp :: fp in out ==> ScanRow(fp, d.rows[fp]) == Ok(out[fp])
    {
      assert fps[n] in Members(fps);
      assert fps[..n+1] == fps[..n] + [fps[n]];
      var e := ScanRow(fps[n], d.rows[fps[n]]);
      if e.Err? {
        UnreadableFound(d, fps[n]);
        return Err(e.error);
      }
      out := out[fps[n] := e.value];
    }
    assert fps[..|fps|] == fps;
    return Ok(out);
  }

  /** Decodes the rows of a page, without history. */
  method ScanPage(d: DB, keys: seq<string>) returns (r: Result<seq<Entry>>)
    requires forall i :: 0 <= i < |keys| ==> keys[i] in d.rows
    ensures match r
            case Ok(out) =>
              |out| == |keys| && forall i :: 0 <= i < |keys| ==> ScanRow(keys[i], d.rows[keys[i]]) == Ok(out[i])
            case Err(_) => exists i :: 0 <= i < |keys| && Read(d, keys[i]).Err?
  {
    var out: seq<Entry> := [];
    for i := 0 to |keys|
      invariant |out| == i
      invariant forall j :: 0 <= j < i ==> ScanRow(keys[j], d.rows[keys[j]]) == Ok(out[j])
    {
      var e := ScanRow(keys[i], d.rows[keys[i]]);
      if e.Err? {
        UnreadableRow(d, keys[i]);
        return Err(e.error);
      }
      out := out + [e.value];
    }
    return Ok(out);
  }

  /** Adds its history to each entry of a page. */
  method AttachPage(d: DB, entries: seq<Entry>) returns (out: seq<Entry>)
    ensures |out| == |entries|
    ensures forall i :: 0 <= i < |entries| ==> out[i] == WithHistory(entries[i], HistoryOf(d, entries[i].fp))
  {
    out := [];
    for i := 0 to |entries|
      invariant |out| == i
      invariant forall j :: 0 <= j < i ==> out[j] == WithHistory(entries[j], HistoryOf(d, entries[j].fp))
    {
      var full := AttachHistory(d, entries[i]);
      out := out + [full];
    }
  }

  method SelectPage(rows: map<string, Row>, after: string, through: string, limit: nat) returns (keys: seq<string>)
    ensures keys == PageKeys(rows, after, through, limit)
    ensures forall i :: 0 <= i < |keys| ==> keys[i] in rows
  {
    keys := SelectText(First(InRange(rows, after, through), Less, limit));
    PageFacts(rows, after, through, limit);
  }

  /** One page of a database that this transaction sees as `d`. */
  method ReadPage(d: DB, after: string, through: string, limit: int) returns (r: Result<seq<Entry>>)
    ensures PagesAs(d, after, through, limit, r)
  {
    if limit < 1 || limit > 128 {
      return Err(PageSize);
    }
    var keys := SelectPage(d.rows, after, through, limit);
    r := ScanPage(d, keys);
    if r.Ok? {
      var out := AttachPage(d, r.value);
      r := Ok(out);
    }
  }

  method GreatestKey(d: DB) returns (fp: string)
    ensures fp == LastKey(d.rows)
  {
    var keys := SelectText(d.rows.Keys);
    fp := if keys == [] then "" else keys[|keys|-1];
  }

  method PresentColumns(columns: map<string, Raw>, cols: seq<Column>) returns (present: seq<Column>)
    ensures present == Present(columns, cols)
  {
    present := [];
    for i := 0 to |cols|
      invariant present == Present(columns, cols[..i])
    {
      PresentSnoc(columns, cols, i);
      if cols[i].name in columns {
        present := present + [cols[i]];
      }
    }
    assert cols[..|cols|] == cols;
  }

  /** Folds the present columns of one row into its bag. */
  method FoldOne(x: Codec, row: Row, present: seq<Column>) returns (r: Result<Bag>)
    ensures r == FoldMeta(x, row, present)
  {
    if row.meta.content.None? {
      return Err(MalformedMetadata);
    }
    var bag := if row.meta.isNull then map[] else row.meta.content.value;
    for i := 0 to |present|
      invariant row.meta.isNull ==> bag == map[]
      invariant FoldMeta(x, row, present) ==
                if row.meta.isNull then FoldNull(x, present[i..], row.legacy)
                else FoldRow(x, bag, present[i..], row.legacy)
    {
      assert present[i..][0] == present[i] && present[i..][1..] == present[i+1..];
      var raw := RawOf(row.legacy, present[i]);
      if raw.Text? && present[i].metaKey !in bag {
        var value := DecodeLegacy(x, raw.text, present[i].kind);
        if value.Err? {
          return Err(value.error);
        }
        if value.value.Some? {
          if row.meta.isNull {
            return Err(NilBag);
          }
          bag := bag[present[i].metaKey := value.value.value];
        }
      }
    }
    return Ok(bag);
  }

  /** Every row's new metadata, or an error if any row cannot be folded. */
  method CollectUpdates(x: Codec, rows: map<string, Row>, present: seq<Column>) returns (r: Result<map<string,
                        MetaText>>)
    ensures r.Ok? <==> FoldsAll(x, rows, present)
    ensures r.Ok? ==> r.value.Keys == rows.Keys && forall fp :: fp in rows ==>
              r.value[fp] == EncodeMeta(x, FoldMeta(x, rows[fp], present).value)
  {
    var updates: map<string, MetaText> := map[];
    var fps := Listed(rows.Keys);
    for n := 0 to |fps|
      invariant updates.Keys == Members(fps[..n]) <= rows.Keys
      invariant forall fp :: fp in updates ==>
                  FoldMeta(x, rows[fp], present).Ok?
                    && updates[fp] == EncodeMeta(x, FoldMeta(x, rows[fp], present).value)
    {
      assert fps[n] in Members(fps);
      assert fps[..n+1] == fps[..n] + [fps[n]];
      var bag := FoldOne(x, rows[fps[n]], present);
      if bag.Err? {
        return Err(bag.error);
      }
      updates := updates[fps[n] := EncodeMeta(x, bag.value)];
    }
    assert fps[..|fps|] == fps;
    return Ok(updates);
  }

  class Store {
    const maxFingerprints: int
    const codec: Codec
    var rows: map<string, Row>
    var ips: set<Child<string>>
    var ports: set<Child<int>>
    var sightings: set<Child<Sighting>>
    var columns: map<string, Raw>
    var meta: map<string, string>

    function Contents(): DB
      reads this
    {
      DB(rows, ips, ports, sightings, columns, meta)
    }

    function Settings(): Config {
      Config(maxFingerprints, codec)
    }

    /** A handle on an existing database, before the rest of Open. */
    constructor (maxFingerprints: int, codec: Codec, d: DB)
      ensures Contents() == d && this.maxFingerprints == maxFingerprints && this.codec == codec
    {
      this.maxFingerprints := maxFingerprints;
      this.codec := codec;
      rows, ips, ports, sightings, columns, meta := d.rows, d.ips, d.ports, d.sightings, d.columns, d.meta;
    }

    method Commit(d: DB)
      modifies this
      ensures Contents() == d
    {
      rows, ips, ports, sightings, columns, meta := d.rows, d.ips, d.ports, d.sightings, d.columns, d.meta;
    }

    // ---------------------------------------------------------------- observing

    /** `fault` says whether the database fails some statement of the transaction, or its commit. */
    method Observe(obs: Observation, blockUnknown: bool, now: string, fault: bool) returns (r: Result<Entry>)
      modifies this
      ensures Step(Settings(), old(Contents()), if fault then RolledBack else StoreSpec.Observe(obs, blockUnknown, now),
                   Contents())
      ensures fault ==> r.Err?
      ensures !fault ==>
                match ObserveError(codec, old(Contents()), obs, blockUnknown, now)
                case Some(e) => r == Err(e)
                case None => r == Read(Recorded(codec, old(Contents()), obs, blockUnknown, now), obs.fp)
    {
      var tx;
      r, tx := RecordObservation(codec, Contents(), obs, blockUnknown, now);
      if r.Err? {
        return;
      }
      var count := r.value.count;
      var full := AttachHistory(tx, r.value);
      tx := EvictIfNew(tx, count, maxFingerprints);
      if fault {
        return Err(DatabaseFailure);
      }
      Commit(tx);
      return Ok(full);
    }

    method Prune(max: int) returns (deleted: nat)
      modifies this
      ensures Step(Settings(), old(Contents()), StoreSpec.Prune(max), Contents())
      ensures deleted == |old(rows)| - |rows|
    {
      var tx;
      tx, deleted := PruneToLimit(Contents(), max);
      Commit(tx);
    }

    // ------------------------------------------------------------------ reading

    method Get(fp: string) returns (r: Result<Entry>)
      ensures r == Read(Contents(), fp)
    {
      if fp !in rows {
        return Err(UnknownFingerprint);
      }
      r := ScanRow(fp, rows[fp]);
      if r.Ok? {
        var full := AttachHistory(Contents(), r.value);
        r := Ok(full);
      }
    }

    /** Scans every row, then reads each history table once and groups it. */
    method List() returns (r: Result<map<string, Entry>>)
      ensures ListsAs(Contents(), r)
    {
      r := ScanAll(Contents());
      if r.Err? {
        return;
      }
      var scanned := r.value;
      var ipGroups := TextGroups(ips);
      var portGroups := IntGroups(ports);
      var sightingGroups := SightingGroups(sightings);
      var out: map<string, Entry> := map fp | fp in scanned ::
          scanned[fp].(ips := GroupAt(ipGroups, fp), ports := GroupAt(portGroups, fp),
                       sightings := GroupAt(sightingGroups, fp));
      return Ok(out);
    }

    method ListPage(after: string, through: string, limit: int) returns (r: Result<seq<Entry>>)
      ensures PagesAs(Contents(), after, through, limit, r)
    {
      r := ReadPage(Contents(), after, through, limit);
    }

    method LastFingerprint() returns (fp: string)
      ensures fp == LastKey(rows)
    {
      fp := GreatestKey(Contents());
    }

    method ResolveFingerprint(query: string) returns (r: Result<string>)
      ensures r == ResolveIn(rows.Keys, query)
    {
      var q := TrimSpace(query);
      if q == "" {
        return Err(EmptyFingerprint);
      }
      if q in rows {
        return Ok(q);
      }
      var matches := SelectText(First(LikeMatches(rows.Keys, q), Less, 2));
      if |matches| == 0 {
        return Err(UnknownFingerprint);
      } else if |matches| == 1 {
        return Ok(matches[0]);
      } else {
        return Err(Ambiguous);
      }
    }

    // ----------------------------------------------------------------- verdicts

    method SetStatus(fp: string, status: Status) returns (r: Result<()>)
      modifies this
      ensures Step(Settings(), old(Contents()), StoreSpec.SetStatus(fp, status), Contents())
      ensures r == match SetStatusError(old(Contents()), fp, status) case Some(e) => Err(e) case None => Ok(())
    {
      if !ValidStatus(status) {
        return Err(InvalidStatus);
      }
      if fp !in rows || (rows[fp].scope.Some? && status == Approved) {
        return Err(UnknownFingerprint);
      }
      rows := rows[fp := rows[fp].(status := status, scope := None)];
      return Ok(());
    }

    method UpsertStatus(fp: string, status: Status, text: string, now: string) returns (r: Result<()>)
      modifies this
      ensures Step(Settings(), old(Contents()), StoreSpec.UpsertStatus(fp, status, text, now), Contents())
      ensures r == match UpsertStatusError(old(Contents()), fp, status) case Some(e) => Err(e) case None => Ok(())
    {
      if !ValidStatus(status) {
        return Err(InvalidStatus);
      }
      if fp !in rows {
        rows := rows[fp := Row(status, text, None, now, now, 0, EMPTY_META, columns)];
      } else if rows[fp].scope.None? || status != Approved {
        rows := rows[fp := rows[fp].(status := status, labelText := text, scope := None)];
      } else {
        return Err(UnknownFingerprint);
      }
      return Ok(());
    }

    method SetLabel(fp: string, text: string) returns (r: Result<()>)
      modifies this
      ensures Step(Settings(), old(Contents()), StoreSpec.SetLabel(fp, text), Contents())
      ensures r == if fp in old(rows) then Ok(()) else Err(UnknownFingerprint)
    {
      if fp !in rows {
        return Err(UnknownFingerprint);
      }
      rows := rows[fp := rows[fp].(labelText := text)];
      return Ok(());
    }

    method Delete(fp: string) returns (r: Result<()>)
      modifies this
      ensures Step(Settings(), old(Contents()), StoreSpec.Delete(fp), Contents())
      ensures r == if fp in old(rows) then Ok(()) else Err(UnknownFingerprint)
    {
      if fp !in rows {
        return Err(UnknownFingerprint);
      }
      Commit(Without(Contents(), {fp}));
      return Ok(());
    }

    /** Applies a batch and its cursor, or nothing. Statement number `fault` fails, if there is one. */
    method ApplyDecisions(ds: seq<Decision>, key: string, cursor: string, now: string, fault: nat)
      returns (r: Result<()>)
      modifies this
      ensures Step(Settings(), old(Contents()), StoreSpec.ApplyDecisions(ds, key, cursor, now, fault), Contents())
      ensures r.Ok? <==> ApplySucceeds(ds, key, cursor, fault)
    {
      for i := 0 to |ds|
        invariant AllValid(ds[..i]) && unchanged(this)
      {
        var e := DecisionError(ds[i]);
        if e.Some? {
          return Err(e.value);
        }
        assert ds[..i+1] == ds[..i] + [ds[i]];
      }
      assert ds[..|ds|] == ds;
      var tx := Contents();
      for i := 0 to |ds|
        invariant i <= fault && unchanged(this)
        invariant tx == DecidedAll(old(Contents()), ds[..i], now)
      {
        if i == fault {
          return Err(DatabaseFailure);
        }
        var x := ds[i];
        if x.fp in tx.rows {
          var row := tx.rows[x.fp];
          tx := tx.(rows := tx.rows[x.fp := row.(status := x.status, labelText := x.labelText, scope := x.scope)]);
        } else {
          tx := tx.(rows := tx.rows[x.fp := Row(x.status, x.labelText, x.scope, now, now, 0, EMPTY_META, columns)]);
        }
        DecidedSnoc(old(Contents()), ds, i, now);
      }
      assert ds[..|ds|] == ds;
      var done := |ds|;
      DecidedAllFrame(old(Contents()), ds, now);
      if key != "" && cursor != "" {
        if done == fault {
          return Err(DatabaseFailure);
        }
        tx := tx.(meta := tx.meta[key := cursor]);
        done := done + 1;
      }
      if done == fault {
        return Err(DatabaseFailure);
      }
      Commit(tx);
      return Ok(());
    }

    method ResetFingerprints() returns (deleted: nat)
      modifies this
      ensures Step(Settings(), old(Contents()), StoreSpec.Reset, Contents())
      ensures deleted == |old(rows)| && rows == map[]
    {
      deleted := |rows|;
      var tx := Without(Contents(), rows.Keys);
      tx := tx.(meta := map k | k in tx.meta && !IsCursorKey(k) :: tx.meta[k]);
      Commit(tx);
    }

    // ------------------------------------------------------------------ opening

    /** Folds the legacy columns once, in one transaction, after computing every update. */
    method MigrateLegacy(cols: seq<Column>, fault: bool) returns (r: Result<()>)
      modifies this
      ensures r.Ok? <==> cols == [] || (!fault && !MigrateFails(codec, old(Contents()), cols))
      ensures Contents() == if r.Ok? then Migrated(codec, old(Contents()), cols) else old(Contents())
    {
      if |cols| == 0 {
        return Ok(());
      }
      if fault {
        return Err(DatabaseFailure);
      }
      if LEGACY_MARKER in meta && meta[LEGACY_MARKER] == "1" {
        return Ok(());
      }
      var present := PresentColumns(columns, cols);
      if |present| == 0 {
        meta := meta[LEGACY_MARKER := "1"];
        return Ok(());
      }
      var updates := CollectUpdates(codec, rows, present);
      if updates.Err? {
        return Err(updates.error);
      }
      rows := map fp | fp in rows :: rows[fp].(meta := updates.value[fp]);
      meta := meta[LEGACY_MARKER := "1"];
      assert rows == Folded(codec, old(rows), present);
      return Ok(());
    }

    method BoundExistingHistory(fault: bool) returns (r: Result<()>)
      modifies this
      ensures r.Ok? <==> !fault
      ensures Contents() == if r.Ok? then Bounded(old(Contents())) else old(Contents())
    {
      if fault {
        return Err(DatabaseFailure);
      }
      rows := map fp | fp in rows ::
        if rows[fp].meta.length > MAX_METADATA then rows[fp].(meta := EMPTY_META) else rows[fp];
      sightings := TrimAll(sightings, NewestFirst, MAX_VALUES);
      ips := TrimAll(ips, Less, MAX_VALUES);
      ports := TrimAll(ports, IntLess, MAX_VALUES);
      return Ok(());
    }

    /** What Open does once the schema is in place. The database may fail either transaction. */
    method Open(cols: seq<Column>, foldFault: bool, boundFault: bool) returns (r: Result<()>)
      modifies this
      ensures var d := old(Contents());
              var folds := cols == [] || (!foldFault && !MigrateFails(codec, d, cols));
              && (r.Ok? <==> folds && !boundFault)
              && Contents() == if r.Ok? then Opened(codec, d, cols) else if folds then Migrated(codec, d, cols) else d
      ensures !foldFault && !boundFault ==> Step(Settings(), old(Contents()), Reopen(cols), Contents())
    {
      r := MigrateLegacy(cols, foldFault);
      if r.Ok? {
        r := BoundExistingHistory(boundFault);
      }
    }
  }

  /** One bulk query of a history table, grouped by fingerprint. */
  method SelectGroups<V(==, !new)>(t: set<Child<V>>, lt: (V, V) -> bool, byValue: bool) returns (groups: map<string,
                                   seq<V>>)
    requires TotalOrder(lt)
    ensures forall fp :: GroupAt(groups, fp) == Sorted(ValuesOf(t, fp), lt)
  {
    var q;
    if byValue {
      ByValueIsTotal(lt);
      q := Select(t, ByValue(lt));
      SortedCorrect(t, ByValue(lt));
    } else {
      ByOwnerIsTotal(lt);
      q := Select(t, ByOwner(lt));
      SortedCorrect(t, ByOwner(lt));
    }
    EitherOrderIsWithin(q, lt);
    groups := GroupBy(q);
    forall fp ensures Project(q, fp) == Sorted(ValuesOf(t, fp), lt) {
      GroupsAreSorted(q, t, fp, lt);
    }
  }

  method TextGroups(t: set<Child<string>>) returns (groups: map<string, seq<string>>)
    ensures forall fp :: GroupAt(groups, fp) == Sorted(ValuesOf(t, fp), Less)
  {
    TextIsTotal();
    groups := SelectGroups(t, Less, true);
  }

  method IntGroups(t: set<Child<int>>) returns (groups: map<string, seq<int>>)
    ensures forall fp :: GroupAt(groups, fp) == Sorted(ValuesOf(t, fp), IntLess)
  {
    IntIsTotal();
    groups := SelectGroups(t, IntLess, true);
  }

  method SightingGroups(t: set<Child<Sighting>>) returns (groups: map<string, seq<Sighting>>)
    ensures forall fp :: GroupAt(groups, fp) == Sorted(ValuesOf(t, fp), NewestFirst)
  {
    NewestFirstIsTotal();
    groups := SelectGroups(t, NewestFirst, false);
  }

  lemma DecidedSnoc(d: DB, ds: seq<Decision>, i: nat, now: string)
    requires i < |ds|
    ensures DecidedAll(d, ds[..i+1], now) == Decided(DecidedAll(d, ds[..i], now), ds[i], now)
    ensures DecidedAll(d, ds[..i], now).columns == d.columns
  {
    assert ds[..i+1][..i] == ds[..i];
    DecidedAllFrame(d, ds[..i], now);
  }

  lemma {:induction false} DecidedAllFrame(d: DB, ds: seq<Decision>, now: string)
    ensures var e := DecidedAll(d, ds, now);
            && e.columns == d.columns && e.meta == d.meta && e.ips == d.ips && e.ports == d.ports
            && e.sightings == d.sightings
  {
    if ds != [] {
      DecidedAllFrame(d, ds[..|ds|-1], now);
    }
  }

  lemma {:induction false} PresentAppend(columns: map<string, Raw>, a: seq<Column>, b: seq<Column>)
    ensures Present(columns, a + b) == Present(columns, a) + Present(columns, b)
  {
    if a == [] {
      assert a + b == b;
    } else {
      assert (a + b)[1..] == a[1..] + b;
      PresentAppend(columns, a[1..], b);
    }
  }

  lemma PresentSnoc(columns: map<string, Raw>, cols: seq<Column>, i: nat)
    requires i < |cols|
    ensures Present(columns, cols[..i+1]) == Present(columns, cols[..i])
            + (if cols[i].name in columns then [cols[i]] else [])
  {
    assert cols[..i+1] == cols[..i] + [cols[i]];
    PresentAppend(columns, cols[..i], [cols[i]]);
  }
}
