/** Opening an existing database: the one-time fold of typed columns into the metadata bag
    (store/legacy.go) and the bounds on old history (store/limits.go). */
module Legacy {
  import opened Options
  import opened Order
  import opened Tables
  import opened Resolve

  const LEGACY_MARKER := "gatekit_legacy_migrated"

  datatype Kind = KindString | KindBool | KindJson

  datatype Column = Column(name: string, metaKey: string, kind: Kind)

  /** What the JSON decoder makes of a text; values are kept in their encoded form. */
  datatype Json = MalformedJson | JsonNull | JsonValue(text: string)

  /** The JSON encoder and decoder: the encoded size of a bag, decoding, and the encoding of a string. */
  datatype Codec = Codec(size: Bag -> nat, parse: string -> Json, quote: string -> string)

  function EncodeMeta(x: Codec, bag: Bag): MetaText {
    MetaText(if bag == map[] then 2 else x.size(bag), false, Some(bag))
  }

  function DecodeLegacy(x: Codec, raw: string, kind: Kind): Result<Option<string>> {
    match kind
    case KindBool => Ok(Some(if raw != "" && raw != "0" then "true" else "false"))
    case KindJson =>
      if TrimSpace(raw) == "" then Ok(None)
      else (match x.parse(raw)
            case MalformedJson => Err(MalformedColumn)
            case JsonNull => Ok(None)
            case JsonValue(text) => Ok(Some(text)))
    case KindString => Ok(if raw == "" then None else Some(x.quote(raw)))
  }

  function RawOf(legacy: map<string, Raw>, c: Column): Raw {
    if c.name in legacy then legacy[c.name] else Null
  }

  /** What a column offers for its key: nothing if it is NULL. */
  function Offer(x: Codec, legacy: map<string, Raw>, c: Column): Result<Option<string>> {
    match RawOf(legacy, c)
    case Null => Ok(None)
    case Text(text) => DecodeLegacy(x, text, c.kind)
  }

  function FoldRow(x: Codec, bag: Bag, cols: seq<Column>, legacy: map<string, Raw>): Result<Bag>
    decreases |cols|
  {
    if cols == [] then Ok(bag)
    else
      var c := cols[0];
      if c.metaKey in bag then FoldRow(x, bag, cols[1..], legacy)
      else
        match Offer(x, legacy, c)
        case Err(e) => Err(e)
        case Ok(None) => FoldRow(x, bag, cols[1..], legacy)
        case Ok(Some(v)) => FoldRow(x, bag[c.metaKey := v], cols[1..], legacy)
  }

  predicate Offers(x: Codec, legacy: map<string, Raw>, c: Column, key: string) {
    c.metaKey == key && Offer(x, legacy, c).Ok? && Offer(x, legacy, c).value.Some?
  }

  /** Column `i` is the first with a usable value for `key`. */
  ghost predicate FirstOffer(x: Codec, cols: seq<Column>, legacy: map<string, Raw>, key: string, i: int) {
    0 <= i < |cols| && Offers(x, legacy, cols[i], key) && forall j :: 0 <= j < i ==> !Offers(x, legacy, cols[j], key)
  }

  /** Column `i` is read and cannot be decoded. */
  ghost predicate Spoils(x: Codec, bag: Bag, cols: seq<Column>, legacy: map<string, Raw>, i: int) {
    0 <= i < |cols| && cols[i].metaKey !in bag && Offer(x, legacy, cols[i]).Err?
    && forall j :: 0 <= j < i ==> !Offers(x, legacy, cols[j], cols[i].metaKey)
  }

  lemma ShiftOffers(x: Codec, cols: seq<Column>, legacy: map<string, Raw>, key: string)
    requires cols != []
    ensures forall i :: 1 <= i ==>
              (FirstOffer(x, cols, legacy, key, i) <==>
               !Offers(x, legacy, cols[0], key) && FirstOffer(x, cols[1..], legacy, key, i - 1))
  {
    forall i | 1 <= i
      ensures FirstOffer(x, cols, legacy, key, i) <==>
              !Offers(x, legacy, cols[0], key) && FirstOffer(x, cols[1..], legacy, key, i - 1)
    {
      assert forall j :: 0 <= j < |cols| - 1 ==> cols[1..][j] == cols[j+1];
      if !Offers(x, legacy, cols[0], key) && FirstOffer(x, cols[1..], legacy, key, i - 1) {
        forall j | 0 <= j < i ensures !Offers(x, legacy, cols[j], key) {
          if j > 0 { assert cols[1..][j-1] == cols[j]; }
        }
      }
    }
  }

  /** The fold never changes a key already in the bag, and gives any other key the value of the first
      column that has a usable one. */
  lemma {:induction false} FoldRowResult(x: Codec, bag: Bag, cols: seq<Column>, legacy: map<string, Raw>, key: string)
    requires FoldRow(x, bag, cols, legacy).Ok?
    ensures var out := FoldRow(x, bag, cols, legacy).value;
            && (key in bag ==> key in out && out[key] == bag[key])
            && (key !in bag && key in out ==> exists i :: FirstOffer(x, cols, legacy, key, i))
            && (forall i :: key !in bag && FirstOffer(x, cols, legacy, key, i) ==>
                  key in out && Offer(x, legacy, cols[i]) == Ok(Some(out[key])))
    decreases |cols|
  {
    if cols != [] {
      var c := cols[0];
      ShiftOffers(x, cols, legacy, key);
      if c.metaKey in bag || Offer(x, legacy, c) == Ok(None) {
        FoldRowResult(x, bag, cols[1..], legacy, key);
        FirstOfferTail(x, cols, legacy, key);
      } else {
        var v := Offer(x, legacy, c).value.value;
        FoldRowResult(x, bag[c.metaKey := v], cols[1..], legacy, key);
        if key == c.metaKey {
          assert FirstOffer(x, cols, legacy, key, 0);
        } else {
          FirstOfferTail(x, cols, legacy, key);
        }
      }
    }
  }

  lemma FirstOfferTail(x: Codec, cols: seq<Column>, legacy: map<string, Raw>, key: string)
    requires cols != []
    ensures !Offers(x, legacy, cols[0], key) && (exists i :: FirstOffer(x, cols[1..], legacy, key, i)) ==>
              exists i :: FirstOffer(x, cols, legacy, key, i)
  {
    ShiftOffers(x, cols, legacy, key);
    if i :| FirstOffer(x, cols[1..], legacy, key, i) {
      assert !Offers(x, legacy, cols[0], key) ==> FirstOffer(x, cols, legacy, key, i + 1);
    }
  }

  /** It fails exactly when some column that is needed cannot be decoded. */
  lemma {:induction false} FoldRowFails(x: Codec, bag: Bag, cols: seq<Column>, legacy: map<string, Raw>)
    ensures FoldRow(x, bag, cols, legacy).Err? <==> exists i :: Spoils(x, bag, cols, legacy, i)
    decreases |cols|
  {
    if cols != [] {
      var c := cols[0];
      var rest := cols[1..];
      if c.metaKey !in bag && Offer(x, legacy, c).Err? {
        assert Spoils(x, bag, cols, legacy, 0);
      } else {
        var next := if c.metaKey !in bag && Offer(x, legacy, c).value.Some?
                    then bag[c.metaKey := Offer(x, legacy, c).value.value] else bag;
        FoldRowFails(x, next, rest, legacy);
        if i :| Spoils(x, next, rest, legacy, i) {
          assert cols[i+1] == rest[i];
          forall j | 0 <= j < i + 1 ensures !Offers(x, legacy, cols[j], cols[i+1].metaKey) {
            if j > 0 { assert cols[j] == rest[j-1]; }
          }
          assert Spoils(x, bag, cols, legacy, i + 1);
        }
        if i :| Spoils(x, bag, cols, legacy, i) {
          assert i > 0 && rest[i-1] == cols[i];
          assert forall j :: 0 <= j < i - 1 ==> rest[j] == cols[j+1];
          assert !Offers(x, legacy, cols[0], cols[i].metaKey);
          assert Spoils(x, next, rest, legacy, i - 1);
        }
      }
    }
  }

  /** The fold of a bag that is a JSON null: it decodes to a nil map, and the first value to be written
      into that crashes the program. */
  function FoldNull(x: Codec, cols: seq<Column>, legacy: map<string, Raw>): Result<Bag>
    decreases |cols|
  {
    if cols == [] then Ok(map[])
    else
      match Offer(x, legacy, cols[0])
      case Err(e) => Err(e)
      case Ok(None) => FoldNull(x, cols[1..], legacy)
      case Ok(Some(_)) => Err(NilBag)
  }

  /** Every column before `i` is decoded and has no value. */
  ghost predicate NothingBefore(x: Codec, cols: seq<Column>, legacy: map<string, Raw>, i: int) {
    0 <= i <= |cols| && forall j :: 0 <= j < i ==> Offer(x, legacy, cols[j]) == Ok(None)
  }

  /** Column `i` has a value, and none before it has one or cannot be decoded. */
  ghost predicate Crashes(x: Codec, cols: seq<Column>, legacy: map<string, Raw>, i: int) {
    0 <= i < |cols| && Offers(x, legacy, cols[i], cols[i].metaKey) && NothingBefore(x, cols, legacy, i)
  }

  lemma NothingBeforeShift(x: Codec, cols: seq<Column>, legacy: map<string, Raw>, i: nat)
    requires cols != [] && i < |cols|
    ensures NothingBefore(x, cols, legacy, i + 1) <==>
            Offer(x, legacy, cols[0]) == Ok(None) && NothingBefore(x, cols[1..], legacy, i)
  {
    assert forall j :: 0 <= j < |cols| - 1 ==> cols[1..][j] == cols[j+1];
    if Offer(x, legacy, cols[0]) == Ok(None) && NothingBefore(x, cols[1..], legacy, i) {
      forall j | 0 <= j < i + 1 ensures Offer(x, legacy, cols[j]) == Ok(None) {
        if j > 0 {
          assert cols[j] == cols[1..][j-1];
        }
      }
    }
  }

  lemma CrashesTail(x: Codec, cols: seq<Column>, legacy: map<string, Raw>)
    requires cols != [] && Offer(x, legacy, cols[0]) == Ok(None)
    ensures (exists i :: Crashes(x, cols, legacy, i)) <==> exists i :: Crashes(x, cols[1..], legacy, i)
  {
    if i :| Crashes(x, cols, legacy, i) {
      assert i > 0 && cols[1..][i-1] == cols[i];
      NothingBeforeShift(x, cols, legacy, i - 1);
      assert Crashes(x, cols[1..], legacy, i - 1);
    }
    if i :| Crashes(x, cols[1..], legacy, i) {
      assert cols[i+1] == cols[1..][i];
      NothingBeforeShift(x, cols, legacy, i);
      assert Crashes(x, cols, legacy, i + 1);
    }
  }

  /** A null bag folds, unchanged, if and only if every column is decoded and has no value. The program
      crashes if and only if some column has a value and every one before it is decoded and has none; in
      what is left a column that comes before any value cannot be decoded, and the fold fails. */
  lemma {:induction false} NullFoldsExactly(x: Codec, cols: seq<Column>, legacy: map<string, Raw>)
    ensures FoldNull(x, cols, legacy).Ok? <==> NothingBefore(x, cols, legacy, |cols|)
    ensures FoldNull(x, cols, legacy).Ok? ==> FoldNull(x, cols, legacy) == Ok(map[])
    ensures FoldNull(x, cols, legacy) == Err(NilBag) <==> exists i :: Crashes(x, cols, legacy, i)
    decreases |cols|
  {
    if cols != [] {
      match Offer(x, legacy, cols[0])
      case Err(_) =>
      case Ok(None) =>
        NullFoldsExactly(x, cols[1..], legacy);
        NothingBeforeShift(x, cols, legacy, |cols| - 1);
        CrashesTail(x, cols, legacy);
      case Ok(Some(_)) => assert Crashes(x, cols, legacy, 0);
    }
  }

  // ------------------------------------------------------------------ whole database

  function Present(columns: map<string, Raw>, cols: seq<Column>): seq<Column> {
    if cols == [] then []
    else (if cols[0].name in columns then [cols[0]] else []) + Present(columns, cols[1..])
  }

  function FoldMeta(x: Codec, row: Row, cols: seq<Column>): Result<Bag> {
    if row.meta.content.None? then Err(MalformedMetadata)
    else if row.meta.isNull then FoldNull(x, cols, row.legacy)
    else FoldRow(x, row.meta.content.value, cols, row.legacy)
  }

  ghost predicate FoldsAll(x: Codec, rows: map<string, Row>, cols: seq<Column>) {
    forall fp :: fp in rows ==> FoldMeta(x, rows[fp], cols).Ok?
  }

  /** Whether the fold is still to be done, and has something to fold. */
  predicate FoldDue(d: DB, cols: seq<Column>) {
    cols != [] && !(LEGACY_MARKER in d.meta && d.meta[LEGACY_MARKER] == "1")
  }

  function Folded(x: Codec, rows: map<string, Row>, cols: seq<Column>): map<string, Row> {
    map fp | fp in rows ::
      if FoldMeta(x, rows[fp], cols).Ok? then rows[fp].(meta := EncodeMeta(x, FoldMeta(x, rows[fp], cols).value))
      else rows[fp]
  }

  ghost predicate MigrateFails(x: Codec, d: DB, cols: seq<Column>) {
    FoldDue(d, cols) && Present(d.columns, cols) != [] && !FoldsAll(x, d.rows, Present(d.columns, cols))
  }

  function Migrated(x: Codec, d: DB, cols: seq<Column>): DB {
    if !FoldDue(d, cols) then d
    else
      var p := Present(d.columns, cols);
      d.(rows := if p == [] then d.rows else Folded(x, d.rows, p), meta := d.meta[LEGACY_MARKER := "1"])
  }

  const EMPTY_META := MetaText(2, false, Some(map[]))

  /** Oversized metadata is discarded; every history keeps its first 128. */
  function Bounded(d: DB): DB {
    d.(rows := map fp | fp in d.rows ::
                 if d.rows[fp].meta.length > MAX_METADATA then d.rows[fp].(meta := EMPTY_META) else d.rows[fp],
       ips := TrimAll(d.ips, Less, MAX_VALUES),
       ports := TrimAll(d.ports, IntLess, MAX_VALUES),
       sightings := TrimAll(d.sightings, NewestFirst, MAX_VALUES))
  }

  /** The database as Open leaves it, when the fold succeeds. */
  function Opened(x: Codec, d: DB, cols: seq<Column>): DB {
    Bounded(Migrated(x, d, cols))
  }

  /** Every bound holds, however much the fold has just grown the metadata. */
  ghost predicate WithinBounds(d: DB) {
    && (forall fp :: fp in d.rows ==> d.rows[fp].meta.length <= MAX_METADATA)
    && (forall fp :: |ValuesOf(d.ips, fp)| <= MAX_VALUES)
    && (forall fp :: |ValuesOf(d.ports, fp)| <= MAX_VALUES)
    && (forall fp :: |ValuesOf(d.sightings, fp)| <= MAX_VALUES)
  }

  lemma OpenEstablishesBounds(x: Codec, d: DB, cols: seq<Column>)
    ensures WithinBounds(Opened(x, d, cols))
    ensures Bounded(Opened(x, d, cols)) == Opened(x, d, cols)
    ensures forall fp :: HistoryOf(Opened(x, d, cols), fp) == Trimmed(HistoryOf(d, fp))
  {
    TextIsTotal();
    IntIsTotal();
    NewestFirstIsTotal();
    BulkTrimBounds(d.ips, Less, MAX_VALUES);
    BulkTrimBounds(d.ports, IntLess, MAX_VALUES);
    BulkTrimBounds(d.sightings, NewestFirst, MAX_VALUES);
    var o := Opened(x, d, cols);
    assert Bounded(o).rows == o.rows;
    forall fp ensures HistoryOf(o, fp) == Trimmed(HistoryOf(d, fp)) {
      TrimAllValues(d.ips, Less, MAX_VALUES, fp);
      TrimAllValues(d.ports, IntLess, MAX_VALUES, fp);
      TrimAllValues(d.sightings, NewestFirst, MAX_VALUES, fp);
    }
  }

  ghost predicate OnlyMetaDiffers(was: DB, now: DB) {
    && now.rows.Keys == was.rows.Keys
    && forall fp :: fp in was.rows ==> now.rows[fp] == was.rows[fp].(meta := now.rows[fp].meta)
  }

  lemma MigratedOnlyMeta(x: Codec, d: DB, cols: seq<Column>)
    ensures var m := Migrated(x, d, cols);
            && OnlyMetaDiffers(d, m) && m.columns == d.columns && m.ips == d.ips && m.ports == d.ports
            && m.sightings == d.sightings && m.meta - {LEGACY_MARKER} == d.meta - {LEGACY_MARKER}
  {
  }

  lemma BoundedOnlyMeta(d: DB)
    ensures var b := Bounded(d);
            && OnlyMetaDiffers(d, b) && b.columns == d.columns && b.meta == d.meta
            && b.ips <= d.ips && b.ports <= d.ports && b.sightings <= d.sightings
  {
  }

  /** Opening changes only metadata and history: verdicts, labels, scopes, stamps and counts survive. */
  lemma OpenKeepsVerdicts(x: Codec, d: DB, cols: seq<Column>)
    ensures var o := Opened(x, d, cols);
            && OnlyMetaDiffers(d, o) && o.columns == d.columns
            && (forall k :: k != LEGACY_MARKER ==>
                  (k in o.meta <==> k in d.meta) && (k in d.meta ==> o.meta[k] == d.meta[k]))
            && o.ips <= d.ips && o.ports <= d.ports && o.sightings <= d.sightings
  {
    var m := Migrated(x, d, cols);
    MigratedOnlyMeta(x, d, cols);
    BoundedOnlyMeta(m);
    forall k | k != LEGACY_MARKER ensures (k in m.meta <==> k in d.meta) && (k in d.meta ==> m.meta[k] == d.meta[k]) {
      assert k in m.meta - {LEGACY_MARKER} <==> k in d.meta - {LEGACY_MARKER};
    }
  }

  /** An open that fails between the fold and the bounds is made good by the next one, with any mappings. */
  lemma OpenRetried(x: Codec, d: DB, cols: seq<Column>, again: seq<Column>)
    requires cols != []
    ensures !MigrateFails(x, Migrated(x, d, cols), again)
            && Opened(x, Migrated(x, d, cols), again) == Opened(x, d, cols)
  {
    assert Migrated(x, Migrated(x, d, cols), again) == Migrated(x, d, cols);
  }

  /** The fold runs once, and opening again changes nothing. */
  lemma FoldsOnce(x: Codec, d: DB, cols: seq<Column>, again: seq<Column>)
    requires cols != []
    ensures Migrated(x, Migrated(x, d, cols), again) == Migrated(x, d, cols)
    ensures Opened(x, Opened(x, d, cols), again) == Opened(x, d, cols)
  {
    var o := Opened(x, d, cols);
    assert Migrated(x, o, again) == o;
    OpenEstablishesBounds(x, d, cols);
  }

  // ---------------------------------------------------- what is decoded, and for whom

  /** What each kind of column offers: a NULL nothing; a flag true unless it is empty or "0"; a text itself
      unless it is empty; JSON its value unless it is blank or null, and an error if it is malformed. */
  lemma OffersByKind(x: Codec, legacy: map<string, Raw>, name: string, key: string)
    ensures var flag, text := Column(name, key, KindBool), Column(name, key, KindString);
            var json := Column(name, key, KindJson);
            if name in legacy && legacy[name].Text? then
              var raw := legacy[name].text;
              && Offer(x, legacy, flag) == Ok(Some(if raw == "" || raw == "0" then "false" else "true"))
              && Offer(x, legacy, text) == Ok(if raw == "" then None else Some(x.quote(raw)))
              && (Offer(x, legacy, json).Err? <==> !Blank(raw) && x.parse(raw).MalformedJson?)
              && (Offer(x, legacy, json) == Ok(None) <==> Blank(raw) || x.parse(raw).JsonNull?)
              && (!Blank(raw) && x.parse(raw).JsonValue? ==> Offer(x, legacy, json) == Ok(Some(x.parse(raw).text)))
            else
              forall kind :: Offer(x, legacy, Column(name, key, kind)) == Ok(None)
  {
    if name in legacy && legacy[name].Text? {
      BlankTrims(legacy[name].text);
    }
  }

  lemma BlankTrims(raw: string)
    ensures TrimSpace(raw) == "" <==> Blank(raw)
  {
    if Blank(raw) {
      assert raw + "" + "" == raw;
      TrimSpaceExactly(raw, "", "");
    } else {
      var i :| 0 <= i < |raw| && !IsSpace(raw[i]);
      var t := TrimLeft(raw);
      assert t != "" && !IsSpace(t[0]);
      TrimRightKeeps(t);
    }
  }

  /** Column `i` is the first that the database has and that offers a value for `key`. */
  ghost predicate Wins(x: Codec, columns: map<string, Raw>, cols: seq<Column>, legacy: map<string, Raw>, key: string,
                       i: int) {
    && 0 <= i < |cols| && cols[i].name in columns && Offers(x, legacy, cols[i], key)
    && forall j :: 0 <= j < i ==> !(cols[j].name in columns && Offers(x, legacy, cols[j], key))
  }

  /** Some column wins, and it offers `v`. */
  ghost predicate WinsWith(x: Codec, columns: map<string, Raw>, cols: seq<Column>, legacy: map<string, Raw>,
                           key: string,
                           v: string)
  {
    exists i :: Wins(x, columns, cols, legacy, key, i) && Offer(x, legacy, cols[i]) == Ok(Some(v))
  }

  lemma WinsShift(x: Codec, columns: map<string, Raw>, cols: seq<Column>, legacy: map<string, Raw>, key: string, i: int)
    requires cols != [] && 1 <= i
    ensures Wins(x, columns, cols, legacy, key, i) <==>
            !(cols[0].name in columns && Offers(x, legacy, cols[0], key))
            && Wins(x, columns, cols[1..], legacy, key, i - 1)
  {
    assert forall j :: 0 <= j < |cols| - 1 ==> cols[1..][j] == cols[j+1];
    if !(cols[0].name in columns && Offers(x, legacy, cols[0], key))
       && Wins(x, columns, cols[1..], legacy, key, i - 1) {
      forall j | 0 <= j < i ensures !(cols[j].name in columns && Offers(x, legacy, cols[j], key)) {
        if j > 0 { assert cols[1..][j-1] == cols[j]; }
      }
    }
  }

  lemma WinsWithHead(x: Codec, columns: map<string, Raw>, cols: seq<Column>, legacy: map<string, Raw>, key: string,
                     v: string)
    requires cols != []
    ensures WinsWith(x, columns, cols, legacy, key, v) <==>
            if cols[0].name in columns && Offers(x, legacy, cols[0], key) then Offer(x, legacy, cols[0]) == Ok(Some(v))
            else WinsWith(x, columns, cols[1..], legacy, key, v)
  {
    if cols[0].name in columns && Offers(x, legacy, cols[0], key) {
      assert Wins(x, columns, cols, legacy, key, 0);
    } else {
      if i :| Wins(x, columns, cols, legacy, key, i) && Offer(x, legacy, cols[i]) == Ok(Some(v)) {
        WinsShift(x, columns, cols, legacy, key, i);
        assert cols[1..][i-1] == cols[i];
      }
      if i :| Wins(x, columns, cols[1..], legacy, key, i) && Offer(x, legacy, cols[1..][i]) == Ok(Some(v)) {
        WinsShift(x, columns, cols, legacy, key, i + 1);
        assert cols[1..][i] == cols[i+1];
      }
    }
  }

  ghost predicate FoldsTo(x: Codec, columns: map<string, Raw>, bag: Bag, cols: seq<Column>, legacy: map<string, Raw>,
                          out: Bag)
  {
    && (forall key :: key in bag ==> key in out && out[key] == bag[key])
    && (forall key :: key in out && key !in bag ==> WinsWith(x, columns, cols, legacy, key, out[key]))
    && (forall key, v :: key !in bag && WinsWith(x, columns, cols, legacy, key, v) ==> key in out && out[key] == v)
  }

  lemma FoldsToHead(x: Codec, columns: map<string, Raw>, bag: Bag, cols: seq<Column>, legacy: map<string, Raw>,
                    out: Bag,
                    next: Bag)
    requires cols != [] && FoldsTo(x, columns, next, cols[1..], legacy, out)
    requires var c := cols[0];
             if c.name in columns && c.metaKey !in bag && Offer(x, legacy, c).Ok? && Offer(x, legacy, c).value.Some?
             then next == bag[c.metaKey := Offer(x, legacy, c).value.value] else next == bag
    ensures FoldsTo(x, columns, bag, cols, legacy, out)
  {
    forall key, v ensures WinsWith(x, columns, cols, legacy, key, v) <==>
                          if cols[0].name in columns && Offers(x, legacy, cols[0], key)
                          then Offer(x, legacy, cols[0]) == Ok(Some(v))
                          else WinsWith(x, columns, cols[1..], legacy, key, v) {
      WinsWithHead(x, columns, cols, legacy, key, v);
    }
  }

  lemma {:induction false} PresentFolds(x: Codec, columns: map<string, Raw>, bag: Bag, cols: seq<Column>,
                                        legacy: map<string, Raw>)
    requires FoldRow(x, bag, Present(columns, cols), legacy).Ok?
    ensures FoldsTo(x, columns, bag, cols, legacy, FoldRow(x, bag, Present(columns, cols), legacy).value)
    decreases |cols|
  {
    if cols != [] {
      var c, rest := cols[0], Present(columns, cols[1..]);
      var out := FoldRow(x, bag, Present(columns, cols), legacy).value;
      if c.name in columns {
        assert Present(columns, cols)[1..] == rest;
      } else {
        assert Present(columns, cols) == rest;
      }
      var usable := c.name in columns && c.metaKey !in bag
                    && Offer(x, legacy, c).Ok? && Offer(x, legacy, c).value.Some?;
      var next := if usable then bag[c.metaKey := Offer(x, legacy, c).value.value] else bag;
      PresentFolds(x, columns, next, cols[1..], legacy);
      FoldsToHead(x, columns, bag, cols, legacy, out, next);
    }
  }

  /** The fold of a whole database, in its own words: unless it was done before or nothing is mapped, every
      row keeps each key it has and gains each other key from the first of its columns that has a value. */
  lemma MigratedBags(x: Codec, d: DB, cols: seq<Column>, fp: string)
    requires cols != [] && !(LEGACY_MARKER in d.meta && d.meta[LEGACY_MARKER] == "1")
    requires !MigrateFails(x, d, cols) && fp in d.rows && d.rows[fp].meta.content.Some? && !d.rows[fp].meta.isNull
    ensures var m := Migrated(x, d, cols);
            && fp in m.rows && m.rows[fp].meta.content.Some? && m.meta == d.meta[LEGACY_MARKER := "1"]
            && FoldsTo(x, d.columns, d.rows[fp].meta.content.value, cols, d.rows[fp].legacy,
                       m.rows[fp].meta.content.value)
  {
    var bag, legacy := d.rows[fp].meta.content.value, d.rows[fp].legacy;
    PresentFolds(x, d.columns, bag, cols, legacy);
  }
}
