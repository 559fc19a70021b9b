/** The fingerprint database as values: rows, the three history tables that refer to them, and metadata. */
module Tables {
  import opened Options
  import opened Order
  import opened Approval

  const MAX_METADATA := 64 * 1024
  const MAX_VALUES := 128

  datatype Status = Pending | Approved | Blocked | Unrecognized(text: string)

  predicate ValidStatus(s: Status) {
    !s.Unrecognized?
  }

  /** A protocol-specific bag: keys to encoded JSON values. */
  type Bag = map<string, string>

  /** The text of a metadata column: its length in bytes, whether it is a JSON null, and the bag it reads as,
      None if it is neither an object nor null. */
  datatype MetaText = MetaText(length: nat, isNull: bool, content: Option<Bag>)

  /** A value of a typed column from before the bag. */
  datatype Raw = Null | Text(text: string)

  /** Timestamps are stored text; the database orders them as text. */
  datatype Row = Row(status: Status, labelText: string, scope: Option<Scope>, firstSeen: string, lastSeen: string,
                     count: int, meta: MetaText, legacy: map<string, Raw>)

  datatype Sighting = Sighting(ip: string, port: int, lastSeen: string)

  /** A row of a history table: it belongs to the fingerprint `fp`. */
  datatype Child<V> = Child(fp: string, value: V)

  datatype DB = DB(rows: map<string, Row>, ips: set<Child<string>>, ports: set<Child<int>>,
                   sightings: set<Child<Sighting>>, columns: map<string, Raw>, meta: map<string, string>)

  // --------------------------------------------------------------- history tables

  function ValuesOf<V>(t: set<Child<V>>, fp: string): set<V> {
    set c | c in t && c.fp == fp :: c.value
  }

  /** `DELETE ... WHERE fp = ? AND value IN (SELECT ... ORDER BY ... LIMIT -1 OFFSET n)`. */
  function TrimOne<V(==)>(t: set<Child<V>>, fp: string, lt: (V, V) -> bool, n: nat): set<Child<V>> {
    set c | c in t && (c.fp != fp || c.value in First(ValuesOf(t, fp), lt, n))
  }

  /** `DELETE ... WHERE ROW_NUMBER() OVER (PARTITION BY fp ORDER BY ...) > n`. */
  function TrimAll<V(==)>(t: set<Child<V>>, lt: (V, V) -> bool, n: nat): set<Child<V>> {
    set c | c in t && c.value in First(ValuesOf(t, c.fp), lt, n)
  }

  function TrimEach<V(==)>(t: set<Child<V>>, fps: seq<string>, lt: (V, V) -> bool, n: nat): set<Child<V>> {
    if fps == [] then t else TrimEach(TrimOne(t, fps[0], lt, n), fps[1..], lt, n)
  }

  lemma SameTable<V>(a: set<Child<V>>, b: set<Child<V>>)
    requires forall fp :: ValuesOf(a, fp) == ValuesOf(b, fp)
    ensures a == b
  {
    forall c ensures c in a <==> c in b {
      assert c.value in ValuesOf(a, c.fp) <==> c in a by {
        if c.value in ValuesOf(a, c.fp) { var d :| d in a && d.fp == c.fp && d.value == c.value; assert d == c; }
      }
      assert c.value in ValuesOf(b, c.fp) <==> c in b by {
        if c.value in ValuesOf(b, c.fp) { var d :| d in b && d.fp == c.fp && d.value == c.value; assert d == c; }
      }
    }
  }

  lemma InValues<V>(t: set<Child<V>>, fp: string, v: V)
    ensures v in ValuesOf(t, fp) <==> Child(fp, v) in t
  {
    if v in ValuesOf(t, fp) {
      var c :| c in t && c.fp == fp && c.value == v;
      assert c == Child(fp, v);
    }
  }

  lemma TrimOneValues<V>(t: set<Child<V>>, fp: string, lt: (V, V) -> bool, n: nat, g: string)
    ensures ValuesOf(TrimOne(t, fp, lt, n), g) == if g == fp then First(ValuesOf(t, fp), lt, n) else ValuesOf(t, g)
  {
    forall v ensures v in ValuesOf(TrimOne(t, fp, lt, n), g) <==>
                     v in (if g == fp then First(ValuesOf(t, fp), lt, n) else ValuesOf(t, g)) {
      InValues(TrimOne(t, fp, lt, n), g, v);
      InValues(t, g, v);
    }
  }

  lemma TrimAllValues<V>(t: set<Child<V>>, lt: (V, V) -> bool, n: nat, fp: string)
    ensures ValuesOf(TrimAll(t, lt, n), fp) == First(ValuesOf(t, fp), lt, n)
  {
    forall v ensures v in ValuesOf(TrimAll(t, lt, n), fp) <==> v in First(ValuesOf(t, fp), lt, n) {
      InValues(TrimAll(t, lt, n), fp, v);
      InValues(t, fp, v);
    }
  }

  lemma {:induction false} TrimEachValues<V>(t: set<Child<V>>, fps: seq<string>, lt: (V, V) -> bool, n: nat, g: string)
    requires forall i, j :: 0 <= i < j < |fps| ==> fps[i] != fps[j]
    ensures ValuesOf(TrimEach(t, fps, lt, n), g) == if g in fps then First(ValuesOf(t, g), lt, n) else ValuesOf(t, g)
    decreases |fps|
  {
    if fps != [] {
      TrimEachValues(TrimOne(t, fps[0], lt, n), fps[1..], lt, n, g);
      TrimOneValues(t, fps[0], lt, n, g);
      assert g == fps[0] ==> g !in fps[1..];
    }
  }

  /** The bulk trim of an old database equals trimming each fingerprint's history, in any order. */
  lemma BulkTrimIsEachTrim<V>(t: set<Child<V>>, fps: seq<string>, lt: (V, V) -> bool, n: nat)
    requires forall i, j :: 0 <= i < j < |fps| ==> fps[i] != fps[j]
    requires forall c :: c in t ==> c.fp in fps
    ensures TrimAll(t, lt, n) == TrimEach(t, fps, lt, n)
  {
    forall fp ensures ValuesOf(TrimAll(t, lt, n), fp) == ValuesOf(TrimEach(t, fps, lt, n), fp) {
      TrimAllValues(t, lt, n, fp);
      TrimEachValues(t, fps, lt, n, fp);
      if fp !in fps {
        assert ValuesOf(t, fp) == {};
      }
    }
    SameTable(TrimAll(t, lt, n), TrimEach(t, fps, lt, n));
  }

  /** After the bulk trim every history fits, and a second one changes nothing. */
  lemma BulkTrimBounds<V(!new)>(t: set<Child<V>>, lt: (V, V) -> bool, n: nat)
    requires TotalOrder(lt)
    ensures forall fp :: |ValuesOf(TrimAll(t, lt, n), fp)| == Min(n, |ValuesOf(t, fp)|)
    ensures TrimAll(TrimAll(t, lt, n), lt, n) == TrimAll(t, lt, n)
  {
    var a := TrimAll(t, lt, n);
    forall fp
      ensures |ValuesOf(a, fp)| == Min(n, |ValuesOf(t, fp)|)
      ensures ValuesOf(TrimAll(a, lt, n), fp) == ValuesOf(a, fp)
    {
      TrimAllValues(t, lt, n, fp);
      TrimAllValues(a, lt, n, fp);
      FirstSize(ValuesOf(t, fp), lt, n);
      FirstAll(ValuesOf(a, fp), lt, n);
    }
    SameTable(TrimAll(a, lt, n), a);
  }

  lemma AddValues<V>(t: set<Child<V>>, fp: string, v: V, g: string)
    ensures ValuesOf(t + {Child(fp, v)}, g) == if g == fp then ValuesOf(t, g) + {v} else ValuesOf(t, g)
  {
    forall w ensures w in ValuesOf(t + {Child(fp, v)}, g) <==>
           w in (if g == fp then ValuesOf(t, g) + {v} else ValuesOf(t, g)) {
      InValues(t + {Child(fp, v)}, g, w);
      InValues(t, g, w);
    }
  }

  // ------------------------------------------------------ one fingerprint's history

  /** `ORDER BY last_seen DESC, ip, port`. */
  predicate NewestFirst(a: Sighting, b: Sighting) {
    if a.lastSeen != b.lastSeen then Less(b.lastSeen, a.lastSeen)
    else if a.ip != b.ip then Less(a.ip, b.ip)
    else a.port < b.port
  }

  lemma NewestFirstIsTotal()
    ensures TotalOrder(NewestFirst)
  {
    TextIsTotal();
    forall a, b, c | NewestFirst(a, b) && NewestFirst(b, c) ensures NewestFirst(a, c) {
      if Less(c.lastSeen, b.lastSeen) && Less(b.lastSeen, a.lastSeen) {
        LessTransitive(c.lastSeen, b.lastSeen, a.lastSeen);
        LessIrreflexive(a.lastSeen);
      }
      if Less(a.ip, b.ip) && Less(b.ip, c.ip) { LessTransitive(a.ip, b.ip, c.ip); LessIrreflexive(a.ip); }
      if a.lastSeen == c.lastSeen && a.lastSeen != b.lastSeen { LessAsymmetric(b.lastSeen, a.lastSeen); }
      if a.ip == c.ip && a.ip != b.ip && Less(a.ip, b.ip) { LessAsymmetric(a.ip, b.ip); }
    }
    forall a, b: Sighting ensures a == b || NewestFirst(a, b) || NewestFirst(b, a) {
      LessConnected(a.lastSeen, b.lastSeen);
      LessConnected(a.ip, b.ip);
    }
  }

  datatype History = History(ips: set<string>, ports: set<int>, sightings: set<Sighting>)

  const NO_HISTORY := History({}, {}, {})

  function HistoryOf(d: DB, fp: string): History {
    History(ValuesOf(d.ips, fp), ValuesOf(d.ports, fp), ValuesOf(d.sightings, fp))
  }

  function Trimmed(h: History): History {
    History(First(h.ips, Less, MAX_VALUES), First(h.ports, IntLess, MAX_VALUES),
            First(h.sightings, NewestFirst, MAX_VALUES))
  }

  /** The latest sighting of each source pair. */
  function Refreshed(s: set<Sighting>, latest: Sighting): set<Sighting> {
    (set x | x in s && (x.ip != latest.ip || x.port != latest.port)) + {latest}
  }

  /** Everything one observation adds, before any trimming. Empty addresses and port 0 are not kept. */
  function Extended(h: History, ip: string, port: int, now: string): History {
    History(if ip != "" then h.ips + {ip} else h.ips,
            if port != 0 then h.ports + {port} else h.ports,
            if ip != "" then Refreshed(h.sightings, Sighting(ip, port, now)) else h.sightings)
  }

  /** One sighting per source pair: the table's primary key. */
  ghost predicate KeyedByPair(s: set<Sighting>) {
    forall x, y :: x in s && y in s && x.ip == y.ip && x.port == y.port ==> x == y
  }

  /** The pair of `x` is still kept among the first `n`, and a dropped sighting does not sort after `x`. */
  ghost predicate Overtakes(s: set<Sighting>, x: Sighting, n: nat) {
    exists o, d :: && o in First(s, NewestFirst, n) && o.ip == x.ip && o.port == x.port
                   && d in s && d !in First(s, NewestFirst, n) && !NewestFirst(x, d)
  }

  /** Trimming before as well as after an observation keeps the sightings that one trim after it would
      keep, if and only if it is not the case that the refreshed pair was still kept and a dropped
      sighting now sorts before it, which takes a stamp that sorts before the pair's previous one. */
  lemma TrimStepExact(s: set<Sighting>, x: Sighting, n: nat)
    requires KeyedByPair(s)
    ensures First(Refreshed(First(s, NewestFirst, n), x), NewestFirst, n) == First(Refreshed(s, x), NewestFirst, n)
            <==> !Overtakes(s, x, n)
  {
    NewestFirstIsTotal();
    var f := First(s, NewestFirst, n);
    if o :| o in s && o.ip == x.ip && o.port == x.port {
      assert Refreshed(s, x) == s - {o} + {x};
      if o in f {
        assert Refreshed(f, x) == f - {o} + {x};
        FirstReplace(s, NewestFirst, n, o, x);
      } else {
        assert Refreshed(f, x) == f + {x};
        FirstWithout(s, NewestFirst, n, o);
        FirstInsert(s - {o}, NewestFirst, n, x);
      }
    } else {
      assert Refreshed(s, x) == s + {x} && Refreshed(f, x) == f + {x};
      FirstInsert(s, NewestFirst, n, x);
    }
  }

  /** A source pair is never stamped earlier than before, in the stored order. */
  ghost predicate Forward(s: set<Sighting>, x: Sighting) {
    forall o :: o in s && o.ip == x.ip && o.port == x.port ==> AtMost(o.lastSeen, x.lastSeen)
  }

  lemma TrimStep(h: History, ip: string, port: int, now: string)
    requires KeyedByPair(h.sightings) && Forward(h.sightings, Sighting(ip, port, now))
    ensures Trimmed(Extended(Trimmed(h), ip, port, now)) == Trimmed(Extended(h, ip, port, now))
  {
    TextIsTotal();
    IntIsTotal();
    NewestFirstIsTotal();
    FirstInsert(h.ips, Less, MAX_VALUES, ip);
    FirstInsert(h.ports, IntLess, MAX_VALUES, port);
    TrimTwice(h);
    var s, x := h.sightings, Sighting(ip, port, now);
    var f := First(s, NewestFirst, MAX_VALUES);
    forall o, d | o in f && o.ip == ip && o.port == port && d in s && d !in f ensures NewestFirst(x, d) {
      FirstBefore(s, NewestFirst, MAX_VALUES, o, d);
      assert x == o || NewestFirst(x, o) by { LessIrreflexive(now); }
    }
    TrimStepExact(s, x, MAX_VALUES);
  }

  lemma TrimTwice(h: History)
    ensures Trimmed(Trimmed(h)) == Trimmed(h)
  {
    TextIsTotal();
    IntIsTotal();
    NewestFirstIsTotal();
    FirstSize(h.ips, Less, MAX_VALUES);
    FirstSize(h.ports, IntLess, MAX_VALUES);
    FirstSize(h.sightings, NewestFirst, MAX_VALUES);
    FirstAll(Trimmed(h).ips, Less, MAX_VALUES);
    FirstAll(Trimmed(h).ports, IntLess, MAX_VALUES);
    FirstAll(Trimmed(h).sightings, NewestFirst, MAX_VALUES);
  }

  /** What was seen of one fingerprint, in order. */
  datatype Seen = Seen(ip: string, port: int, now: string)

  function AllSeen(h: History, seen: seq<Seen>): History {
    if seen == [] then h
    else var s := seen[|seen|-1]; Extended(AllSeen(h, seen[..|seen|-1]), s.ip, s.port, s.now)
  }

  function SeenTrimming(h: History, seen: seq<Seen>): History {
    if seen == [] then h
    else var s := seen[|seen|-1]; Trimmed(Extended(SeenTrimming(h, seen[..|seen|-1]), s.ip, s.port, s.now))
  }

  /** The stamps of each source pair never decrease. */
  ghost predicate PairsForward(h: History, seen: seq<Seen>) {
    && (forall i, j :: 0 <= i < j < |seen| && seen[i].ip == seen[j].ip && seen[i].port == seen[j].port ==>
          AtMost(seen[i].now, seen[j].now))
    && (forall j :: 0 <= j < |seen| ==> Forward(h.sightings, Sighting(seen[j].ip, seen[j].port, seen[j].now)))
  }

  lemma {:induction false} AllSeenKeyed(h: History, seen: seq<Seen>)
    requires KeyedByPair(h.sightings)
    ensures var a := AllSeen(h, seen);
            && KeyedByPair(a.sightings)
            && forall x :: x in a.sightings ==> x in h.sightings || Seen(x.ip, x.port, x.lastSeen) in seen
  {
    if seen != [] {
      AllSeenKeyed(h, seen[..|seen|-1]);
    }
  }

  predicate SamePair(a: Seen, ip: string, port: int) {
    a.ip == ip && a.port == port
  }

  /** Observation `i` is the last of its source pair. */
  predicate LastOfPair(seen: seq<Seen>, i: int) {
    0 <= i < |seen| && forall j :: i < j < |seen| ==> !SamePair(seen[j], seen[i].ip, seen[i].port)
  }

  ghost predicate SeenPair(seen: seq<Seen>, ip: string, port: int) {
    exists i :: 0 <= i < |seen| && SamePair(seen[i], ip, port)
  }

  lemma LastOfPairSnoc(seen: seq<Seen>, s: Seen, i: int)
    requires 0 <= i < |seen|
    ensures LastOfPair(seen + [s], i) <==> LastOfPair(seen, i) && !SamePair(s, seen[i].ip, seen[i].port)
  {
    var all := seen + [s];
    assert all[|seen|] == s && all[i] == seen[i];
    assert forall j :: 0 <= j < |seen| ==> all[j] == seen[j];
    if LastOfPair(all, i) {
      assert !SamePair(all[|seen|], all[i].ip, all[i].port);
      forall j | i < j < |seen| ensures !SamePair(seen[j], seen[i].ip, seen[i].port) {
        assert !SamePair(all[j], all[i].ip, all[i].port);
      }
    }
  }

  /** Everything seen, told one by one: the addresses, the ports, and of each source pair the last
      sighting; empty addresses and port 0 are left out. */
  ghost predicate TellsAll(h: History, seen: seq<Seen>, a: History) {
    && (forall v :: v in a.ips <==> v in h.ips || (v != "" && exists i :: 0 <= i < |seen| && seen[i].ip == v))
    && (forall v :: v in a.ports <==> v in h.ports || (v != 0 && exists i :: 0 <= i < |seen| && seen[i].port == v))
    && (forall x :: x in a.sightings <==>
          || (x in h.sightings && (x.ip == "" || !SeenPair(seen, x.ip, x.port)))
          || (x.ip != "" && exists i :: LastOfPair(seen, i) && seen[i] == Seen(x.ip, x.port, x.lastSeen)))
  }

  lemma TellsAddress(h: History, seen: seq<Seen>, s: Seen, a: History, v: string)
    requires TellsAll(h, seen, a)
    ensures v in Extended(a, s.ip, s.port, s.now).ips <==>
            v in h.ips || (v != "" && exists i :: 0 <= i < |seen + [s]| && (seen + [s])[i].ip == v)
  {
    var all := seen + [s];
    assert all[|seen|] == s && forall i :: 0 <= i < |seen| ==> all[i] == seen[i];
  }

  lemma TellsPort(h: History, seen: seq<Seen>, s: Seen, a: History, v: int)
    requires TellsAll(h, seen, a)
    ensures v in Extended(a, s.ip, s.port, s.now).ports <==>
            v in h.ports || (v != 0 && exists i :: 0 <= i < |seen + [s]| && (seen + [s])[i].port == v)
  {
    var all := seen + [s];
    assert all[|seen|] == s && forall i :: 0 <= i < |seen| ==> all[i] == seen[i];
  }

  lemma SeenPairSnoc(seen: seq<Seen>, s: Seen, ip: string, port: int)
    ensures SeenPair(seen + [s], ip, port) <==> SeenPair(seen, ip, port) || SamePair(s, ip, port)
  {
    var all := seen + [s];
    assert all[|seen|] == s && forall i :: 0 <= i < |seen| ==> all[i] == seen[i];
    if i :| 0 <= i < |seen| && SamePair(seen[i], ip, port) {
      assert SamePair(all[i], ip, port);
    }
  }

  ghost predicate LastSeenAs(seen: seq<Seen>, x: Sighting) {
    exists i :: LastOfPair(seen, i) && seen[i] == Seen(x.ip, x.port, x.lastSeen)
  }

  lemma LastSeenSnoc(seen: seq<Seen>, s: Seen, x: Sighting)
    ensures LastSeenAs(seen + [s], x) <==>
            s == Seen(x.ip, x.port, x.lastSeen) || (LastSeenAs(seen, x) && !SamePair(s, x.ip, x.port))
  {
    var all := seen + [s];
    assert all[|seen|] == s && forall i :: 0 <= i < |seen| ==> all[i] == seen[i];
    assert LastOfPair(all, |seen|);
    if i :| LastOfPair(seen, i) && seen[i] == Seen(x.ip, x.port, x.lastSeen) {
      LastOfPairSnoc(seen, s, i);
      assert all[i] == seen[i];
    }
    if i :| LastOfPair(all, i) && all[i] == Seen(x.ip, x.port, x.lastSeen) {
      if i < |seen| {
        LastOfPairSnoc(seen, s, i);
      }
    }
  }

  lemma TellsSighting(h: History, seen: seq<Seen>, s: Seen, a: History, x: Sighting)
    requires TellsAll(h, seen, a)
    ensures x in Extended(a, s.ip, s.port, s.now).sightings <==>
            || (x in h.sightings && (x.ip == "" || !SeenPair(seen + [s], x.ip, x.port)))
            || (x.ip != "" && LastSeenAs(seen + [s], x))
  {
    SeenPairSnoc(seen, s, x.ip, x.port);
    LastSeenSnoc(seen, s, x);
    assert x in a.sightings <==>
           (x in h.sightings && (x.ip == "" || !SeenPair(seen, x.ip, x.port))) || (x.ip != "" && LastSeenAs(seen, x));
  }

  lemma {:induction false} AllSeenExactly(h: History, seen: seq<Seen>)
    ensures TellsAll(h, seen, AllSeen(h, seen))
  {
    if seen != [] {
      var init, s := seen[..|seen|-1], seen[|seen|-1];
      AllSeenExactly(h, init);
      assert seen == init + [s];
      var a := AllSeen(h, init);
      forall v: string { TellsAddress(h, init, s, a, v); }
      forall v: int { TellsPort(h, init, s, a, v); }
      forall x: Sighting { TellsSighting(h, init, s, a, x); }
    }
  }

  /** A trimmed history has at most 128 of each kind, all of them if they fit, and what it keeps comes before
      what it drops: smaller addresses, smaller ports, sightings no older. */
  lemma TrimmedKeepsFirst(h: History)
    ensures |Trimmed(h).ips| == Min(128, |h.ips|) && |Trimmed(h).ports| == Min(128, |h.ports|)
    ensures |Trimmed(h).sightings| == Min(128, |h.sightings|)
    ensures Trimmed(h).ips <= h.ips && Trimmed(h).ports <= h.ports && Trimmed(h).sightings <= h.sightings
    ensures forall a, b :: a in Trimmed(h).ips && b in h.ips && b !in Trimmed(h).ips ==> Less(a, b)
    ensures forall a, b :: a in Trimmed(h).ports && b in h.ports && b !in Trimmed(h).ports ==> a < b
    ensures forall a, b :: a in Trimmed(h).sightings && b in h.sightings && b !in Trimmed(h).sightings ==>
              AtMost(b.lastSeen, a.lastSeen)
  {
    TextIsTotal();
    IntIsTotal();
    NewestFirstIsTotal();
    FirstSize(h.ips, Less, MAX_VALUES);
    FirstSize(h.ports, IntLess, MAX_VALUES);
    FirstSize(h.sightings, NewestFirst, MAX_VALUES);
    forall a, b | a in Trimmed(h).ips && b in h.ips && b !in Trimmed(h).ips ensures Less(a, b) {
      FirstBefore(h.ips, Less, MAX_VALUES, a, b);
    }
    forall a, b | a in Trimmed(h).ports && b in h.ports && b !in Trimmed(h).ports ensures a < b {
      FirstBefore(h.ports, IntLess, MAX_VALUES, a, b);
    }
    forall a, b | a in Trimmed(h).sightings && b in h.sightings && b !in Trimmed(h).sightings
      ensures AtMost(b.lastSeen, a.lastSeen)
    {
      FirstBefore(h.sightings, NewestFirst, MAX_VALUES, a, b);
    }
  }

  /** Adding to what was kept keeps what adding to everything would. */
  lemma AddThenTrim<T(!new)>(s: set<T>, lt: (T, T) -> bool, n: nat, x: T)
    requires TotalOrder(lt)
    ensures First(First(s, lt, n), lt, n) == First(s, lt, n)
    ensures First(First(s, lt, n) + {x}, lt, n) == First(s + {x}, lt, n)
  {
    FirstSize(s, lt, n);
    FirstAll(First(s, lt, n), lt, n);
    FirstInsert(s, lt, n, x);
  }

  /** Addresses and ports lose nothing to repeated trimming, whatever the stamps: they are the smallest
      ever seen. */
  lemma {:induction false} TrimmingKeepsSmallest(h: History, seen: seq<Seen>)
    requires seen != [] || (|h.ips| <= MAX_VALUES && |h.ports| <= MAX_VALUES)
    ensures SeenTrimming(h, seen).ips == First(AllSeen(h, seen).ips, Less, MAX_VALUES)
    ensures SeenTrimming(h, seen).ports == First(AllSeen(h, seen).ports, IntLess, MAX_VALUES)
    decreases |seen|
  {
    TextIsTotal();
    IntIsTotal();
    if seen == [] {
      FirstAll(h.ips, Less, MAX_VALUES);
      FirstAll(h.ports, IntLess, MAX_VALUES);
    } else if |seen| > 1 {
      var init, s := seen[..|seen|-1], seen[|seen|-1];
      TrimmingKeepsSmallest(h, init);
      AddThenTrim(AllSeen(h, init).ips, Less, MAX_VALUES, s.ip);
      AddThenTrim(AllSeen(h, init).ports, IntLess, MAX_VALUES, s.port);
    }
  }

  /** Trimming on every observation loses nothing against trimming once: after any run the history is
      the first 128 of everything ever seen. */
  lemma {:induction false} TrimmingLosesNothing(h: History, seen: seq<Seen>)
    requires KeyedByPair(h.sightings) && PairsForward(h, seen) && seen != []
    ensures SeenTrimming(h, seen) == Trimmed(AllSeen(h, seen))
    decreases |seen|
  {
    var n := |seen| - 1;
    var init, s := seen[..n], seen[n];
    var x := Sighting(s.ip, s.port, s.now);
    AllSeenKeyed(h, init);
    assert Forward(AllSeen(h, init).sightings, x) by {
      forall o | o in AllSeen(h, init).sightings && o.ip == x.ip && o.port == x.port
        ensures AtMost(o.lastSeen, x.lastSeen)
      {
        if o !in h.sightings {
          var i :| 0 <= i < |init| && init[i] == Seen(o.ip, o.port, o.lastSeen);
          assert seen[i] == init[i];
        }
      }
    }
    if n > 0 {
      assert PairsForward(h, init) by {
        assert forall i :: 0 <= i < n ==> init[i] == seen[i];
      }
      TrimmingLosesNothing(h, init);
      TrimStep(AllSeen(h, init), s.ip, s.port, s.now);
    }
  }

  function SightingsAfter(s: set<Sighting>, t: Seen): set<Sighting> {
    if t.ip != "" then Refreshed(s, Sighting(t.ip, t.port, t.now)) else s
  }

  /** The observation `t`, when all of `s` was seen before, makes repeated trimming lose a sighting. */
  ghost predicate Loses(s: set<Sighting>, t: Seen) {
    t.ip != "" && Overtakes(s, Sighting(t.ip, t.port, t.now), MAX_VALUES)
  }

  lemma LossStepExactly(s: set<Sighting>, t: Seen)
    requires KeyedByPair(s)
    ensures var kept := First(s, NewestFirst, MAX_VALUES);
            var early, late := SightingsAfter(kept, t), SightingsAfter(s, t);
            First(early, NewestFirst, MAX_VALUES) == First(late, NewestFirst, MAX_VALUES) <==> !Loses(s, t)
  {
    if t.ip != "" {
      TrimStepExact(s, Sighting(t.ip, t.port, t.now), MAX_VALUES);
    } else {
      NewestFirstIsTotal();
      FirstSize(s, NewestFirst, MAX_VALUES);
      FirstAll(First(s, NewestFirst, MAX_VALUES), NewestFirst, MAX_VALUES);
    }
  }

  /** After `n` observations the kept sightings are the first 128 of all seen. */
  ghost predicate KeptAt(h: History, seen: seq<Seen>, n: int) {
    0 <= n <= |seen|
    && SeenTrimming(h, seen[..n]).sightings == First(AllSeen(h, seen[..n]).sightings, NewestFirst, MAX_VALUES)
  }

  ghost predicate LosesAt(h: History, seen: seq<Seen>, n: int) {
    0 <= n < |seen| && Loses(AllSeen(h, seen[..n]).sightings, seen[n])
  }

  lemma KeptStep(h: History, seen: seq<Seen>, n: nat)
    requires n < |seen| && KeyedByPair(h.sightings) && KeptAt(h, seen, n)
    ensures KeptAt(h, seen, n + 1) <==> !LosesAt(h, seen, n)
  {
    assert seen[..n+1][..n] == seen[..n];
    AllSeenKeyed(h, seen[..n]);
    LossStepExactly(AllSeen(h, seen[..n]).sightings, seen[n]);
  }

  lemma {:induction false} KeptUpTo(h: History, seen: seq<Seen>, n: nat)
    requires n <= |seen| && KeyedByPair(h.sightings) && |h.sightings| <= MAX_VALUES
    requires forall i :: 0 <= i < n ==> !LosesAt(h, seen, i)
    ensures KeptAt(h, seen, n)
  {
    if n == 0 {
      NewestFirstIsTotal();
      FirstAll(h.sightings, NewestFirst, MAX_VALUES);
    } else {
      KeptUpTo(h, seen, n - 1);
      KeptStep(h, seen, n - 1);
    }
  }

  /** The exact law over whole runs: the kept sightings are the first 128 of all seen throughout, if and
      only if no observation refreshes a kept pair with a stamp that a dropped sighting does not sort
      after. */
  lemma SightingsKeptExactly(h: History, seen: seq<Seen>)
    requires KeyedByPair(h.sightings) && |h.sightings| <= MAX_VALUES
    ensures (forall n :: 0 <= n <= |seen| ==> KeptAt(h, seen, n)) <==>
            (forall n :: 0 <= n < |seen| ==> !LosesAt(h, seen, n))
  {
    if forall n :: 0 <= n < |seen| ==> !LosesAt(h, seen, n) {
      forall n | 0 <= n <= |seen| ensures KeptAt(h, seen, n) {
        KeptUpTo(h, seen, n);
      }
    } else {
      var n :| 0 <= n < |seen| && LosesAt(h, seen, n);
      if KeptAt(h, seen, n) {
        KeptStep(h, seen, n);
      }
    }
  }
}
