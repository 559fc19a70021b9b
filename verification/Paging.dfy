/** Keyset pagination (store/limits.go) over a database that may change between pages. */
module Paging {
  import opened Order
  import opened Tables

  function InRange(rows: map<string, Row>, after: string, through: string): set<string> {
    set fp | fp in rows && Less(after, fp) && AtMost(fp, through)
  }

  /** `WHERE fp > after AND fp <= through ORDER BY fp LIMIT limit`. */
  ghost function PageKeys(rows: map<string, Row>, after: string, through: string, limit: nat): seq<string> {
    Sorted(First(InRange(rows, after, through), Less, limit), Less)
  }

  function LastOf(q: seq<string>): string {
    if q == [] then "" else q[|q|-1]
  }

  /** `COALESCE(MAX(fp), '')`. */
  ghost function LastKey(rows: map<string, Row>): string {
    LastOf(Sorted(rows.Keys, Less))
  }

  lemma LastOfGreatest(q: seq<string>, fp: string)
    requires Ascending(q, Less) && fp in Members(q)
    ensures AtMost(fp, LastOf(q)) && LastOf(q) in Members(q)
  {
    var i :| 0 <= i < |q| && q[i] == fp;
    assert q[|q|-1] in Members(q);
  }

  lemma LastKeyIsGreatest(rows: map<string, Row>, fp: string)
    requires fp in rows
    ensures AtMost(fp, LastKey(rows)) && LastKey(rows) in rows
  {
    SortedText(rows.Keys);
    LastOfGreatest(Sorted(rows.Keys, Less), fp);
  }

  lemma PageFacts(rows: map<string, Row>, after: string, through: string, limit: nat)
    ensures var p, k := PageKeys(rows, after, through, limit), InRange(rows, after, through);
            && Ascending(p, Less) && |p| == Min(limit, |k|)
            && (forall i :: 0 <= i < |p| ==> p[i] in k)
            && (forall fp :: fp in k && fp !in p ==> p == [] || Less(p[|p|-1], fp))
            && (limit > 0 && p == [] ==> k == {})
  {
    var k := InRange(rows, after, through);
    var f := First(k, Less, limit);
    var p := PageKeys(rows, after, through, limit);
    TextIsTotal();
    FirstSize(k, Less, limit);
    SortedCorrect(f, Less);
    assert forall i :: 0 <= i < |p| ==> p[i] in Members(p);
    forall fp | fp in k && fp !in p && p != [] ensures Less(p[|p|-1], fp) {
      assert fp !in Members(p);
      FirstBefore(k, Less, limit, p[|p|-1], fp);
    }
  }

  /** The keys that a cycle visits when the n-th page is read from `views[n]`: pages follow one another
      until one is empty or the reads end. */
  ghost function Visited(views: seq<map<string, Row>>, after: string, through: string, limit: nat): seq<string>
    decreases |views|
  {
    if views == [] then []
    else
      var p := PageKeys(views[0], after, through, limit);
      if p == [] then [] else p + Visited(views[1..], p[|p|-1], through, limit)
  }

  /** Whether an empty page ends the cycle. */
  ghost predicate Completes(views: seq<map<string, Row>>, after: string, through: string, limit: nat)
    decreases |views|
  {
    views != [] &&
    var p := PageKeys(views[0], after, through, limit);
    p == [] || Completes(views[1..], p[|p|-1], through, limit)
  }

  ghost predicate Between(q: seq<string>, after: string, through: string) {
    Ascending(q, Less) && forall i :: 0 <= i < |q| ==> Less(after, q[i]) && AtMost(q[i], through)
  }

  lemma PageThenRest(p: seq<string>, rest: seq<string>, after: string, through: string)
    requires p != [] && Between(p, after, through) && Between(rest, p[|p|-1], through)
    ensures Between(p + rest, after, through)
  {
    AscendingAppend(p, rest);
    forall j | 0 <= j < |rest| ensures Less(after, rest[j]) {
      LessTransitive(after, p[|p|-1], rest[j]);
    }
  }

  /** Visited keys strictly increase, so none is visited twice; all lie after the start and none
      exceeds the bound fixed at the start. */
  lemma {:induction false} VisitedAscends(views: seq<map<string, Row>>, after: string, through: string, limit: nat)
    ensures Between(Visited(views, after, through, limit), after, through)
    decreases |views|
  {
    if views != [] {
      var p := PageKeys(views[0], after, through, limit);
      PageFacts(views[0], after, through, limit);
      if p != [] {
        var rest := Visited(views[1..], p[|p|-1], through, limit);
        VisitedAscends(views[1..], p[|p|-1], through, limit);
        PageThenRest(p, rest, after, through);
      }
    }
  }

  lemma AscendingAppend(p: seq<string>, q: seq<string>)
    requires p != [] && Ascending(p, Less) && Ascending(q, Less)
    requires forall j :: 0 <= j < |q| ==> Less(p[|p|-1], q[j])
    ensures Ascending(p + q, Less)
  {
    forall i, j | 0 <= i < j < |p + q| ensures Less((p + q)[i], (p + q)[j]) {
      if i < |p| - 1 && j >= |p| {
        LessTransitive(p[i], p[|p|-1], q[j - |p|]);
      }
    }
  }

  /** Whatever is inserted, removed or changed between pages, a completed cycle visits every key within
      the bound that every read finds. */
  lemma {:induction false} CompletedVisitsAll(views: seq<map<string, Row>>, after: string, through: string,
                                              limit: nat, fp: string)
    requires limit > 0 && Completes(views, after, through, limit)
    requires forall i :: 0 <= i < |views| ==> fp in views[i]
    requires Less(after, fp) && AtMost(fp, through)
    ensures fp in Visited(views, after, through, limit)
    decreases |views|
  {
    var p := PageKeys(views[0], after, through, limit);
    PageFacts(views[0], after, through, limit);
    assert fp in InRange(views[0], after, through);
    if fp !in p {
      assert forall i :: 0 <= i < |views[1..]| ==> views[1..][i] == views[i+1];
      CompletedVisitsAll(views[1..], p[|p|-1], through, limit, fp);
    }
  }

  /** A visited key was found by the read of its page. */
  lemma {:induction false} VisitedWasRead(views: seq<map<string, Row>>, after: string, through: string, limit: nat,
                                          fp: string)
    requires fp in Visited(views, after, through, limit)
    ensures exists i :: 0 <= i < |views| && fp in views[i]
    decreases |views|
  {
    var p := PageKeys(views[0], after, through, limit);
    PageFacts(views[0], after, through, limit);
    if fp !in p {
      VisitedWasRead(views[1..], p[|p|-1], through, limit, fp);
      var i :| 0 <= i < |views[1..]| && fp in views[1..][i];
      assert views[i+1] == views[1..][i];
    } else {
      assert fp in views[0];
    }
  }

  function Ahead(universe: set<string>, after: string, through: string): set<string> {
    set fp | fp in universe && Less(after, fp) && AtMost(fp, through)
  }

  /** Every full or partial page uses up keys, so over a finite set of possible keys a cycle ends: one
      read more than the keys ahead is enough. */
  lemma {:induction false} PagesRunOut(views: seq<map<string, Row>>, universe: set<string>, after: string,
                                       through: string, limit: nat)
    requires limit > 0 && |views| > |Ahead(universe, after, through)|
    requires forall i :: 0 <= i < |views| ==> views[i].Keys <= universe
    ensures Completes(views, after, through, limit)
    decreases |views|
  {
    var p := PageKeys(views[0], after, through, limit);
    PageFacts(views[0], after, through, limit);
    if p != [] {
      var last := p[|p|-1];
      var a, b := Ahead(universe, after, through), Ahead(universe, last, through);
      assert last in a && last !in b by { LessIrreflexive(last); }
      forall fp | fp in b ensures fp in a {
        LessTransitive(after, last, fp);
      }
      SubsetSize(b, a - {last});
      PagesRunOut(views[1..], universe, last, through, limit);
    }
  }

  ghost function Frozen(rows: map<string, Row>, n: nat): seq<map<string, Row>> {
    seq(n, _ => rows)
  }

  /** Over an unchanging database the pages in sequence are the whole sorted list. */
  lemma PagesAreTheList(rows: map<string, Row>, after: string, through: string, limit: nat, n: nat)
    requires limit > 0 && Completes(Frozen(rows, n), after, through, limit)
    ensures Visited(Frozen(rows, n), after, through, limit) == Sorted(InRange(rows, after, through), Less)
  {
    var views := Frozen(rows, n);
    var v, k := Visited(views, after, through, limit), InRange(rows, after, through);
    VisitedAscends(views, after, through, limit);
    forall fp | fp in k ensures fp in Members(v) {
      CompletedVisitsAll(views, after, through, limit, fp);
    }
    forall fp | fp in Members(v) ensures fp in k {
      VisitedWasRead(views, after, through, limit, fp);
    }
    assert Members(v) == k;
    TextIsTotal();
    SortedUnique(v, k, Less);
  }

  function Concat<T>(pages: seq<seq<T>>): seq<T> {
    if pages == [] then [] else pages[0] + Concat(pages[1..])
  }

  /** The key pages of one database when each goes on after the last key, up to and with an empty one. */
  ghost predicate KeyPages(rows: map<string, Row>, after: string, through: string, limit: nat, pages: seq<seq<string>>)
    decreases |pages|
  {
    && pages != [] && pages[0] == PageKeys(rows, after, through, limit)
    && if pages[0] == [] then |pages| == 1 else KeyPages(rows, LastOf(pages[0]), through, limit, pages[1..])
  }

  /** What a page does not list of a range lies beyond its last key. */
  lemma PageSplitsRange(rows: map<string, Row>, after: string, through: string, limit: nat, fp: string)
    requires PageKeys(rows, after, through, limit) != []
    ensures var p := PageKeys(rows, after, through, limit);
            fp in InRange(rows, after, through) <==> fp in p || fp in InRange(rows, LastOf(p), through)
  {
    var p := PageKeys(rows, after, through, limit);
    PageFacts(rows, after, through, limit);
    assert p[|p|-1] in InRange(rows, after, through);
    if fp in InRange(rows, LastOf(p), through) {
      LessTransitive(after, LastOf(p), fp);
    }
  }

  /** The keys of `q` are those of `rows` in the range, in order. */
  ghost predicate ListsRange(rows: map<string, Row>, after: string, through: string, q: seq<string>) {
    Between(q, after, through) && forall fp :: fp in q <==> fp in InRange(rows, after, through)
  }

  lemma PageThenRange(rows: map<string, Row>, after: string, through: string, limit: nat, p: seq<string>,
                      rest: seq<string>)
    requires p == PageKeys(rows, after, through, limit) && p != [] && ListsRange(rows, LastOf(p), through, rest)
    ensures ListsRange(rows, after, through, p + rest)
  {
    PageFacts(rows, after, through, limit);
    PageThenRest(p, rest, after, through);
    forall fp ensures fp in p + rest <==> fp in InRange(rows, after, through) {
      PageSplitsRange(rows, after, through, limit, fp);
    }
  }

  lemma EmptyPageEnds(rows: map<string, Row>, after: string, through: string, limit: nat)
    requires limit > 0 && PageKeys(rows, after, through, limit) == []
    ensures ListsRange(rows, after, through, [])
  {
    PageFacts(rows, after, through, limit);
  }

  lemma {:induction false} KeyPagesListRange(rows: map<string, Row>, after: string, through: string, limit: nat,
                                             pages: seq<seq<string>>)
    requires limit > 0 && KeyPages(rows, after, through, limit, pages)
    ensures ListsRange(rows, after, through, Concat(pages))
    decreases |pages|
  {
    var p, rest := pages[0], pages[1..];
    if p == [] {
      assert rest == [];
      EmptyPageEnds(rows, after, through, limit);
    } else {
      KeyPagesListRange(rows, LastOf(p), through, limit, rest);
      PageThenRange(rows, after, through, limit, p, Concat(rest));
    }
  }
}
