/** Paging through a database that does not change gives what listing it gives (store/limits.go,
    store/store.go). */
module PageLists {
  import opened Options
  import opened Order
  import opened Tables
  import opened StoreSpec
  import opened Paging
  import opened Stores

  function Fps(entries: seq<Entry>): seq<string> {
    seq(|entries|, i requires 0 <= i < |entries| => entries[i].fp)
  }

  ghost predicate AllRead(d: DB, entries: seq<Entry>) {
    forall i :: 0 <= i < |entries| ==> Read(d, entries[i].fp) == Ok(entries[i])
  }

  /** The answers of ListPage when each call goes on after the last entry, up to and with an empty page. */
  ghost predicate PagesFrom(d: DB, after: string, through: string, limit: int, pages: seq<seq<Entry>>)
    decreases |pages|
  {
    && pages != [] && PagesAs(d, after, through, limit, Ok(pages[0]))
    && if pages[0] == [] then |pages| == 1 else PagesFrom(d, LastOf(Fps(pages[0])), through, limit, pages[1..])
  }

  lemma PageIsKeys(d: DB, after: string, through: string, limit: nat, page: seq<Entry>)
    requires 1 <= limit <= 128 && PagesAs(d, after, through, limit, Ok(page))
    ensures Fps(page) == PageKeys(d.rows, after, through, limit) && AllRead(d, page)
  {
    var keys := PageKeys(d.rows, after, through, limit);
    forall i | 0 <= i < |page| ensures page[i].fp == keys[i] && Read(d, page[i].fp) == Ok(page[i]) {
      assert Read(d, keys[i]) == Ok(page[i]);
    }
  }

  lemma FpsConcat(page: seq<Entry>, rest: seq<Entry>)
    ensures Fps(page + rest) == Fps(page) + Fps(rest)
  {
  }

  function FpsEach(pages: seq<seq<Entry>>): seq<seq<string>> {
    seq(|pages|, i requires 0 <= i < |pages| => Fps(pages[i]))
  }

  lemma FpsEachCons(pages: seq<seq<Entry>>)
    requires pages != []
    ensures FpsEach(pages)[0] == Fps(pages[0]) && FpsEach(pages)[1..] == FpsEach(pages[1..])
    ensures Fps(pages[0]) == [] <==> pages[0] == []
  {
  }

  lemma {:induction false} FpsOfConcat(pages: seq<seq<Entry>>)
    ensures Fps(Concat(pages)) == Concat(FpsEach(pages))
  {
    if pages != [] {
      FpsEachCons(pages);
      FpsConcat(pages[0], Concat(pages[1..]));
      FpsOfConcat(pages[1..]);
    }
  }

  lemma AllReadConcat(d: DB, page: seq<Entry>, rest: seq<Entry>)
    requires AllRead(d, page) && AllRead(d, rest)
    ensures AllRead(d, page + rest)
  {
  }

  lemma {:induction false} PagesAreKeyPages(d: DB, after: string, through: string, limit: nat, pages: seq<seq<Entry>>)
    requires 1 <= limit <= 128 && PagesFrom(d, after, through, limit, pages)
    ensures KeyPages(d.rows, after, through, limit, FpsEach(pages)) && AllRead(d, Concat(pages))
    decreases |pages|
  {
    PageIsKeys(d, after, through, limit, pages[0]);
    FpsEachCons(pages);
    if pages[0] != [] {
      PagesAreKeyPages(d, LastOf(Fps(pages[0])), through, limit, pages[1..]);
      AllReadConcat(d, pages[0], Concat(pages[1..]));
    } else {
      assert pages[1..] == [];
    }
  }

  lemma AllInRange(rows: map<string, Row>)
    ensures InRange(rows, "", LastKey(rows)) == rows.Keys - {""}
  {
    forall fp | fp in rows ensures AtMost(fp, LastKey(rows)) {
      LastKeyIsGreatest(rows, fp);
    }
  }

  lemma RangeIsAllKeys(rows: map<string, Row>, q: seq<string>)
    requires ListsRange(rows, "", LastKey(rows), q)
    ensures q == Sorted(rows.Keys - {""}, Less) && forall i :: 0 <= i < |q| ==> q[i] in rows
  {
    AllInRange(rows);
    assert Members(q) == rows.Keys - {""};
    assert forall i :: 0 <= i < |q| ==> q[i] in Members(q);
    TextIsTotal();
    SortedUnique(q, rows.Keys - {""}, Less);
  }

  lemma ReadIsListed(d: DB, list: map<string, Entry>, e: Entry)
    requires ListsAs(d, Ok(list)) && Read(d, e.fp) == Ok(e) && e.fp in d.rows
    ensures e.fp in list && list[e.fp] == e
  {
  }

  lemma ReadsAreListed(d: DB, list: map<string, Entry>, all: seq<Entry>)
    requires ListsAs(d, Ok(list)) && AllRead(d, all) && forall i :: 0 <= i < |all| ==> Fps(all)[i] in d.rows
    ensures forall i :: 0 <= i < |all| ==> Fps(all)[i] in list && all[i] == list[Fps(all)[i]]
  {
    forall i | 0 <= i < |all| ensures Fps(all)[i] in list && all[i] == list[Fps(all)[i]] {
      ReadIsListed(d, list, all[i]);
    }
  }

  /** Over one database the pages in sequence are the entries of List in the order of their keys, each
      nonempty fingerprint once. */
  lemma PagesConcatToList(d: DB, limit: nat, pages: seq<seq<Entry>>, list: map<string, Entry>)
    requires 1 <= limit <= 128 && PagesFrom(d, "", LastKey(d.rows), limit, pages) && ListsAs(d, Ok(list))
    ensures var keys, all := Sorted(d.rows.Keys - {""}, Less), Concat(pages);
            |all| == |keys| && forall i :: 0 <= i < |keys| ==> keys[i] in list && all[i] == list[keys[i]]
  {
    PagesAreKeyPages(d, "", LastKey(d.rows), limit, pages);
    KeyPagesListRange(d.rows, "", LastKey(d.rows), limit, FpsEach(pages));
    FpsOfConcat(pages);
    RangeIsAllKeys(d.rows, Fps(Concat(pages)));
    ReadsAreListed(d, list, Concat(pages));
  }
}
