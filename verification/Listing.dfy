/** Reading history tables in bulk and grouping the rows by fingerprint (store/store.go, List). */
module Listing {
  import opened Order
  import opened Tables

  /** The values of one fingerprint among the rows of a query, in the order of the rows. */
  function Project<V>(q: seq<Child<V>>, fp: string): seq<V> {
    if q == [] then []
    else Project(q[..|q|-1], fp) + (if q[|q|-1].fp == fp then [q[|q|-1].value] else [])
  }

  /** A missing group reads as empty. */
  function GroupAt<V>(groups: map<string, seq<V>>, fp: string): seq<V> {
    if fp in groups then groups[fp] else []
  }

  method GroupBy<V>(q: seq<Child<V>>) returns (groups: map<string, seq<V>>)
    ensures forall fp :: GroupAt(groups, fp) == Project(q, fp)
  {
    groups := map[];
    for n := 0 to |q|
      invariant forall fp :: GroupAt(groups, fp) == Project(q[..n], fp)
    {
      var c := q[n];
      assert q[..n+1][..n] == q[..n];
      groups := groups[c.fp := GroupAt(groups, c.fp) + [c.value]];
    }
    assert q[..|q|] == q;
  }

  /** The rows of each fingerprint come in ascending order of their values. */
  ghost predicate OrderedWithin<V(!new)>(q: seq<Child<V>>, lt: (V, V) -> bool) {
    forall i, j :: 0 <= i < j < |q| && q[i].fp == q[j].fp ==> lt(q[i].value, q[j].value)
  }

  lemma {:induction false} ProjectMembers<V(!new)>(q: seq<Child<V>>, fp: string, lt: (V, V) -> bool)
    requires OrderedWithin(q, lt)
    ensures Members(Project(q, fp)) == ValuesOf(Members(q), fp)
    ensures Ascending(Project(q, fp), lt)
  {
    if q != [] {
      var init, c := q[..|q|-1], q[|q|-1];
      ProjectMembers(init, fp, lt);
      assert q == init + [c];
      assert Members(q) == Members(init) + {c};
      AddValues(Members(init), c.fp, c.value, fp);
      assert c == Child(c.fp, c.value);
      if c.fp == fp {
        forall i | 0 <= i < |Project(init, fp)| ensures lt(Project(init, fp)[i], c.value) {
          assert Project(init, fp)[i] in Members(Project(init, fp));
          var d :| d in Members(init) && d.fp == fp && d.value == Project(init, fp)[i];
          var k :| 0 <= k < |init| && init[k] == d;
          assert q[k].fp == q[|q|-1].fp;
        }
        assert Members(Project(init, fp) + [c.value]) == Members(Project(init, fp)) + {c.value};
      }
    }
  }

  /** Grouping a bulk query that is ordered within each fingerprint gives the same lists as one query per
      fingerprint. */
  lemma GroupsAreSorted<V(!new)>(q: seq<Child<V>>, t: set<Child<V>>, fp: string, lt: (V, V) -> bool)
    requires TotalOrder(lt) && Members(q) == t && OrderedWithin(q, lt)
    ensures Project(q, fp) == Sorted(ValuesOf(t, fp), lt)
  {
    ProjectMembers(q, fp, lt);
    SortedUnique(Project(q, fp), ValuesOf(t, fp), lt);
  }

  /** `ORDER BY value`; rows of equal value come in some order, here that of their fingerprints. */
  function ByValue<V(==)>(lt: (V, V) -> bool): (Child<V>, Child<V>) -> bool {
    (a: Child<V>, b: Child<V>) => if a.value != b.value then lt(a.value, b.value) else Less(a.fp, b.fp)
  }

  /** `ORDER BY fp, value`. */
  function ByOwner<V(==)>(lt: (V, V) -> bool): (Child<V>, Child<V>) -> bool {
    (a: Child<V>, b: Child<V>) => if a.fp != b.fp then Less(a.fp, b.fp) else lt(a.value, b.value)
  }

  lemma ByValueIsTotal<V(!new)>(lt: (V, V) -> bool)
    requires TotalOrder(lt)
    ensures TotalOrder(ByValue(lt))
  {
    TextIsTotal();
    var before := ByValue(lt);
    forall a: Child<V>, b: Child<V>, c: Child<V> | before(a, b) && before(b, c) ensures before(a, c) {
      if a.value != b.value && b.value != c.value {
        assert lt(a.value, b.value) && lt(b.value, c.value);
        assert lt(a.value, c.value) && !lt(a.value, a.value);
      } else if a.value == b.value && b.value == c.value {
        LessTransitive(a.fp, b.fp, c.fp);
      }
    }
    forall a: Child<V>, b: Child<V> ensures a == b || before(a, b) || before(b, a) {
      assert a == Child(a.fp, a.value) && b == Child(b.fp, b.value);
    }
  }

  lemma ByOwnerIsTotal<V(!new)>(lt: (V, V) -> bool)
    requires TotalOrder(lt)
    ensures TotalOrder(ByOwner(lt))
  {
    TextIsTotal();
    var before := ByOwner(lt);
    forall a: Child<V>, b: Child<V>, c: Child<V> | before(a, b) && before(b, c) ensures before(a, c) {
      if a.fp != b.fp && b.fp != c.fp {
        LessTransitive(a.fp, b.fp, c.fp);
        LessAsymmetric(a.fp, b.fp);
      } else if a.fp == b.fp && b.fp == c.fp {
        assert lt(a.value, b.value) && lt(b.value, c.value);
      }
    }
    forall a: Child<V>, b: Child<V> ensures a == b || before(a, b) || before(b, a) {
      assert a == Child(a.fp, a.value) && b == Child(b.fp, b.value);
    }
  }

  lemma EitherOrderIsWithin<V(!new)>(q: seq<Child<V>>, lt: (V, V) -> bool)
    requires TotalOrder(lt) && (Ascending(q, ByValue(lt)) || Ascending(q, ByOwner(lt)))
    ensures OrderedWithin(q, lt)
  {
    LessIrreflexiveEverywhere();
    forall i, j | 0 <= i < j < |q| && q[i].fp == q[j].fp ensures lt(q[i].value, q[j].value) {
    }
  }

  lemma LessIrreflexiveEverywhere()
    ensures forall a: string :: !Less(a, a)
  {
    forall a: string ensures !Less(a, a) { LessIrreflexive(a); }
  }
}
