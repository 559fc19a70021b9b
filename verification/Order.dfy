/** Text order, the smallest n members of a finite set, and sorted listings.
    These give meaning to SQL's `ORDER BY`, `LIMIT`/`OFFSET` and `ROW_NUMBER`. */
module Order {

  /** The order in which SQLite compares text: the first differing character decides,
      and a proper prefix comes first. */
  predicate Less(a: string, b: string)
    decreases |b|
  {
    |b| > 0 && (|a| == 0 || a[0] < b[0] || (a[0] == b[0] && Less(a[1..], b[1..])))
  }

  predicate AtMost(a: string, b: string) {
    a == b || Less(a, b)
  }

  predicate IntLess(a: int, b: int) {
    a < b
  }

  ghost predicate TotalOrder<T(!new)>(lt: (T, T) -> bool) {
    && (forall x :: !lt(x, x))
    && (forall x, y, z :: lt(x, y) && lt(y, z) ==> lt(x, z))
    && (forall x, y :: x == y || lt(x, y) || lt(y, x))
  }

  lemma {:induction false} LessIrreflexive(a: string)
    ensures !Less(a, a)
    decreases |a|
  {
    if a != [] {
      LessIrreflexive(a[1..]);
    }
  }

  lemma {:induction false} LessTransitive(a: string, b: string, c: string)
    requires Less(a, b) && Less(b, c)
    ensures Less(a, c)
    decreases |c|
  {
    if a != [] && a[0] == b[0] == c[0] {
      LessTransitive(a[1..], b[1..], c[1..]);
    }
  }

  lemma {:induction false} LessConnected(a: string, b: string)
    ensures a == b || Less(a, b) || Less(b, a)
    decreases |a|
  {
    if a != [] && b != [] && a[0] == b[0] {
      LessConnected(a[1..], b[1..]);
      assert a == [a[0]] + a[1..] && b == [b[0]] + b[1..];
    }
  }

  lemma TextIsTotal()
    ensures TotalOrder(Less)
  {
    forall x: string ensures !Less(x, x) { LessIrreflexive(x); }
    forall x: string, y: string, z: string | Less(x, y) && Less(y, z) ensures Less(x, z) { LessTransitive(x, y, z); }
    forall x: string, y: string ensures x == y || Less(x, y) || Less(y, x) { LessConnected(x, y); }
  }

  /** The first differing character decides. */
  lemma {:induction false} LessAt(a: string, b: string, i: nat)
    requires i < |a| && i < |b| && a[..i] == b[..i] && a[i] < b[i]
    ensures Less(a, b)
  {
    if i > 0 {
      assert a[0] == a[..i][0] == b[..i][0] == b[0];
      assert a[1..][..i-1] == a[..i][1..] == b[..i][1..] == b[1..][..i-1];
      LessAt(a[1..], b[1..], i - 1);
    }
  }

  /** A common beginning does not matter. */
  lemma {:induction false} LessAfter(p: string, a: string, b: string)
    ensures Less(p + a, p + b) <==> Less(a, b)
  {
    if p == [] {
      assert p + a == a && p + b == b;
    } else {
      assert (p + a)[1..] == p[1..] + a && (p + b)[1..] == p[1..] + b;
      LessAfter(p[1..], a, b);
    }
  }

  lemma LessAsymmetric(a: string, b: string)
    requires Less(a, b)
    ensures !Less(b, a) && a != b
  {
    LessIrreflexive(a);
    if Less(b, a) {
      LessTransitive(a, b, a);
    }
  }

  lemma IntIsTotal()
    ensures TotalOrder(IntLess)
  {
  }

  // ---------------------------------------------------------------- the first n

  /** The members of `s` that sort before `x`: their number is the row number of `x`, from 0. */
  function Below<T(==)>(s: set<T>, lt: (T, T) -> bool, x: T): set<T> {
    set y | y in s && lt(y, x)
  }

  /** The members of `s` whose row number is under `n`. */
  function First<T(==)>(s: set<T>, lt: (T, T) -> bool, n: nat): set<T> {
    set x | x in s && |Below(s, lt, x)| < n
  }

  function Min(a: nat, b: nat): nat {
    if a < b then a else b
  }

  lemma SubsetSize<T>(a: set<T>, b: set<T>)
    requires a <= b
    ensures |a| <= |b|
    ensures |a| == |b| ==> a == b
  {
    assert b == a + (b - a);
    assert |b| == |a| + |b - a|;
  }

  lemma {:induction false} MaxExists<T(!new)>(s: set<T>, lt: (T, T) -> bool) returns (m: T)
    requires TotalOrder(lt) && s != {}
    ensures m in s && forall y :: y in s && y != m ==> lt(y, m)
    decreases |s|
  {
    m :| m in s;
    if s != {m} {
      var k := MaxExists(s - {m}, lt);
      if lt(m, k) {
        m := k;
      }
    }
  }

  lemma {:induction false} FirstSize<T(!new)>(s: set<T>, lt: (T, T) -> bool, n: nat)
    requires TotalOrder(lt)
    ensures |First(s, lt, n)| == Min(n, |s|)
    decreases |s|
  {
    if s == {} {
      assert First(s, lt, n) == {};
    } else {
      var m := MaxExists(s, lt);
      var r := s - {m};
      FirstSize(r, lt, n);
      forall x | x in r ensures Below(s, lt, x) == Below(r, lt, x) {
        assert lt(x, m);
      }
      assert Below(s, lt, m) == r;
      if |r| < n {
        assert First(s, lt, n) == First(r, lt, n) + {m};
      } else {
        assert First(s, lt, n) == First(r, lt, n);
      }
    }
  }

  /** A kept member sorts before every dropped one. */
  lemma FirstBefore<T(!new)>(s: set<T>, lt: (T, T) -> bool, n: nat, a: T, b: T)
    requires TotalOrder(lt)
    requires a in First(s, lt, n) && b in s && b !in First(s, lt, n)
    ensures lt(a, b)
  {
    if lt(b, a) {
      SubsetSize(Below(s, lt, b), Below(s, lt, a));
    }
  }

  /** The two facts above determine the first n. */
  lemma FirstUnique<T(!new)>(s: set<T>, lt: (T, T) -> bool, n: nat, k: set<T>)
    requires TotalOrder(lt)
    requires k <= s && |k| == Min(n, |s|)
    requires forall a, b :: a in k && b in s && b !in k ==> lt(a, b)
    ensures k == First(s, lt, n)
  {
    forall x | x in s ensures x in k <==> |Below(s, lt, x)| < n {
      if x in k {
        forall y | y in Below(s, lt, x) ensures y in k - {x} {}
        SubsetSize(Below(s, lt, x), k - {x});
      } else {
        SubsetSize(k, Below(s, lt, x));
        SubsetSize(k, s - {x});
      }
    }
  }

  lemma FirstAll<T(!new)>(s: set<T>, lt: (T, T) -> bool, n: nat)
    requires TotalOrder(lt) && |s| <= n
    ensures First(s, lt, n) == s
  {
    FirstUnique(s, lt, n, s);
  }

  /** Dropping early loses nothing: an element beyond the first n stays beyond them. */
  lemma FirstInsert<T(!new)>(s: set<T>, lt: (T, T) -> bool, n: nat, x: T)
    requires TotalOrder(lt)
    ensures First(First(s, lt, n) + {x}, lt, n) == First(s + {x}, lt, n)
  {
    var f := First(s, lt, n);
    var k := First(f + {x}, lt, n);
    FirstSize(s, lt, n);
    FirstSize(f + {x}, lt, n);
    if |s| <= n {
      FirstAll(s, lt, n);
    } else {
      SubsetSize(f, f + {x});
      SubsetSize(s, s + {x});
      forall a, b | a in k && b in s + {x} && b !in k ensures lt(a, b) {
        if b in f + {x} {
          FirstBefore(f + {x}, lt, n, a, b);
        } else if a in f {
          FirstBefore(s, lt, n, a, b);
        } else {
          // x itself was kept, so some member of f was dropped to make room
          var c :| c in f && c !in k by {
            if f <= k { SubsetSize(f + {x}, k); }
          }
          FirstBefore(f + {x}, lt, n, a, c);
          FirstBefore(s, lt, n, c, b);
        }
      }
      FirstUnique(s + {x}, lt, n, k);
    }
  }

  /** Removing a member that was already dropped changes nothing. */
  lemma FirstWithout<T(!new)>(s: set<T>, lt: (T, T) -> bool, n: nat, x: T)
    requires TotalOrder(lt)
    requires x in s && x !in First(s, lt, n)
    ensures First(s - {x}, lt, n) == First(s, lt, n)
  {
    var f := First(s, lt, n);
    FirstSize(s, lt, n);
    SubsetSize(f, s - {x});
    forall a, b | a in f && b in s - {x} && b !in f ensures lt(a, b) {
      FirstBefore(s, lt, n, a, b);
    }
    FirstUnique(s - {x}, lt, n, f);
  }

  lemma FirstReplaceEarly<T(!new)>(s: set<T>, lt: (T, T) -> bool, n: nat, x: T, y: T)
    requires TotalOrder(lt)
    requires x in First(s, lt, n) && (y == x || y !in s)
    requires forall d :: d in s && d !in First(s, lt, n) ==> lt(y, d)
    ensures First(s, lt, n) - {x} + {y} == First(s - {x} + {y}, lt, n)
  {
    var f := First(s, lt, n);
    var g, t := f - {x} + {y}, s - {x} + {y};
    FirstSize(s, lt, n);
    assert |g| == |f| && |t| == |s|;
    forall a, b | a in g && b in t && b !in g ensures lt(a, b) {
      if a != y { FirstBefore(s, lt, n, a, b); }
    }
    FirstUnique(t, lt, n, g);
  }

  lemma FirstReplaceLate<T(!new)>(s: set<T>, lt: (T, T) -> bool, n: nat, x: T, y: T, d: T)
    requires TotalOrder(lt)
    requires x in First(s, lt, n) && (y == x || y !in s)
    requires d in s && d !in First(s, lt, n) && !lt(y, d)
    ensures First(s, lt, n) - {x} + {y} != First(s - {x} + {y}, lt, n)
  {
    var g, t := First(s, lt, n) - {x} + {y}, s - {x} + {y};
    if g == First(t, lt, n) {
      assert y in g && d in t && d !in g;
      FirstBefore(t, lt, n, y, d);
    }
  }

  /** Replacing a kept member `x` by `y`: early dropping agrees with dropping once exactly when
      no dropped member sorts before `y`. */
  lemma FirstReplace<T(!new)>(s: set<T>, lt: (T, T) -> bool, n: nat, x: T, y: T)
    requires TotalOrder(lt)
    requires x in First(s, lt, n) && (y == x || y !in s)
    ensures First(First(s, lt, n) - {x} + {y}, lt, n) == First(s - {x} + {y}, lt, n)
            <==> forall d :: d in s && d !in First(s, lt, n) ==> lt(y, d)
  {
    var f := First(s, lt, n);
    FirstSize(s, lt, n);
    assert |f - {x} + {y}| == |f|;
    FirstAll(f - {x} + {y}, lt, n);
    if forall d :: d in s && d !in f ==> lt(y, d) {
      FirstReplaceEarly(s, lt, n, x, y);
    } else {
      var d :| d in s && d !in f && !lt(y, d);
      FirstReplaceLate(s, lt, n, x, y, d);
    }
  }

  // ------------------------------------------------------------- sorted listings

  ghost predicate Ascending<T(!new)>(q: seq<T>, lt: (T, T) -> bool) {
    forall i, j :: 0 <= i < j < |q| ==> lt(q[i], q[j])
  }

  ghost function Members<T>(q: seq<T>): set<T> {
    set x | x in q
  }

  ghost predicate HasLeast<T(!new)>(s: set<T>, lt: (T, T) -> bool) {
    exists m :: m in s && Below(s, lt, m) == {}
  }

  ghost function Least<T(!new)>(s: set<T>, lt: (T, T) -> bool): (m: T)
    requires HasLeast(s, lt)
    ensures m in s && Below(s, lt, m) == {}
  {
    var m :| m in s && Below(s, lt, m) == {};
    m
  }

  /** The members of `s` in ascending order. */
  ghost function Sorted<T(!new)>(s: set<T>, lt: (T, T) -> bool): seq<T>
    decreases |s|
  {
    if HasLeast(s, lt) then [Least(s, lt)] + Sorted(s - {Least(s, lt)}, lt) else []
  }

  lemma {:induction false} LeastExists<T(!new)>(s: set<T>, lt: (T, T) -> bool)
    requires TotalOrder(lt) && s != {}
    ensures HasLeast(s, lt)
    decreases |s|
  {
    var m :| m in s;
    if s == {m} {
      assert Below(s, lt, m) == {};
    } else {
      LeastExists(s - {m}, lt);
      var k := Least(s - {m}, lt);
      if lt(m, k) {
        assert Below(s, lt, m) == {} by {
          forall y | y in s - {m} ensures !lt(y, m) {
            assert y !in Below(s - {m}, lt, k);
          }
        }
      } else {
        assert Below(s, lt, k) == Below(s - {m}, lt, k);
      }
    }
  }

  lemma LeastThenRest<T(!new)>(s: set<T>, lt: (T, T) -> bool, m: T, r: seq<T>)
    requires TotalOrder(lt) && m in s && Below(s, lt, m) == {}
    requires Ascending(r, lt) && Members(r) == s - {m} && |r| == |s| - 1
    ensures Ascending([m] + r, lt) && Members([m] + r) == s && |[m] + r| == |s|
  {
    forall j | 0 <= j < |r| ensures lt(m, r[j]) {
      assert r[j] in Members(r);
      assert r[j] !in Below(s, lt, m);
    }
    assert Members([m] + r) == {m} + Members(r);
  }

  lemma {:induction false} SortedCorrect<T(!new)>(s: set<T>, lt: (T, T) -> bool)
    requires TotalOrder(lt)
    ensures Ascending(Sorted(s, lt), lt) && Members(Sorted(s, lt)) == s && |Sorted(s, lt)| == |s|
    decreases |s|
  {
    if s != {} {
      LeastExists(s, lt);
      var m := Least(s, lt);
      SortedCorrect(s - {m}, lt);
      LeastThenRest(s, lt, m, Sorted(s - {m}, lt));
    }
  }

  /** The sorted listing of texts. */
  lemma SortedText(s: set<string>)
    ensures Ascending(Sorted(s, Less), Less) && Members(Sorted(s, Less)) == s && |Sorted(s, Less)| == |s|
  {
    TextIsTotal();
    SortedCorrect(s, Less);
  }

  lemma MembersEmpty<T>(q: seq<T>)
    ensures Members(q) == {} <==> q == []
  {
    assert q != [] ==> q[0] in Members(q);
  }

  /** A strictly ascending sequence is determined by its members. */
  lemma {:induction false} AscendingUnique<T(!new)>(p: seq<T>, q: seq<T>, lt: (T, T) -> bool)
    requires TotalOrder(lt) && Ascending(p, lt) && Ascending(q, lt) && Members(p) == Members(q)
    ensures p == q
    decreases |p|
  {
    MembersEmpty(p);
    MembersEmpty(q);
    if p != [] {
      assert p[0] in Members(q);
      assert q != [] && q[0] in Members(p);
      assert p[0] == q[0];
      forall x | x in p[1..] ensures x in q[1..] {
        assert x in Members(q) && x != q[0];
      }
      forall x | x in q[1..] ensures x in p[1..] {
        assert x in Members(p) && x != p[0];
      }
      assert Members(p[1..]) == Members(q[1..]);
      AscendingUnique(p[1..], q[1..], lt);
      assert p == [p[0]] + p[1..] && q == [q[0]] + q[1..];
    }
  }

  lemma SortedUnique<T(!new)>(q: seq<T>, s: set<T>, lt: (T, T) -> bool)
    requires TotalOrder(lt) && Ascending(q, lt) && Members(q) == s
    ensures q == Sorted(s, lt)
  {
    SortedCorrect(s, lt);
    AscendingUnique(q, Sorted(s, lt), lt);
  }

  lemma InsertAscending<T(!new)>(q: seq<T>, x: T, i: nat, lt: (T, T) -> bool)
    requires i <= |q| && Ascending(q, lt)
    requires forall k :: 0 <= k < i ==> lt(q[k], x)
    requires forall k :: i <= k < |q| ==> lt(x, q[k])
    ensures Ascending(q[..i] + [x] + q[i..], lt)
    ensures Members(q[..i] + [x] + q[i..]) == Members(q) + {x}
  {
    assert q == q[..i] + q[i..];
  }

  lemma AllAfter<T(!new)>(q: seq<T>, x: T, i: nat, lt: (T, T) -> bool)
    requires TotalOrder(lt) && i < |q| && Ascending(q, lt) && x != q[i] && !lt(q[i], x)
    ensures forall k :: i <= k < |q| ==> lt(x, q[k])
  {
    assert lt(x, q[i]);
    forall k | i < k < |q| ensures lt(x, q[k]) {
      assert lt(q[i], q[k]);
    }
  }

  method Insert<T(!new)>(q: seq<T>, x: T, lt: (T, T) -> bool) returns (r: seq<T>)
    requires TotalOrder(lt) && Ascending(q, lt) && x !in Members(q)
    ensures Ascending(r, lt) && Members(r) == Members(q) + {x}
  {
    var i := 0;
    while i < |q| && lt(q[i], x)
      invariant 0 <= i <= |q|
      invariant forall k :: 0 <= k < i ==> lt(q[k], x)
    {
      i := i + 1;
    }
    if i < |q| {
      assert q[i] in Members(q);
      AllAfter(q, x, i, lt);
    }
    InsertAscending(q, x, i, lt);
    r := q[..i] + [x] + q[i..];
  }

  /** Sorts distinct members: what `ORDER BY` and `sort.Slice` do. */
  method Sort<T(!new)>(s: seq<T>, lt: (T, T) -> bool) returns (q: seq<T>)
    requires TotalOrder(lt)
    requires forall i, j :: 0 <= i < j < |s| ==> s[i] != s[j]
    ensures q == Sorted(Members(s), lt)
  {
    q := [];
    for n := 0 to |s|
      invariant Ascending(q, lt) && Members(q) == Members(s[..n])
    {
      assert s[..n+1] == s[..n] + [s[n]];
      assert s[n] !in Members(s[..n]);
      q := Insert(q, s[n], lt);
    }
    assert s[..|s|] == s;
    SortedUnique(q, Members(s), lt);
  }

  /** The members of a set in no particular order, as iteration over a Go map yields them. */
  method Listed<T(==, !new)>(s: set<T>) returns (q: seq<T>)
    ensures Members(q) == s
    ensures forall i, j :: 0 <= i < j < |q| ==> q[i] != q[j]
  {
    q := [];
    var left := s;
    while left != {}
      invariant left <= s && Members(q) == s - left
      invariant forall i, j :: 0 <= i < j < |q| ==> q[i] != q[j]
      decreases |left|
    {
      var x :| x in left;
      left := left - {x};
      assert x !in Members(q);
      assert Members(q + [x]) == Members(q) + {x};
      q := q + [x];
    }
  }

  /** `SELECT ... ORDER BY`. */
  method Select<T(==, !new)>(s: set<T>, lt: (T, T) -> bool) returns (q: seq<T>)
    requires TotalOrder(lt)
    ensures q == Sorted(s, lt)
  {
    q := Listed(s);
    q := Sort(q, lt);
  }
}
