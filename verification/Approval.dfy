/** Client-address restrictions on approvals (approval/scope.go). An address is a family and a
    bounded number; prefixes are those of section 3.1 of RFC 4632. */
module Approval {
  import opened Options
  import opened Order

  const MAX_RANGES := 128

  function Pow2(n: nat): (p: nat)
    ensures p > 0
  {
    if n == 0 then 1 else 2 * Pow2(n - 1)
  }

  function Width(v6: bool): nat {
    if v6 then 128 else 32
  }

  datatype Addr = Invalid | V4(bits: nat) | V6(bits: nat, zone: string)

  datatype RawPrefix = Prefix(v6: bool, bits: nat, len: nat)

  type Prefix = p: RawPrefix | p.len <= Width(p.v6) && p.bits < Pow2(Width(p.v6)) witness Prefix(false, 0, 0)

  /** An immutable set of client ranges. */
  datatype Scope = Scope(prefixes: seq<Prefix>)

  /** The text form of prefixes, as the address library reads and writes it. */
  datatype Syntax = Syntax(parse: string -> Option<Prefix>, text: Prefix -> string)

  ghost predicate Faithful(x: Syntax) {
    forall p: Prefix :: x.parse(x.text(p)) == Some(p)
  }

  /** The number of addresses that share the first `len` bits. */
  function BlockSize(p: Prefix): nat {
    Pow2(Width(p.v6) - p.len)
  }

  function BlockStart(a: nat, k: nat): (b: nat)
    requires k > 0
    ensures b <= a < b + k
  {
    a - a % k
  }

  function Masked(p: Prefix): (m: Prefix) {
    Prefix(p.v6, BlockStart(p.bits, BlockSize(p)), p.len)
  }

  /** In ::ffff:0:0/96, section 2.5.5.2 of RFC 4291. */
  predicate MappedBits(bits: nat) {
    bits / Pow2(32) == 0xFFFF
  }

  predicate Is4In6(p: Prefix) {
    p.v6 && MappedBits(p.bits)
  }

  function Unmap(a: Addr): Addr {
    if a.V6? && MappedBits(a.bits) then V4(a.bits % Pow2(32)) else a
  }

  /** The first `len` bits agree. */
  predicate Contains(p: Prefix, a: Addr) {
    match a
    case Invalid => false
    case V4(bits) => !p.v6 && bits / BlockSize(p) == p.bits / BlockSize(p)
    case V6(bits, zone) => zone == "" && p.v6 && bits / BlockSize(p) == p.bits / BlockSize(p)
  }

  /** A range the constructor accepts. */
  predicate Usable(x: Syntax, raw: string) {
    x.parse(raw).Some? && !Is4In6(x.parse(raw).value)
  }

  predicate AllUsable(x: Syntax, ranges: seq<string>) {
    forall raw :: raw in ranges ==> Usable(x, raw)
  }

  function MaskedSet(x: Syntax, ranges: seq<string>): set<Prefix> {
    set raw | raw in ranges && Usable(x, raw) :: Masked(x.parse(raw).value)
  }

  predicate ByText(x: Syntax, p: Prefix, q: Prefix) {
    Less(x.text(p), x.text(q))
  }

  ghost function NewScope(x: Syntax, ranges: seq<string>): Result<Scope> {
    if |ranges| == 0 || |ranges| > MAX_RANGES then Err(InvalidScope)
    else if !AllUsable(x, ranges) then Err(InvalidRange)
    else Ok(Scope(Sorted(MaskedSet(x, ranges), (p, q) => ByText(x, p, q))))
  }

  lemma ByTextIsTotal(x: Syntax)
    requires Faithful(x)
    ensures TotalOrder((p: Prefix, q: Prefix) => ByText(x, p, q))
  {
    TextIsTotal();
    forall p: Prefix, q: Prefix | x.text(p) == x.text(q) ensures p == q {
      assert x.parse(x.text(p)) == Some(p) && x.parse(x.text(q)) == Some(q);
    }
  }

  method New(x: Syntax, ranges: seq<string>) returns (r: Result<Scope>)
    requires Faithful(x)
    ensures r == NewScope(x, ranges)
  {
    if |ranges| == 0 || |ranges| > MAX_RANGES {
      return Err(InvalidScope);
    }
    var seen: set<Prefix> := {};
    for i := 0 to |ranges|
      invariant AllUsable(x, ranges[..i])
      invariant seen == MaskedSet(x, ranges[..i])
    {
      var p := x.parse(ranges[i]);
      if p.None? || Is4In6(p.value) {
        assert !Usable(x, ranges[i]);
        return Err(InvalidRange);
      }
      seen := seen + {Masked(p.value)};
      MaskedSetSnoc(x, ranges, i);
    }
    assert ranges[..|ranges|] == ranges;
    var prefixes := Listed(seen);
    ByTextIsTotal(x);
    prefixes := Sort(prefixes, (p, q) => ByText(x, p, q));
    return Ok(Scope(prefixes));
  }

  lemma MaskedSetSnoc(x: Syntax, ranges: seq<string>, i: nat)
    requires i < |ranges| && Usable(x, ranges[i])
    ensures MaskedSet(x, ranges[..i+1]) == MaskedSet(x, ranges[..i]) + {Masked(x.parse(ranges[i]).value)}
    ensures AllUsable(x, ranges[..i]) ==> AllUsable(x, ranges[..i+1])
  {
    assert ranges[..i+1] == ranges[..i] + [ranges[i]];
  }

  predicate ValidScope(s: Scope) {
    1 <= |s.prefixes| <= MAX_RANGES
  }

  function Ranges(x: Syntax, s: Scope): seq<string> {
    seq(|s.prefixes|, i requires 0 <= i < |s.prefixes| => x.text(s.prefixes[i]))
  }

  /** No scope at all is unrestricted. */
  predicate Allows(s: Option<Scope>, a: Addr) {
    match s
    case None => true
    case Some(scope) =>
      && a != Invalid && (a.V6? ==> a.zone == "")
      && exists i :: 0 <= i < |scope.prefixes| && Contains(scope.prefixes[i], Unmap(a))
  }

  // ------------------------------------------------------------------- properties

  lemma MulMono(a: nat, b: nat, k: nat)
    requires a <= b
    ensures a * k <= b * k
  {
  }

  lemma DivUnique(a: nat, q: nat, r: nat, k: nat)
    requires k > 0 && a == q * k + r && r < k
    ensures a / k == q && a % k == r
  {
    var d := a / k;
    assert a == d * k + a % k;
    if d < q {
      MulMono(d + 1, q, k);
    } else if d > q {
      MulMono(q + 1, d, k);
    }
  }

  lemma DivMod(a: nat, k: nat)
    requires k > 0
    ensures (a - a % k) / k == a / k && (a - a % k) % k == 0 && 0 <= a - a % k <= a
  {
    assert a == (a / k) * k + a % k;
    DivUnique(a - a % k, a / k, 0, k);
  }

  lemma SameBlock(a: nat, b: nat, k: nat)
    requires k > 0
    ensures b / k == a / k <==> a - a % k <= b < a - a % k + k
  {
    var q := a / k;
    assert a == q * k + a % k;
    assert b == (b / k) * k + b % k;
    if q * k <= b < q * k + k {
      DivUnique(b, q, b - q * k, k);
    }
  }

  /** `Contains` accepts exactly the block of addresses that starts at the masked prefix. */
  lemma ContainsIsBlock(p: Prefix, a: Addr)
    ensures Contains(p, a) <==>
            a != Invalid && a.V6? == p.v6 && (a.V6? ==> a.zone == "")
            && Masked(p).bits <= a.bits < Masked(p).bits + BlockSize(p)
  {
    if a != Invalid {
      SameBlock(p.bits, a.bits, BlockSize(p));
    }
  }

  lemma MaskedContains(p: Prefix, a: Addr)
    ensures Contains(Masked(p), a) == Contains(p, a)
    ensures Masked(Masked(p)) == Masked(p)
  {
    DivMod(p.bits, BlockSize(p));
  }

  lemma Twice(p: nat, q: nat)
    ensures 2 * (p * q) == (2 * p) * q
  {
  }

  lemma {:induction false} Pow2Split(a: nat, b: nat)
    ensures Pow2(a + b) == Pow2(a) * Pow2(b)
  {
    if a > 0 {
      var p, q := Pow2(a - 1), Pow2(b);
      Pow2Split(a - 1, b);
      assert Pow2(a + b) == 2 * Pow2(a - 1 + b) && Pow2(a) == 2 * p;
      Twice(p, q);
    }
  }

  /** Masking never moves a prefix into the mapped block. */
  lemma MaskedStaysUsable(p: Prefix)
    requires !Is4In6(p)
    ensures !Is4In6(Masked(p))
  {
    if p.v6 {
      var k, m, w := BlockSize(p), Pow2(32), 128 - p.len;
      var b := Masked(p).bits;
      DivMod(p.bits, k);
      if w <= 32 {
        Pow2Split(32 - w, w);
        CoarserBlock(p.bits, b, k, Pow2(32 - w));
      } else {
        Pow2Split(w - 33, 33);
        Pow2Split(1, 32);
        assert Pow2(1) == 2;
        EvenQuotient(b, k, Pow2(w - 33), m);
      }
    }
  }

  /** Two numbers in one block are in one block of any multiple of its size. */
  lemma CoarserBlock(a: nat, b: nat, k: nat, c: nat)
    requires k > 0 && c > 0 && a / k == b / k
    ensures a / (c * k) == b / (c * k)
  {
    DivDiv(a, k, c);
    DivDiv(b, k, c);
  }

  lemma Regroup(d: nat, c: nat, r: nat, k: nat)
    ensures (d * c + r) * k == d * (c * k) + r * k
  {
    assert (d * c) * k == d * (c * k);
  }

  lemma NestedQuotient(a: nat, q: nat, s: nat, d: nat, r: nat, k: nat, c: nat)
    requires s < k && r < c && a == q * k + s && q == d * c + r
    ensures c * k > 0 && a / (c * k) == d
  {
    Regroup(d, c, r, k);
    MulMono(r + 1, c, k);
    var n, t := c * k, r * k + s;
    assert (r + 1) * k == r * k + k;
    assert a == d * n + t && t < n;
    DivUnique(a, d, t, n);
  }

  lemma DivDiv(a: nat, k: nat, c: nat)
    requires k > 0 && c > 0
    ensures c * k > 0 && a / (c * k) == (a / k) / c
  {
    NestedQuotient(a, a / k, a % k, (a / k) / c, (a / k) % c, k, c);
  }

  /** A multiple of c * 2m is an even number of m's. */
  lemma EvenQuotient(b: nat, k: nat, c: nat, m: nat)
    requires m > 0 && c > 0 && k == c * (2 * m) && b % k == 0
    ensures (b / m) % 2 == 0
  {
    var q := b / k;
    assert b == q * k;
    assert b == (2 * (q * c)) * m + 0;
    DivUnique(b, 2 * (q * c), 0, m);
  }

  /** `Allows` holds if and only if some input range contains the unmapped address. */
  lemma AllowsExactlyTheInputs(x: Syntax, ranges: seq<string>, a: Addr)
    requires Faithful(x) && NewScope(x, ranges).Ok?
    ensures Allows(Some(NewScope(x, ranges).value), a) <==>
            && a != Invalid && (a.V6? ==> a.zone == "")
            && exists raw :: raw in ranges && Contains(x.parse(raw).value, Unmap(a))
  {
    var s := NewScope(x, ranges).value;
    var all := MaskedSet(x, ranges);
    ByTextIsTotal(x);
    SortedCorrect(all, (p, q) => ByText(x, p, q));
    forall raw | raw in ranges && Contains(x.parse(raw).value, Unmap(a))
      ensures exists i :: 0 <= i < |s.prefixes| && Contains(s.prefixes[i], Unmap(a))
    {
      var m := Masked(x.parse(raw).value);
      MaskedContains(x.parse(raw).value, Unmap(a));
      assert m in Members(s.prefixes);
    }
    forall i | 0 <= i < |s.prefixes| && Contains(s.prefixes[i], Unmap(a))
      ensures exists raw :: raw in ranges && Contains(x.parse(raw).value, Unmap(a))
    {
      assert s.prefixes[i] in all;
      var raw :| raw in ranges && Usable(x, raw) && s.prefixes[i] == Masked(x.parse(raw).value);
      MaskedContains(x.parse(raw).value, Unmap(a));
    }
  }

  /** Two accepted lists give the same scope if and only if they have the same masked prefixes. */
  lemma Canonical(x: Syntax, r1: seq<string>, r2: seq<string>)
    requires Faithful(x) && NewScope(x, r1).Ok? && NewScope(x, r2).Ok?
    ensures NewScope(x, r1) == NewScope(x, r2) <==> MaskedSet(x, r1) == MaskedSet(x, r2)
  {
    ByTextIsTotal(x);
    SortedCorrect(MaskedSet(x, r1), (p, q) => ByText(x, p, q));
    SortedCorrect(MaskedSet(x, r2), (p, q) => ByText(x, p, q));
  }

  /** The prefixes of a scope are masked inputs, each read back from its own text. */
  lemma PrefixIsMaskedInput(x: Syntax, ranges: seq<string>, i: nat)
    requires Faithful(x) && NewScope(x, ranges).Ok? && i < |NewScope(x, ranges).value.prefixes|
    ensures var s := NewScope(x, ranges).value;
            var raw := Ranges(x, s)[i];
            && Usable(x, raw) && Masked(x.parse(raw).value) == s.prefixes[i] && s.prefixes[i] in MaskedSet(x, ranges)
  {
    var s := NewScope(x, ranges).value;
    ByTextIsTotal(x);
    SortedCorrect(MaskedSet(x, ranges), (p, q) => ByText(x, p, q));
    assert s.prefixes[i] in Members(s.prefixes);
    var raw :| raw in ranges && Usable(x, raw) && s.prefixes[i] == Masked(x.parse(raw).value);
    MaskedStaysUsable(x.parse(raw).value);
    MaskedContains(x.parse(raw).value, Invalid);
  }

  lemma RangesFacts(x: Syntax, ranges: seq<string>)
    requires Faithful(x) && NewScope(x, ranges).Ok?
    ensures var s, all := NewScope(x, ranges).value, MaskedSet(x, ranges);
            var back := Ranges(x, s);
            && Members(s.prefixes) == all && |s.prefixes| == |all|
            && forall i :: 0 <= i < |back| ==>
                 Usable(x, back[i]) && Masked(x.parse(back[i]).value) == s.prefixes[i] && s.prefixes[i] in all
  {
    ByTextIsTotal(x);
    SortedCorrect(MaskedSet(x, ranges), (p, q) => ByText(x, p, q));
    forall i | 0 <= i < |Ranges(x, NewScope(x, ranges).value)| {
      PrefixIsMaskedInput(x, ranges, i);
    }
  }

  lemma RangesKeepSet(x: Syntax, back: seq<string>, prefixes: seq<Prefix>)
    requires |back| == |prefixes|
    requires forall i :: 0 <= i < |back| ==> Usable(x, back[i]) && Masked(x.parse(back[i]).value) == prefixes[i]
    ensures AllUsable(x, back) && MaskedSet(x, back) == Members(prefixes)
  {
    forall p | p in Members(prefixes) ensures p in MaskedSet(x, back) {
      var i :| 0 <= i < |prefixes| && prefixes[i] == p;
      assert back[i] in back;
    }
    forall p | p in MaskedSet(x, back) ensures p in Members(prefixes) {
      var raw :| raw in back && Usable(x, raw) && p == Masked(x.parse(raw).value);
      var i :| 0 <= i < |back| && back[i] == raw;
      assert prefixes[i] == p;
    }
  }

  lemma NewIsValid(x: Syntax, ranges: seq<string>)
    requires Faithful(x) && NewScope(x, ranges).Ok?
    ensures ValidScope(NewScope(x, ranges).value)
  {
    RangesFacts(x, ranges);
    AtMostAsMany(x, ranges);
    assert Masked(x.parse(ranges[0]).value) in MaskedSet(x, ranges);
  }

  /** Marshalling and reading back loses nothing, and the result is a valid scope. */
  lemma RangesRoundTrip(x: Syntax, ranges: seq<string>)
    requires Faithful(x) && NewScope(x, ranges).Ok?
    ensures var s := NewScope(x, ranges).value;
            ValidScope(s) && NewScope(x, Ranges(x, s)) == Ok(s)
  {
    var s := NewScope(x, ranges).value;
    NewIsValid(x, ranges);
    RangesFacts(x, ranges);
    RangesKeepSet(x, Ranges(x, s), s.prefixes);
  }

  lemma {:induction false} AtMostAsMany(x: Syntax, ranges: seq<string>)
    requires AllUsable(x, ranges)
    ensures |MaskedSet(x, ranges)| <= |ranges|
  {
    if ranges != [] {
      var n := |ranges| - 1;
      AtMostAsMany(x, ranges[..n]);
      assert ranges[..n+1] == ranges;
      MaskedSetSnoc(x, ranges, n);
      var p := Masked(x.parse(ranges[n]).value);
      SubsetSize(MaskedSet(x, ranges[..n]) + {p}, MaskedSet(x, ranges[..n]) + {p});
    }
  }

  // --------------------------------------------------------------------- bit by bit

  /** Bit `i` of a `width`-bit number, from the most significant. */
  function Bit(n: nat, width: nat, i: nat): nat
    requires i < width
  {
    (n / Pow2(width - 1 - i)) % 2
  }

  ghost predicate SameBits(a: nat, b: nat, width: nat, len: nat)
    requires len <= width
  {
    forall i :: 0 <= i < len ==> Bit(a, width, i) == Bit(b, width, i)
  }

  lemma NextBit(n: nat, width: nat, i: nat)
    requires i < width
    ensures n / Pow2(width - 1 - i) == 2 * (n / Pow2(width - i)) + Bit(n, width, i)
  {
    var k := Pow2(width - 1 - i);
    assert Pow2(width - i) == 2 * k;
    DivDiv(n, k, 2);
  }

  lemma Small(n: nat, k: nat)
    requires n < k
    ensures n / k == 0
  {
    DivUnique(n, 0, n, k);
  }

  /** Two numbers share their quotient by 2^(width - len) if and only if their first `len` bits agree. */
  lemma {:induction false} QuotientIsBits(a: nat, b: nat, width: nat, len: nat)
    requires a < Pow2(width) && b < Pow2(width) && len <= width
    ensures a / Pow2(width - len) == b / Pow2(width - len) <==> SameBits(a, b, width, len)
  {
    if len == 0 {
      Small(a, Pow2(width));
      Small(b, Pow2(width));
    } else {
      QuotientIsBits(a, b, width, len - 1);
      NextBit(a, width, len - 1);
      NextBit(b, width, len - 1);
      assert width - 1 - (len - 1) == width - len && width - (len - 1) == width - len + 1;
    }
  }

  /** An address of the width of its family. */
  predicate InFamily(a: Addr) {
    a != Invalid && a.bits < Pow2(Width(a.V6?))
  }

  /** A range contains exactly the addresses of its family that agree with it in the first `len` bits. */
  lemma ContainsIsLeadingBits(p: Prefix, a: Addr)
    requires InFamily(a)
    ensures Contains(p, a) <==>
            a.V6? == p.v6 && (a.V6? ==> a.zone == "") && SameBits(p.bits, a.bits, if p.v6 then 128 else 32, p.len)
  {
    if a.V6? == p.v6 {
      QuotientIsBits(p.bits, a.bits, Width(p.v6), p.len);
    }
  }

  lemma StartOf(a: nat, k: nat)
    requires k > 0
    ensures BlockStart(a, k) == (a / k) * k && BlockStart(a, k) / k == a / k
  {
    DivMod(a, k);
  }

  lemma StartIsQuotient(a: nat, b: nat, k: nat)
    requires k > 0
    ensures BlockStart(a, k) == BlockStart(b, k) <==> a / k == b / k
  {
    StartOf(a, k);
    StartOf(b, k);
  }

  /** Two ranges mask to the same one if and only if they are of one family and length and agree in the bits
      that count. */
  lemma MaskedIsLeadingBits(p: Prefix, q: Prefix)
    ensures Masked(p) == Masked(q) <==>
            p.v6 == q.v6 && p.len == q.len && SameBits(p.bits, q.bits, if p.v6 then 128 else 32, p.len)
  {
    if p.v6 == q.v6 && p.len == q.len {
      QuotientIsBits(p.bits, q.bits, Width(p.v6), p.len);
      StartIsQuotient(p.bits, q.bits, BlockSize(p));
    }
  }

  /** A range of full length holds one address, and one of length 0 its whole family. */
  lemma FullAndEmptyLength(p: Prefix, a: Addr)
    requires InFamily(a) && a.V6? == p.v6 && (a.V6? ==> a.zone == "")
    ensures p.len == (if p.v6 then 128 else 32) ==> (Contains(p, a) <==> a.bits == p.bits)
    ensures p.len == 0 ==> Contains(p, a)
  {
    if p.len == Width(p.v6) {
      assert BlockSize(p) == 1;
    }
    if p.len == 0 {
      Small(p.bits, Pow2(Width(p.v6)));
      Small(a.bits, Pow2(Width(p.v6)));
    }
  }

  lemma UnmapMapped(low: nat)
    requires low < Pow2(32)
    ensures Unmap(V6(0xFFFF * Pow2(32) + low, "")) == V4(low)
  {
    DivUnique(0xFFFF * Pow2(32) + low, 0xFFFF, low, Pow2(32));
  }

  /** A scope treats an IPv4-mapped address as the IPv4 address in it, and any other as it is. */
  lemma MappedIsV4(s: Scope, low: nat, a: Addr)
    requires low < Pow2(32)
    ensures Allows(Some(s), V6(0xFFFF * Pow2(32) + low, "")) == Allows(Some(s), V4(low))
    ensures !(a.V6? && a.bits / Pow2(32) == 0xFFFF) ==> Unmap(a) == a
  {
    var mapped := V6(0xFFFF * Pow2(32) + low, "");
    UnmapMapped(low);
    assert Unmap(V4(low)) == V4(low) && Unmap(mapped) == V4(low);
  }

  /** A list is refused if and only if it is empty, longer than 128, or holds a text that is no range or a
      range of mapped addresses. */
  lemma NewFailsExactly(x: Syntax, ranges: seq<string>)
    ensures NewScope(x, ranges).Err? <==>
            || |ranges| == 0 || |ranges| > 128
            || exists raw :: raw in ranges
                  && (x.parse(raw) == None || (x.parse(raw).value.v6 && x.parse(raw).value.bits / Pow2(32) == 0xFFFF))
  {
    if !AllUsable(x, ranges) {
      var raw :| raw in ranges && !Usable(x, raw);
    }
  }

  /** Ranges are written in the order of their texts, each once. */
  lemma RangesAscend(x: Syntax, ranges: seq<string>)
    requires Faithful(x) && NewScope(x, ranges).Ok?
    ensures Ascending(Ranges(x, NewScope(x, ranges).value), Less)
  {
    ByTextIsTotal(x);
    SortedCorrect(MaskedSet(x, ranges), (p, q) => ByText(x, p, q));
  }
}
