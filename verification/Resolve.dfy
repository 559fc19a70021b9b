/** Finding one stored fingerprint from a prefix typed by an operator (store/store.go, ResolveFingerprint). */
module Resolve {
  import opened Options
  import opened Order

  /** SQLite's LIKE folds ASCII letters only. */
  function Fold(c: char): char {
    if 'A' <= c <= 'Z' then 'a' + (c - 'A') else c
  }

  /** `text LIKE pattern ESCAPE '\'`. */
  predicate Like(pattern: string, text: string)
    decreases |text|, |pattern|
  {
    if pattern == "" then text == ""
    else if pattern[0] == '%' then Like(pattern[1..], text) || (text != "" && Like(pattern, text[1..]))
    else if pattern[0] == '_' then text != "" && Like(pattern[1..], text[1..])
    else if pattern[0] == '\\' then
      |pattern| > 1 && text != "" && Fold(pattern[1]) == Fold(text[0]) && Like(pattern[2..], text[1..])
    else text != "" && Fold(pattern[0]) == Fold(text[0]) && Like(pattern[1..], text[1..])
  }

  function EscapeChar(c: char): string {
    if c == '\\' || c == '%' || c == '_' then ['\\', c] else [c]
  }

  function Escape(query: string): string {
    if query == "" then "" else EscapeChar(query[0]) + Escape(query[1..])
  }

  predicate FoldPrefix(query: string, text: string) {
    |query| <= |text| && forall i :: 0 <= i < |query| ==> Fold(query[i]) == Fold(text[i])
  }

  lemma {:induction false} PercentMatchesAll(text: string)
    ensures Like("%", text)
  {
    assert "%"[1..] == "";
    if text != "" {
      PercentMatchesAll(text[1..]);
    }
  }

  /** No character of the query acts as a wildcard: the escaped pattern matches exactly the texts that
      begin with the query, up to ASCII case. */
  lemma {:induction false} EscapedPrefixMatch(query: string, text: string)
    ensures Like(Escape(query) + "%", text) <==> FoldPrefix(query, text)
  {
    var pattern := Escape(query) + "%";
    if query == "" {
      assert pattern == "%";
      PercentMatchesAll(text);
    } else {
      var c, rest := query[0], Escape(query[1..]) + "%";
      assert pattern == EscapeChar(c) + rest;
      assert pattern[|EscapeChar(c)|..] == rest;
      if text != "" {
        EscapedPrefixMatch(query[1..], text[1..]);
        assert FoldPrefix(query, text) <==> Fold(c) == Fold(text[0]) && FoldPrefix(query[1..], text[1..]) by {
          if Fold(c) == Fold(text[0]) && FoldPrefix(query[1..], text[1..]) {
            forall i | 0 <= i < |query| ensures Fold(query[i]) == Fold(text[i]) {
              if i > 0 { assert query[1..][i-1] == query[i] && text[1..][i-1] == text[i]; }
            }
          }
        }
      }
    }
  }

  predicate IsSpace(c: char) {
    '\t' <= c <= '\r' || c == ' ' || c == '\U{85}' || c == '\U{A0}' || c == '\U{1680}' || '\U{2000}' <= c <= '\U{200A}'
    || c == '\U{2028}' || c == '\U{2029}' || c == '\U{202F}' || c == '\U{205F}' || c == '\U{3000}'
  }

  function TrimLeft(s: string): (t: string)
    ensures |t| <= |s| && t == s[|s| - |t|..] && (t == "" || !IsSpace(t[0]))
    ensures forall i :: 0 <= i < |s| - |t| ==> IsSpace(s[i])
  {
    if s != "" && IsSpace(s[0]) then
      var t := TrimLeft(s[1..]);
      assert t == s[1..][|s| - 1 - |t|..] == s[|s| - |t|..];
      t
    else s
  }

  function TrimRight(s: string): (t: string)
    ensures |t| <= |s| && t == s[..|t|] && (t == "" || !IsSpace(t[|t|-1]))
    ensures forall i :: |t| <= i < |s| ==> IsSpace(s[i])
  {
    if s != "" && IsSpace(s[|s|-1]) then TrimRight(s[..|s|-1]) else s
  }

  function TrimSpace(s: string): string {
    TrimRight(TrimLeft(s))
  }

  function LikeMatches(fps: set<string>, query: string): set<string> {
    set fp | fp in fps && Like(Escape(query) + "%", fp)
  }

  /** The stored fingerprints that begin with the query, up to ASCII case. */
  function PrefixMatches(fps: set<string>, query: string): set<string> {
    set fp | fp in fps && FoldPrefix(query, fp)
  }

  /** The first two matching rows. */
  ghost function TwoMatches(fps: set<string>, query: string): seq<string> {
    Sorted(First(LikeMatches(fps, query), Less, 2), Less)
  }

  ghost function ResolveIn(fps: set<string>, query: string): Result<string> {
    var q := TrimSpace(query);
    if q == "" then Err(EmptyFingerprint)
    else if q in fps then Ok(q)
    else
      var rows := TwoMatches(fps, q);
      match |rows|
      case 0 => Err(UnknownFingerprint)
      case 1 => Ok(rows[0])
      case _ => Err(Ambiguous)
  }

  lemma LikeIsPrefix(fps: set<string>, q: string)
    ensures LikeMatches(fps, q) == PrefixMatches(fps, q)
  {
    forall fp ensures Like(Escape(q) + "%", fp) <==> FoldPrefix(q, fp) {
      EscapedPrefixMatch(q, fp);
    }
  }

  /** Two rows decide: the answer is the exact match, else the only row that begins with the query,
      else an error that says whether there was none or several. */
  lemma ResolveDecides(fps: set<string>, query: string)
    ensures var q, r := TrimSpace(query), ResolveIn(fps, query);
            var m := PrefixMatches(fps, q);
            && (forall fp :: r == Ok(fp) <==> q != "" && (if q in fps then fp == q else m == {fp}))
            && (r == Err(UnknownFingerprint) <==> q != "" && q !in fps && m == {})
            && (r == Err(Ambiguous) <==> q != "" && q !in fps && |m| >= 2)
            && (r == Err(EmptyFingerprint) <==> q == "")
  {
    var q := TrimSpace(query);
    var m := PrefixMatches(fps, q);
    LikeIsPrefix(fps, q);
    TextIsTotal();
    FirstSize(m, Less, 2);
    var two := First(m, Less, 2);
    SortedCorrect(two, Less);
    var rows := TwoMatches(fps, q);
    if |m| == 1 {
      var fp :| fp in m;
      SubsetSize({fp}, m);
      FirstAll(m, Less, 2);
      assert rows[0] in Members(rows);
    }
    forall fp | m == {fp} ensures |m| == 1 {}
  }

  // ------------------------------------------------------------- case and white space

  /** Folding identifies the two cases of an ASCII letter and nothing else. */
  lemma FoldExactly(a: char, b: char)
    ensures Fold(a) == Fold(b) <==>
            a == b || ('A' <= a <= 'Z' && b as int == a as int + 32) || ('A' <= b <= 'Z' && a as int == b as int + 32)
  {
  }

  predicate Blank(s: string) {
    forall i :: 0 <= i < |s| ==> IsSpace(s[i])
  }

  lemma AsciiSpaces(c: char)
    requires c as int < 128
    ensures IsSpace(c) <==> c as int == 32 || 9 <= c as int <= 13
  {
  }

  lemma {:induction false} TrimLeftBlank(pre: string, s: string)
    requires Blank(pre)
    ensures TrimLeft(pre + s) == TrimLeft(s)
  {
    if pre == "" {
      assert pre + s == s;
    } else {
      assert (pre + s)[0] == pre[0] && (pre + s)[1..] == pre[1..] + s;
      assert Blank(pre[1..]);
      TrimLeftBlank(pre[1..], s);
    }
  }

  lemma {:induction false} TrimRightBlank(s: string, post: string)
    requires Blank(post)
    ensures TrimRight(s + post) == TrimRight(s)
  {
    if post == "" {
      assert s + post == s;
    } else {
      var init := post[..|post|-1];
      assert (s + post)[|s + post|-1] == post[|post|-1] && (s + post)[..|s + post|-1] == s + init;
      TrimRightBlank(s, init);
    }
  }

  lemma {:induction false} TrimLeftPrefix(s: string, post: string)
    requires Blank(post)
    ensures TrimRight(TrimLeft(s + post)) == TrimRight(TrimLeft(s))
  {
    if s == "" {
      assert s + post == post && post == post + "";
      TrimLeftBlank(post, "");
    } else if IsSpace(s[0]) {
      assert (s + post)[1..] == s[1..] + post;
      TrimLeftPrefix(s[1..], post);
    } else {
      assert (s + post)[0] == s[0];
      TrimRightBlank(s, post);
    }
  }

  lemma TrimRightKeeps(s: string)
    requires s != "" && !IsSpace(s[0])
    ensures TrimRight(s) != ""
  {
  }

  /** Trimming removes a blank text at each end, and stops at the first character that is no space. */
  lemma TrimSpaceExactly(pre: string, s: string, post: string)
    requires Blank(pre) && Blank(post)
    ensures TrimSpace(pre + s + post) == TrimSpace(s)
    ensures s == "" ==> TrimSpace(pre + s + post) == ""
    ensures s != "" && !IsSpace(s[0]) && !IsSpace(s[|s|-1]) ==> TrimSpace(pre + s + post) == s
  {
    assert pre + s + post == pre + (s + post);
    TrimLeftBlank(pre, s + post);
    TrimLeftPrefix(s, post);
  }

  lemma SameFoldSameMatches(fps: set<string>, q: string, other: string)
    requires |q| == |other| && forall i :: 0 <= i < |q| ==> Fold(q[i]) == Fold(other[i])
    ensures LikeMatches(fps, q) == LikeMatches(fps, other)
  {
    LikeIsPrefix(fps, q);
    LikeIsPrefix(fps, other);
    assert forall fp :: FoldPrefix(q, fp) <==> FoldPrefix(other, fp);
  }

  lemma OnlyTrimmedCounts(fps: set<string>, a: string, b: string)
    requires TrimSpace(a) == TrimSpace(b)
    ensures ResolveIn(fps, a) == ResolveIn(fps, b)
  {
  }

  /** Space around a query does not matter. */
  lemma SpaceIgnored(fps: set<string>, pre: string, q: string, post: string)
    requires Blank(pre) && Blank(post)
    ensures ResolveIn(fps, pre + q + post) == ResolveIn(fps, q)
  {
    TrimSpaceExactly(pre, q, post);
    OnlyTrimmedCounts(fps, pre + q + post, q);
  }

  /** Nor does the case of its ASCII letters, unless it is stored as typed. */
  lemma CaseIgnored(fps: set<string>, q: string, other: string)
    requires |q| == |other| && q == TrimSpace(q) && other == TrimSpace(other) && q !in fps && other !in fps
    requires forall i :: 0 <= i < |q| ==> Fold(q[i]) == Fold(other[i])
    ensures ResolveIn(fps, q) == ResolveIn(fps, other)
  {
    SameFoldSameMatches(fps, q, other);
  }
}
