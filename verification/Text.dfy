/** Sequence searching and decimal printing shared by the other modules. */
module Text {

  datatype Option<+T> = None | Some(value: T)

  /** `m` stands in `s` from position `k` on. */
  predicate OccursAt<T(==)>(s: seq<T>, m: seq<T>, k: nat) {
    k + |m| <= |s| && s[k..k + |m|] == m
  }

  predicate Contains<T(==)>(s: seq<T>, m: seq<T>) {
    exists k: nat | k <= |s| :: OccursAt(s, m, k)
  }

  /** The first position of `m` in `s`, as Go's strings.Index and bytes.Index. */
  function Index<T(==)>(s: seq<T>, m: seq<T>): (r: Option<nat>)
    ensures r.None? <==> !Contains(s, m)
    ensures r.Some? ==> OccursAt(s, m, r.value)
    ensures r.Some? ==> forall k: nat | k < r.value :: !OccursAt(s, m, k)
  {
    IndexFrom(s, m, 0)
  }

  function IndexFrom<T(==)>(s: seq<T>, m: seq<T>, i: nat): (r: Option<nat>)
    requires i <= |s|
    ensures r.None? <==> forall k: nat | i <= k <= |s| :: !OccursAt(s, m, k)
    ensures r.Some? ==> i <= r.value && OccursAt(s, m, r.value)
    ensures r.Some? ==> forall k: nat | i <= k < r.value :: !OccursAt(s, m, k)
    decreases |s| - i
  {
    if OccursAt(s, m, i) then Some(i)
    else if i == |s| then None
    else IndexFrom(s, m, i + 1)
  }

  /** A position with the properties of the first occurrence is the first occurrence. */
  lemma IndexIs<T>(s: seq<T>, m: seq<T>, i: nat)
    requires OccursAt(s, m, i)
    requires forall k: nat | k < i :: !OccursAt(s, m, k)
    ensures Index(s, m) == Some(i)
  {
    assert Contains(s, m);
  }

  /** Every element under an occurrence of `m` is an element of `m`. */
  lemma HitsWithin<T>(s: seq<T>, m: seq<T>, k: nat, p: nat)
    requires OccursAt(s, m, k) && p < |s|
    ensures k <= p < k + |m| ==> s[p] in m
  {
    if k <= p < k + |m| {
      assert s[p] == s[k..k + |m|][p - k];
    }
  }

  /** An occurrence inside a part is an occurrence in the whole, and back. */
  lemma OccursInside<T>(p: seq<T>, b: seq<T>, q: seq<T>, m: seq<T>, k: nat)
    requires k + |m| <= |b|
    ensures OccursAt(b, m, k) <==> OccursAt(p + b + q, m, |p| + k)
  {
    var s := p + b + q;
    assert s[|p| + k..|p| + k + |m|] == b[k..k + |m|];
  }

  /** An occurrence of a concatenation is two adjacent occurrences. */
  lemma OccursApart<T>(s: seq<T>, i: nat, a: seq<T>, b: seq<T>)
    ensures OccursAt(s, a + b, i) <==> OccursAt(s, a, i) && OccursAt(s, b, i + |a|)
  {
    if i + |a| + |b| <= |s| {
      var t := s[i..i + |a| + |b|];
      assert t[..|a|] == s[i..i + |a|] && t[|a|..] == s[i + |a|..i + |a| + |b|];
      assert t == t[..|a|] + t[|a|..];
      assert (a + b)[..|a|] == a && (a + b)[|a|..] == b;
    }
  }

  lemma OccursBetween<T>(p: seq<T>, b: seq<T>, q: seq<T>)
    ensures OccursAt(p + b + q, b, |p|)
  {
    assert (p + b + q)[|p|..|p| + |b|] == b;
  }

  /** What a part of a text holds, the text holds. */
  lemma ContainsInside<T>(p: seq<T>, b: seq<T>, q: seq<T>, m: seq<T>)
    requires Contains(b, m)
    ensures Contains(p + b + q, m)
  {
    var k: nat :| k <= |b| && OccursAt(b, m, k);
    OccursInside(p, b, q, m, k);
    assert OccursAt(p + b + q, m, |p| + k);
  }

  lemma ContainsAcross<T>(a: seq<T>, c: T, b: seq<T>, m: seq<T>)
    requires c !in m && m != [] && Contains(a + [c] + b, m)
    ensures Contains(a, m) || Contains(b, m)
  {
    var s := a + [c] + b;
    var k: nat :| k <= |s| && OccursAt(s, m, k);
    HitsWithin(s, m, k, |a|);
    if k + |m| <= |a| {
      assert s == [] + a + ([c] + b);
      OccursInside([], a, [c] + b, m, k);
    } else {
      assert s == (a + [c]) + b + [];
      OccursInside(a + [c], b, [], m, k - |a| - 1);
    }
  }

  /** Cutting a text at an element that `m` does not hold splits the search for `m`. */
  lemma ContainsSplit<T>(a: seq<T>, c: T, b: seq<T>, m: seq<T>)
    requires c !in m && m != []
    ensures Contains(a + [c] + b, m) <==> Contains(a, m) || Contains(b, m)
  {
    hide Contains;
    var s := a + [c] + b;
    assert s == [] + a + ([c] + b) && s == (a + [c]) + b + [];
    if Contains(s, m) { ContainsAcross(a, c, b, m); }
    if Contains(a, m) { ContainsInside([], a, [c] + b, m); }
    if Contains(b, m) { ContainsInside(a + [c], b, [], m); }
  }

  /** A text is cut in one way at the first `c` when the left part holds none. */
  lemma CutAt<T>(p: seq<T>, a: seq<T>, q: seq<T>, b: seq<T>, c: T)
    requires c !in p && c !in q
    ensures p + [c] + a == q + [c] + b <==> p == q && a == b
  {
    var x, y := p + [c] + a, q + [c] + b;
    if x == y {
      assert x[|p|] == c && y[|q|] == c;
      assert forall i | 0 <= i < |p| :: x[i] == p[i] && p[i] in p;
      assert forall i | 0 <= i < |q| :: y[i] == q[i] && q[i] in q;
      assert p == x[..|p|] && q == y[..|q|];
      assert a == x[|p| + 1..] && b == y[|q| + 1..];
    }
  }

  /** Concatenation does not care about brackets. */
  lemma Regroup<T>(a: seq<T>, b: seq<T>, c: seq<T>, d: seq<T>)
    ensures a + b + c == a + (b + c)
    ensures a + b + c + d == a + (b + c) + d == a + b + (c + d) == a + (b + c + d) == a + (b + (c + d))
  {
  }

  /** `picked` is the elements of `all` at the ascending positions `ks`. */
  ghost predicate Picks<T(!new)>(picked: seq<T>, all: seq<T>, ks: seq<nat>) {
    && |picked| == |ks| && (forall i, j | 0 <= i < j < |ks| :: ks[i] < ks[j])
    && forall i | 0 <= i < |ks| :: ks[i] < |all| && picked[i] == all[ks[i]]
  }

  lemma PicksMore<T(!new)>(picked: seq<T>, all: seq<T>, ks: seq<nat>, x: T)
    requires Picks(picked, all, ks)
    ensures Picks(picked, all + [x], ks) && Picks(picked + [x], all + [x], ks + [|all|])
    ensures |all| !in ks
  {
  }

  // ---- White space ----

  /** Unicode white space, as Go's unicode.IsSpace. */
  predicate IsSpace(c: char) {
    var n := c as int;
    9 <= n <= 13 || n == 0x20 || n == 0x85 || n == 0xA0 || n == 0x1680 || 0x2000 <= n <= 0x200A ||
    n == 0x2028 || n == 0x2029 || n == 0x202F || n == 0x205F || n == 0x3000
  }

  function TrimLeft(s: string): (r: string)
    ensures r != [] ==> !IsSpace(r[0])
  {
    if s != [] && IsSpace(s[0]) then TrimLeft(s[1..]) else s
  }

  function TrimRight(s: string): (r: string)
    ensures r <= s
    ensures r != [] ==> !IsSpace(r[|r| - 1])
  {
    if s != [] && IsSpace(s[|s| - 1]) then TrimRight(s[..|s| - 1]) else s
  }

  function TrimSpace(s: string): string {
    TrimRight(TrimLeft(s))
  }

  /** Among the ASCII characters that is the blank, and the five from the tabulator to the carriage return. */
  lemma AsciiSpaces(c: char)
    requires c as int < 128
    ensures IsSpace(c) <==> c in {' ', '\t', '\n', 11 as char, 12 as char, '\r'}
  {
  }

  predicate Blank(s: string) {
    forall c | c in s :: IsSpace(c)
  }

  /** `core` is `s` without the white space around it. */
  ghost predicate TrimOf(s: string, core: string) {
    && (core == "" || (!IsSpace(core[0]) && !IsSpace(core[|core| - 1])))
    && exists p, q :: Blank(p) && Blank(q) && s == p + core + q
  }

  lemma {:induction false} TrimLeftOf(p: string, x: string)
    requires Blank(p)
    ensures TrimLeft(p + x) == TrimLeft(x)
  {
    if p == "" {
      assert p + x == x;
    } else {
      assert p[0] in p && (p + x)[0] == p[0] && (p + x)[1..] == p[1..] + x;
      TrimLeftOf(p[1..], x);
    }
  }

  lemma {:induction false} TrimRightOf(x: string, q: string)
    requires Blank(q)
    ensures TrimRight(x + q) == TrimRight(x)
  {
    if q == "" {
      assert x + q == x;
    } else {
      var n := |q| - 1;
      assert q[n] in q && (x + q)[|x| + n] == q[n] && (x + q)[..|x| + n] == x + q[..n];
      TrimRightOf(x, q[..n]);
    }
  }

  lemma BlankMore(c: char, q: string)
    requires IsSpace(c) && Blank(q)
    ensures Blank([c] + q) && Blank(q + [c])
  {
    hide IsSpace;
  }

  lemma {:induction false} BlankBefore(s: string) returns (p: string)
    ensures Blank(p) && s == p + TrimLeft(s)
  {
    p := "";
    if s != "" && IsSpace(s[0]) {
      var c, more := s[0], s[1..];
      var rest := BlankBefore(more);
      p := [c] + rest;
      assert TrimLeft(s) == TrimLeft(more);
      hide IsSpace, TrimLeft;
      BlankMore(c, rest);
      hide Blank;
      Regroup([c], rest, TrimLeft(more), "");
      assert s == [c] + more;
    }
  }

  lemma {:induction false} BlankBehind(s: string) returns (q: string)
    ensures Blank(q) && s == TrimRight(s) + q
  {
    q := "";
    if s != "" && IsSpace(s[|s| - 1]) {
      var less, c := s[..|s| - 1], s[|s| - 1];
      var rest := BlankBehind(less);
      q := rest + [c];
      assert TrimRight(s) == TrimRight(less);
      hide IsSpace, TrimRight;
      BlankMore(c, rest);
      hide Blank;
      Regroup(TrimRight(less), rest, [c], "");
      assert s == less + [c];
    }
  }

  /** Trimming takes away the white space on both sides, all of it and nothing else. */
  lemma TrimSpaceIs(s: string, core: string)
    ensures TrimOf(s, core) <==> core == TrimSpace(s)
  {
    var p := BlankBefore(s);
    var q := BlankBehind(TrimLeft(s));
    Regroup(p, TrimSpace(s), q, "");
    assert s == p + TrimSpace(s) + q;
    TrimmedEnds(s);
    if TrimOf(s, core) {
      var a, b :| Blank(a) && Blank(b) && s == a + core + b;
      TrimAround(a, core, b);
    }
  }

  lemma TrimmedEnds(s: string)
    ensures TrimSpace(s) == "" || (!IsSpace(TrimSpace(s)[0]) && !IsSpace(TrimSpace(s)[|TrimSpace(s)| - 1]))
  {
    var l := TrimLeft(s);
    if TrimRight(l) != "" { assert TrimRight(l)[0] == l[0]; }
  }

  lemma TrimAround(p: string, core: string, q: string)
    requires Blank(p) && Blank(q)
    requires core == "" || (!IsSpace(core[0]) && !IsSpace(core[|core| - 1]))
    ensures TrimSpace(p + core + q) == core
  {
    Regroup(p, core, q, "");
    TrimLeftOf(p, core + q);
    if core == "" {
      assert core + q == q && q + "" == q;
      TrimLeftOf(q, "");
    } else {
      assert (core + q)[0] == core[0];
      TrimRightOf(core, q);
    }
  }

  // ---- Decimal numbers ----

  predicate IsDigit(c: char) { '0' <= c <= '9' }

  function DigitChar(d: nat): (c: char)
    requires d < 10
    ensures IsDigit(c)
  {
    '0' + d as char
  }

  lemma DigitsAreNamed(d: nat)
    requires d < 10
    ensures DigitChar(d) == "0123456789"[d]
  {
  }

  function DigitValue(c: char): (d: nat)
    requires IsDigit(c)
    ensures d < 10
  {
    (c - '0') as nat
  }

  /** Reads a run of decimal digits, most significant first. */
  function ParseDecimal(s: string): nat
    requires forall c | c in s :: IsDigit(c)
  {
    if s == [] then 0 else 10 * ParseDecimal(s[..|s| - 1]) + DigitValue(s[|s| - 1])
  }

  /** The shortest decimal numeral of `n`. */
  function Decimal(n: nat): (s: string)
    ensures s != [] && forall c | c in s :: IsDigit(c)
  {
    if n < 10 then [DigitChar(n)] else Decimal(n / 10) + [DigitChar(n % 10)]
  }

  /** Printing loses nothing and never pads: the numeral reads back, with no leading zero. */
  lemma {:induction false} DecimalRoundTrip(n: nat)
    ensures ParseDecimal(Decimal(n)) == n
    ensures Decimal(n)[0] == '0' ==> n == 0
  {
    if n < 10 {
      assert Decimal(n) == [DigitChar(n)];
      assert Decimal(n)[..0] == [];
    } else {
      DecimalRoundTrip(n / 10);
      var s := Decimal(n);
      assert s[..|s| - 1] == Decimal(n / 10);
      assert s[0] == Decimal(n / 10)[0];
    }
  }

  /** A numeral has at most k digits exactly when its number is below 10^k. */
  lemma {:induction false} DecimalLength(n: nat, k: nat)
    requires 0 < k
    ensures |Decimal(n)| <= k <==> n < Pow(10, k)
  {
    if n >= 10 {
      if k == 1 {
        assert |Decimal(n / 10)| > 0 && Pow(10, 1) == 10;
      } else {
        DecimalLength(n / 10, k - 1);
      }
    }
  }

  function Pow(b: nat, k: nat): (p: nat)
    ensures b > 0 ==> p > 0
  {
    if k == 0 then 1 else b * Pow(b, k - 1)
  }

  lemma PowerValues()
    ensures Pow(10, 6) == 1_000_000
  {
    assert Pow(10, 2) == 100;
    assert Pow(10, 4) == 100 * Pow(10, 2);
    assert Pow(10, 6) == 100 * Pow(10, 4);
  }
}
