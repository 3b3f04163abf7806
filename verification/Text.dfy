/** Strings as the Rust crates use them: ASCII case folding, splitting, trimming,
    decimal printing and the byte order by which SQLite compares TEXT columns. */
module Text {

  datatype Option<+T> = None | Some(value: T)

  function LowerChar(c: char): (r: char)
  {
    if 'A' <= c <= 'Z' then (c as int + 32) as char else c
  }

  /** `str::to_ascii_lowercase`. */
  function Lower(s: string): (r: string)
  {
    seq(|s|, i requires 0 <= i < |s| => LowerChar(s[i]))
  }

  predicate IsLower(s: string)
  {
    forall i :: 0 <= i < |s| ==> !('A' <= s[i] <= 'Z')
  }

  lemma LowerFacts(s: string)
    ensures IsLower(Lower(s))
    ensures IsLower(s) ==> Lower(s) == s
    ensures Lower(Lower(s)) == Lower(s)
  {
    assert IsLower(s) ==> Lower(s) == s;
  }

  /** `str::split(d)` with a character: always at least one part. */
  function Split(s: string, d: char): (parts: seq<string>)
    ensures |parts| >= 1
  {
    if s == [] then [[]]
    else
      var rest := Split(s[1..], d);
      if s[0] == d then [[]] + rest else [[s[0]] + rest[0]] + rest[1..]
  }

  function Join(parts: seq<string>, d: char): (s: string)
    requires |parts| >= 1
  {
    if |parts| == 1 then parts[0] else parts[0] + [d] + Join(parts[1..], d)
  }

  lemma {:induction false} SplitAtFirst(a: string, d: char, b: string)
    requires d !in a
    ensures Split(a + [d] + b, d) == [a] + Split(b, d)
  {
    var s := a + [d] + b;
    if a == [] {
      assert s[1..] == b;
    } else {
      assert s[1..] == a[1..] + [d] + b;
      SplitAtFirst(a[1..], d, b);
      assert [a[0]] + a[1..] == a;
    }
  }

  lemma {:induction false} SplitNone(a: string, d: char)
    requires d !in a
    ensures Split(a, d) == [a]
  {
    if a != [] {
      SplitNone(a[1..], d);
      assert [a[0]] + a[1..] == a;
    }
  }

  /** Splitting undoes joining when no part holds the separator. */
  lemma {:induction false} SplitJoin(parts: seq<string>, d: char)
    requires |parts| >= 1
    requires forall i :: 0 <= i < |parts| ==> d !in parts[i]
    ensures Split(Join(parts, d), d) == parts
  {
    if |parts| == 1 {
      SplitNone(parts[0], d);
    } else {
      SplitJoin(parts[1..], d);
      SplitAtFirst(parts[0], d, Join(parts[1..], d));
    }
  }

  /** Joining undoes splitting, and no part holds the separator. */
  lemma {:induction false} JoinSplit(s: string, d: char)
    ensures Join(Split(s, d), d) == s
    ensures forall i :: 0 <= i < |Split(s, d)| ==> d !in Split(s, d)[i]
  {
    if s != [] {
      JoinSplit(s[1..], d);
      var rest, all := Split(s[1..], d), Split(s, d);
      assert s == [s[0]] + s[1..];
      if s[0] == d {
        assert all[1..] == rest;
      } else {
        assert all[1..] == rest[1..];
        assert |rest| > 1 ==> [s[0]] + (rest[0] + [d] + Join(rest[1..], d)) == all[0] + [d] + Join(all[1..], d);
      }
    }
  }

  /** `str::trim_end_matches('.')`. */
  function TrimEndDots(s: string): (r: string)
  {
    if s != [] && s[|s| - 1] == '.' then TrimEndDots(s[..|s| - 1]) else s
  }

  /** `str::trim_start_matches('.')`. */
  function TrimStartDots(s: string): (r: string)
  {
    if s != [] && s[0] == '.' then TrimStartDots(s[1..]) else s
  }

  function Dots(n: nat): (r: string)
  {
    if n == 0 then [] else Dots(n - 1) + "."
  }

  lemma {:induction false} TrimAppendedDots(s: string, n: nat)
    requires s == [] || s[|s| - 1] != '.'
    ensures TrimEndDots(s + Dots(n)) == s
  {
    if n == 0 {
      assert s + Dots(0) == s;
    } else {
      var t := s + Dots(n);
      assert t[..|t| - 1] == s + Dots(n - 1);
      TrimAppendedDots(s, n - 1);
    }
  }

  lemma {:induction false} DotsAreDots(n: nat)
    ensures |Dots(n)| == n && forall i :: 0 <= i < n ==> Dots(n)[i] == '.'
  {
    if n > 0 {
      DotsAreDots(n - 1);
    }
  }

  /** Some dots and then what is left, which does not begin with one. */
  lemma {:induction false} TrimStartForm(s: string) returns (n: nat)
    ensures s == Dots(n) + TrimStartDots(s)
    ensures TrimStartDots(s) == [] || TrimStartDots(s)[0] != '.'
  {
    if s != [] && s[0] == '.' {
      var k := TrimStartForm(s[1..]);
      n := k + 1;
      DotsAreDots(k);
      DotsAreDots(n);
      assert Dots(n) == "." + Dots(k);
      assert s == "." + s[1..];
    } else {
      n := 0;
    }
  }

  lemma {:induction false} TrimLeadingDots(n: nat, s: string)
    requires s == [] || s[0] != '.'
    ensures TrimStartDots(Dots(n) + s) == s
  {
    DotsAreDots(n);
    if n == 0 {
      assert Dots(n) + s == s;
    } else {
      DotsAreDots(n - 1);
      assert (Dots(n) + s)[1..] == Dots(n - 1) + s;
      TrimLeadingDots(n - 1, s);
    }
  }

  /** The Unicode White_Space characters, which `str::trim` removes. */
  predicate IsWhitespace(c: char)
  {
    || '\U{9}' <= c <= '\U{d}' || c == ' ' || c == '\U{85}' || c == '\U{a0}' || c == '\U{1680}'
    || '\U{2000}' <= c <= '\U{200a}' || c == '\U{2028}' || c == '\U{2029}' || c == '\U{202f}'
    || c == '\U{205f}' || c == '\U{3000}'
  }

  /** `str::trim`. */
  function Trim(s: string): (r: string)
  {
    if s != [] && IsWhitespace(s[0]) then Trim(s[1..])
    else if s != [] && IsWhitespace(s[|s| - 1]) then Trim(s[..|s| - 1])
    else s
  }

  predicate AllWhitespace(s: string)
  {
    forall i :: 0 <= i < |s| ==> IsWhitespace(s[i])
  }

  /** White space, then what is left, which has none at its ends, then white space. */
  lemma {:induction false} TrimForm(s: string) returns (a: string, b: string)
    ensures s == a + Trim(s) + b && AllWhitespace(a) && AllWhitespace(b)
    ensures var t := Trim(s); t == [] || (!IsWhitespace(t[0]) && !IsWhitespace(t[|t| - 1]))
  {
    hide IsWhitespace;
    if s != [] && IsWhitespace(s[0]) {
      var a', b' := TrimForm(s[1..]);
      a, b := [s[0]] + a', b';
      assert s == [s[0]] + s[1..];
    } else if s != [] && IsWhitespace(s[|s| - 1]) {
      var a', b' := TrimForm(s[..|s| - 1]);
      a, b := a', b' + [s[|s| - 1]];
      assert s == s[..|s| - 1] + [s[|s| - 1]];
    } else {
      a, b := [], [];
      assert s == a + s + b;
    }
  }

  /** The byte order of UTF-8 text, which SQLite's BINARY collation uses. */
  predicate Less(a: string, b: string)
  {
    if b == [] then false
    else if a == [] then true
    else a[0] < b[0] || (a[0] == b[0] && Less(a[1..], b[1..]))
  }

  lemma {:induction false} LessAt(a: string, b: string, i: nat)
    requires i < |a| && i < |b|
    requires a[..i] == b[..i] && a[i] < b[i]
    ensures Less(a, b) && !Less(b, a)
  {
    if i > 0 {
      assert a[0] == a[..i][0] == b[..i][0] == b[0];
      assert a[1..][..i - 1] == a[..i][1..] == b[..i][1..] == b[1..][..i - 1];
      LessAt(a[1..], b[1..], i - 1);
    }
  }

  /** Texts of one length that differ have a first place where they do. */
  lemma {:induction false} FirstDifference(a: string, b: string) returns (i: nat)
    requires |a| == |b| && Less(a, b)
    ensures i < |a| && a[..i] == b[..i] && a[i] < b[i]
  {
    if a[0] < b[0] {
      i := 0;
    } else {
      var k := FirstDifference(a[1..], b[1..]);
      i := k + 1;
      assert a[..i] == [a[0]] + a[1..][..k];
      assert b[..i] == [b[0]] + b[1..][..k];
    }
  }

  lemma LessExtends(a: string, b: string, x: string, y: string)
    requires |a| == |b| && Less(a, b)
    ensures Less(a + x, b + y)
  {
    var i := FirstDifference(a, b);
    assert (a + x)[..i] == a[..i] && (b + y)[..i] == b[..i];
    LessAt(a + x, b + y, i);
  }

  lemma {:induction false} LessPrefixed(p: string, a: string, b: string)
    ensures Less(p + a, p + b) == Less(a, b)
  {
    if p == [] {
      assert p + a == a && p + b == b;
    } else {
      assert (p + a)[1..] == p[1..] + a && (p + b)[1..] == p[1..] + b;
      LessPrefixed(p[1..], a, b);
    }
  }

  lemma {:induction false} LessAsymmetric(a: string, b: string)
    requires Less(a, b)
    ensures !Less(b, a) && a != b
  {
    if a != [] && a[0] == b[0] {
      LessAsymmetric(a[1..], b[1..]);
    }
  }

  function Digit(n: nat): (c: char)
    requires n < 10
  {
    ('0' as int + n) as char
  }

  /** Decimal printing without padding. */
  function Decimal(n: nat): (s: string)
  {
    if n < 10 then [Digit(n)] else Decimal(n / 10) + [Digit(n % 10)]
  }

  lemma {:induction false} DecimalDigits(n: nat)
    ensures Decimal(n) != []
    ensures forall i :: 0 <= i < |Decimal(n)| ==> '0' <= Decimal(n)[i] <= '9'
  {
    if n >= 10 {
      DecimalDigits(n / 10);
    }
  }

  predicate IsDigits(s: string)
  {
    forall i :: 0 <= i < |s| ==> '0' <= s[i] <= '9'
  }

  /** The number that decimal digits say. */
  function Number(s: string): (n: nat)
    requires IsDigits(s)
  {
    if s == [] then 0 else 10 * Number(s[..|s| - 1]) + (s[|s| - 1] as int - '0' as int)
  }

  lemma NumberAppend(s: string, k: nat)
    requires IsDigits(s) && k < 10
    ensures IsDigits(s + [Digit(k)]) && Number(s + [Digit(k)]) == 10 * Number(s) + k
  {
    assert (s + [Digit(k)])[..|s|] == s;
  }

  /** Printed numbers read back. */
  lemma {:induction false} NumberDecimal(n: nat)
    ensures IsDigits(Decimal(n)) && Number(Decimal(n)) == n
  {
    if n < 10 {
      NumberAppend([], n);
      assert [] + [Digit(n)] == Decimal(n);
    } else {
      NumberDecimal(n / 10);
      NumberAppend(Decimal(n / 10), n % 10);
    }
  }

  lemma DecimalAppend(a: nat, k: nat)
    requires k < 10
    ensures a > 0 ==> Decimal(10 * a + k) == Decimal(a) + [Digit(k)]
    ensures Decimal(k) == [Digit(k)]
  {
    assert (10 * a + k) / 10 == a && (10 * a + k) % 10 == k;
  }

  lemma LastDigit(s: string) returns (k: nat)
    requires s != [] && IsDigits(s)
    ensures k < 10 && s == s[..|s| - 1] + [Digit(k)] && IsDigits(s[..|s| - 1])
    ensures Number(s) == 10 * Number(s[..|s| - 1]) + k
    ensures |s| == 1 ==> Number(s) == k
  {
    k := s[|s| - 1] as int - '0' as int;
    assert |s| == 1 ==> s[..0] == [];
  }

  /** Digits without a needless leading zero are how their number is printed. */
  lemma {:induction false} DecimalNumber(s: string)
    requires s != [] && IsDigits(s) && (|s| > 1 ==> s[0] != '0')
    ensures Decimal(Number(s)) == s
  {
    hide Decimal, Number, Digit, IsDigits;
    var init := s[..|s| - 1];
    var k := LastDigit(s);
    DecimalAppend(Number(init), k);
    if |s| == 1 {
      assert init == [];
    } else {
      DecimalNumber(init);
      LeadingDigit(init);
    }
  }

  lemma {:induction false} LeadingDigit(s: string)
    requires s != [] && IsDigits(s) && s[0] != '0'
    ensures Number(s) > 0
  {
    if |s| > 1 {
      LeadingDigit(s[..|s| - 1]);
    }
  }

  lemma {:induction false} DecimalInjective(m: nat, n: nat)
    requires Decimal(m) == Decimal(n)
    ensures m == n
  {
    var a, b := Decimal(m), Decimal(n);
    if m >= 10 && n >= 10 {
      assert a[..|a| - 1] == Decimal(m / 10) && b[..|b| - 1] == Decimal(n / 10);
      assert a[|a| - 1] == Digit(m % 10) && b[|b| - 1] == Digit(n % 10);
      DecimalInjective(m / 10, n / 10);
    } else if m >= 10 {
      DecimalDigits(m / 10);
    } else if n >= 10 {
      DecimalDigits(n / 10);
    }
  }

  /** Decimal printing padded with zeros to `width` digits. */
  function Padded(n: nat, width: nat): (s: string)
    ensures |s| == width
  {
    if width == 0 then [] else Padded(n / 10, width - 1) + [Digit(n % 10)]
  }

  function Pow10(k: nat): (p: nat)
  {
    if k == 0 then 1 else 10 * Pow10(k - 1)
  }

  lemma {:induction false} PaddedIsDigits(n: nat, width: nat)
    ensures forall i :: 0 <= i < width ==> '0' <= Padded(n, width)[i] <= '9'
  {
    if width > 0 {
      PaddedIsDigits(n / 10, width - 1);
    }
  }

  lemma {:induction false} NumberPadded(n: nat, width: nat)
    requires n < Pow10(width)
    ensures IsDigits(Padded(n, width)) && Number(Padded(n, width)) == n
  {
    if width > 0 {
      NumberPadded(n / 10, width - 1);
      NumberAppend(Padded(n / 10, width - 1), n % 10);
    }
  }

  lemma {:induction false} PaddedOrder(m: nat, n: nat, width: nat)
    requires m < n < Pow10(width)
    ensures Less(Padded(m, width), Padded(n, width))
  {
    var a, b := Padded(m / 10, width - 1), Padded(n / 10, width - 1);
    if m / 10 < n / 10 {
      PaddedOrder(m / 10, n / 10, width - 1);
      LessExtends(a, b, [Digit(m % 10)], [Digit(n % 10)]);
    } else {
      assert a == b;
      LessPrefixed(a, [Digit(m % 10)], [Digit(n % 10)]);
    }
  }
}
