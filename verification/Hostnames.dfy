/** Canonical hostnames, comma-separated host lists and the registration policy. */
module Hostnames {
  import opened Text

  /** `idna::domain_to_ascii`, which is not part of this model; `None` is its error. */
  type Idna = string -> Option<string>

  predicate IsLabelChar(c: char)
  {
    'a' <= c <= 'z' || 'A' <= c <= 'Z' || '0' <= c <= '9' || c == '-'
  }

  predicate ValidLabel(part: string)
  {
    && 1 <= |part| <= 63
    && part[0] != '-' && part[|part| - 1] != '-'
    && forall i :: 0 <= i < |part| ==> IsLabelChar(part[i])
  }

  predicate ValidSyntax(host: string)
  {
    && |host| <= 253
    && !(host != [] && host[|host| - 1] == '.')
    && forall i :: 0 <= i < |Split(host, '.')| ==> ValidLabel(Split(host, '.')[i])
  }

  function Normalize(idna: Idna, input: string): (r: Option<string>)
  {
    var trimmed := Trim(input);
    if trimmed == [] || ':' in trimmed || '/' in trimmed then None
    else
      match idna(trimmed)
      case None => None
      case Some(ascii) => if ValidSyntax(Lower(ascii)) then Some(Lower(ascii)) else None
  }

  /** What IDNA processing is taken to promise: it leaves its own lower-cased output alone. */
  ghost predicate IdnaStable(idna: Idna)
  {
    forall s :: idna(s).Some? ==> idna(Lower(idna(s).value)) == Some(Lower(idna(s).value))
  }

  predicate IsCanonical(host: string)
  {
    host != [] && IsLower(host) && ValidSyntax(host)
  }

  lemma {:induction false} PartsCoverText(s: string, d: char)
    requires forall i :: 0 <= i < |Split(s, d)| ==> forall k :: 0 <= k < |Split(s, d)[i]| ==> IsLabelChar(Split(s, d)[i][k])
    ensures forall k :: 0 <= k < |s| ==> IsLabelChar(s[k]) || s[k] == d
  {
    if s != [] {
      var rest, all := Split(s[1..], d), Split(s, d);
      forall i, k | 0 <= i < |rest| && 0 <= k < |rest[i]|
        ensures IsLabelChar(rest[i][k])
      {
        if s[0] == d {
          assert all[i + 1] == rest[i];
        } else if i == 0 {
          assert all[0][k + 1] == rest[0][k];
        } else {
          assert all[i] == rest[i];
        }
      }
      PartsCoverText(s[1..], d);
      if s[0] != d {
        assert all[0][0] == s[0];
      }
    }
  }

  lemma ValidSyntaxChars(host: string)
    requires ValidSyntax(host)
    ensures forall k :: 0 <= k < |host| ==> IsLabelChar(host[k]) || host[k] == '.'
    ensures host != []
  {
    forall i, k | 0 <= i < |Split(host, '.')| && 0 <= k < |Split(host, '.')[i]|
      ensures IsLabelChar(Split(host, '.')[i][k])
    {
      assert ValidLabel(Split(host, '.')[i]);
    }
    PartsCoverText(host, '.');
    assert ValidLabel(Split(host, '.')[0]);
  }

  /** Every result of normalisation is lower-case, non-empty, made of label characters and
      dots, and does not end in a dot. */
  lemma NormalizeIsCanonical(idna: Idna, input: string)
    requires Normalize(idna, input).Some?
    ensures var h := Normalize(idna, input).value;
            && IsCanonical(h)
            && h[|h| - 1] != '.'
            && forall k :: 0 <= k < |h| ==> IsLabelChar(h[k]) || h[k] == '.'
  {
    var h := Normalize(idna, input).value;
    LowerFacts(idna(Trim(input)).value);
    ValidSyntaxChars(h);
  }

  /** A label: 1 to 63 letters, digits and hyphens, with no hyphen at its ends. */
  predicate IsLabel(part: string)
  {
    && 1 <= |part| <= 63
    && part[0] != '-' && part[|part| - 1] != '-'
    && forall i :: 0 <= i < |part| ==> 'a' <= part[i] <= 'z' || '0' <= part[i] <= '9' || part[i] == '-'
  }

  /** Labels joined by dots, 253 characters at most. */
  ghost predicate IsHostname(h: string)
  {
    |h| <= 253 && exists labels :: |labels| >= 1 && h == Join(labels, '.') && forall i :: 0 <= i < |labels| ==> IsLabel(labels[i])
  }

  lemma LowerLabel(part: string)
    requires IsLower(part)
    ensures ValidLabel(part) <==> IsLabel(part)
  {
  }

  lemma PartsAreLower(s: string, i: nat)
    requires IsLower(s) && i < |Split(s, '.')|
    ensures IsLower(Split(s, '.')[i])
    decreases |s|
  {
    if s != [] {
      assert IsLower(s[1..]) && !('A' <= s[0] <= 'Z');
      var rest := Split(s[1..], '.');
      PartsAreLower(s[1..], 0);
      if s[0] == '.' {
        if i > 0 {
          PartsAreLower(s[1..], i - 1);
        }
      } else if i > 0 {
        PartsAreLower(s[1..], i);
      }
    }
  }

  lemma SyntaxIsHostname(h: string)
    requires IsLower(h)
    ensures ValidSyntax(h) <==> IsHostname(h)
  {
    var parts := Split(h, '.');
    JoinSplit(h, '.');
    forall i | 0 <= i < |parts|
      ensures ValidLabel(parts[i]) <==> IsLabel(parts[i])
    {
      PartsAreLower(h, i);
      LowerLabel(parts[i]);
    }
    if IsHostname(h) {
      var labels :| |labels| >= 1 && h == Join(labels, '.') && forall i :: 0 <= i < |labels| ==> IsLabel(labels[i]);
      SplitJoin(labels, '.');
      LastOfJoin(labels);
    }
  }

  lemma {:induction false} LastOfJoin(labels: seq<string>)
    requires |labels| >= 1 && forall i :: 0 <= i < |labels| ==> IsLabel(labels[i])
    ensures var s := Join(labels, '.'); s != [] && s[|s| - 1] != '.'
  {
    if |labels| > 1 {
      LastOfJoin(labels[1..]);
    } else {
      assert IsLabel(labels[0]);
    }
  }

  /** Normalisation succeeds exactly when the input without the white space around it is not empty,
      has no colon or slash and goes through IDNA to a text that is a hostname in lower case; and
      that is the result. */
  lemma NormalizeExactly(idna: Idna, input: string, h: string)
    ensures Normalize(idna, input) == Some(h) <==>
            exists a, t, b, ascii :: NormalizesBy(idna, input, a, t, b, ascii, h)
  {
    var a, b := TrimForm(input);
    var t := Trim(input);
    if Normalize(idna, input) == Some(h) {
      LowerFacts(idna(t).value);
      SyntaxIsHostname(h);
      assert NormalizesBy(idna, input, a, t, b, idna(t).value, h);
    }
    if a', t', b', ascii :| NormalizesBy(idna, input, a', t', b', ascii, h) {
      TrimUnique(a', t', b');
      LowerFacts(ascii);
      SyntaxIsHostname(h);
    }
  }

  ghost predicate NormalizesBy(idna: Idna, input: string, a: string, t: string, b: string, ascii: string, h: string)
  {
    && input == a + t + b && AllWhitespace(a) && AllWhitespace(b)
    && t != [] && !IsWhitespace(t[0]) && !IsWhitespace(t[|t| - 1])
    && ':' !in t && '/' !in t
    && idna(t) == Some(ascii) && h == Lower(ascii) && IsHostname(h)
  }

  lemma {:induction false} TrimUnique(a: string, t: string, b: string)
    requires AllWhitespace(a) && AllWhitespace(b)
    requires t != [] && !IsWhitespace(t[0]) && !IsWhitespace(t[|t| - 1])
    ensures Trim(a + t + b) == t
    decreases |a| + |b|
  {
    var s := a + t + b;
    if a != [] {
      assert s[0] == a[0] && s[1..] == a[1..] + t + b;
      TrimUnique(a[1..], t, b);
    } else if b != [] {
      assert s[0] == t[0] && s[|s| - 1] == b[|b| - 1] && s[..|s| - 1] == a + t + b[..|b| - 1];
      TrimUnique(a, t, b[..|b| - 1]);
    } else {
      assert s == t;
    }
  }

  lemma NormalizeIdempotent(idna: Idna, input: string)
    requires IdnaStable(idna)
    requires Normalize(idna, input).Some?
    ensures Normalize(idna, Normalize(idna, input).value) == Normalize(idna, input)
  {
    var h := Normalize(idna, input).value;
    NormalizeIsCanonical(idna, input);
    assert !IsWhitespace(h[0]) && !IsWhitespace(h[|h| - 1]);
    LowerFacts(idna(Trim(input)).value);
  }

  /** The members of `xs` without repetition, each where it first occurs. */
  function FirstOccurrences(xs: seq<string>): (r: seq<string>)
  {
    if xs == [] then []
    else
      var r := FirstOccurrences(xs[..|xs| - 1]);
      if xs[|xs| - 1] in r then r else r + [xs[|xs| - 1]]
  }

  function FirstIndex(xs: seq<string>, x: string): (i: nat)
    requires x in xs
    ensures i < |xs| && xs[i] == x && forall k :: 0 <= k < i ==> xs[k] != x
  {
    if xs[0] == x then 0 else 1 + FirstIndex(xs[1..], x)
  }

  lemma FirstIndexExtends(xs: seq<string>, y: string, x: string)
    requires x in xs
    ensures FirstIndex(xs + [y], x) == FirstIndex(xs, x)
  {
    var i, j := FirstIndex(xs, x), FirstIndex(xs + [y], x);
    assert (xs + [y])[i] == x;
    assert j <= i;
    assert xs[j] == (xs + [y])[j];
  }

  /** Same members, no member twice, ordered by first occurrence. */
  lemma {:induction false} FirstOccurrencesOrdered(xs: seq<string>)
    ensures forall x :: x in FirstOccurrences(xs) <==> x in xs
    ensures forall i, j :: 0 <= i < j < |FirstOccurrences(xs)| ==>
              FirstIndex(xs, FirstOccurrences(xs)[i]) < FirstIndex(xs, FirstOccurrences(xs)[j])
  {
    if xs != [] {
      var n, init := |xs| - 1, xs[..|xs| - 1];
      var y, r := xs[n], FirstOccurrences(init);
      FirstOccurrencesOrdered(init);
      assert xs == init + [y];
      forall x | x in init
        ensures FirstIndex(xs, x) == FirstIndex(init, x) < n
      {
        FirstIndexExtends(init, y, x);
      }
      forall i, j | 0 <= i < j < |FirstOccurrences(xs)|
        ensures FirstIndex(xs, FirstOccurrences(xs)[i]) < FirstIndex(xs, FirstOccurrences(xs)[j])
      {
        assert r[i] in init;
        if j < |r| {
          assert r[j] in init;
        } else {
          assert forall k :: 0 <= k < n ==> xs[k] == init[k] && init[k] in init;
          assert FirstIndex(xs, y) == n;
        }
      }
    }
  }

  lemma {:induction false} DistinctKept(xs: seq<string>)
    requires forall i, j :: 0 <= i < j < |xs| ==> xs[i] != xs[j]
    ensures FirstOccurrences(xs) == xs
  {
    if xs != [] {
      DistinctKept(xs[..|xs| - 1]);
    }
  }

  predicate AllNormalize(idna: Idna, parts: seq<string>)
  {
    forall i :: 0 <= i < |parts| ==> Normalize(idna, parts[i]).Some?
  }

  function NormalForms(idna: Idna, parts: seq<string>): (r: seq<string>)
    requires AllNormalize(idna, parts)
  {
    seq(|parts|, i requires 0 <= i < |parts| => Normalize(idna, parts[i]).value)
  }

  function HostList(idna: Idna, raw: string): (r: Option<seq<string>>)
  {
    var parts := Split(raw, ',');
    if AllNormalize(idna, parts) then Some(FirstOccurrences(NormalForms(idna, parts))) else None
  }

  /** `parse_host_list`: one bad part rejects the list; repetitions are dropped. */
  method ParseHostList(idna: Idna, raw: string) returns (r: Option<seq<string>>)
    ensures r == HostList(idna, raw)
  {
    hide Normalize;
    var parts := Split(raw, ',');
    var out: seq<string>, seen: set<string> := [], {};
    var n := 0;
    while n < |parts|
      invariant 0 <= n <= |parts|
      invariant AllNormalize(idna, parts[..n])
      invariant out == FirstOccurrences(NormalForms(idna, parts[..n]))
      invariant seen == set h | h in out
    {
      var h := Normalize(idna, parts[n]);
      if h.None? {
        return None;
      }
      assert parts[..n + 1] == parts[..n] + [parts[n]];
      assert NormalForms(idna, parts[..n + 1])[..n] == NormalForms(idna, parts[..n]);
      if h.value !in seen {
        seen := seen + {h.value};
        out := out + [h.value];
      }
      n := n + 1;
    }
    assert parts[..n] == parts;
    r := Some(out);
  }

  /** Success means every part normalises; the result holds the distinct normal forms in
      first-occurrence order, at least one of them. */
  lemma HostListMeaning(idna: Idna, raw: string)
    ensures HostList(idna, raw).Some? <==> AllNormalize(idna, Split(raw, ','))
    ensures HostList(idna, raw).Some? ==>
              var xs, out := NormalForms(idna, Split(raw, ',')), HostList(idna, raw).value;
              && out != []
              && (forall x :: x in out <==> x in xs)
              && (forall i, j :: 0 <= i < j < |out| ==> FirstIndex(xs, out[i]) < FirstIndex(xs, out[j]))
  {
    if HostList(idna, raw).Some? {
      var xs := NormalForms(idna, Split(raw, ','));
      FirstOccurrencesOrdered(xs);
      assert xs[0] in FirstOccurrences(xs);
    }
  }

  /** Parsing a result written out again with commas gives it back. */
  lemma {:induction false} HostListRoundTrip(idna: Idna, raw: string)
    requires IdnaStable(idna)
    requires HostList(idna, raw).Some?
    ensures var out := HostList(idna, raw).value;
            out != [] && HostList(idna, Join(out, ',')) == Some(out)
  {
    var parts, out := Split(raw, ','), HostList(idna, raw).value;
    var xs := NormalForms(idna, parts);
    HostListMeaning(idna, raw);
    forall i | 0 <= i < |out|
      ensures Normalize(idna, out[i]) == Some(out[i]) && ',' !in out[i]
    {
      assert out[i] in xs;
      var k := FirstIndex(xs, out[i]);
      NormalizeIdempotent(idna, parts[k]);
      NormalizeIsCanonical(idna, parts[k]);
    }
    SplitJoin(out, ',');
    assert NormalForms(idna, out) == out;
    DistinctKept(out);
  }

  // ---- Registration policy ----

  datatype Policy = Policy(blocked: seq<string>, suffixes: seq<string>)

  predicate EndsWith(s: string, t: string)
  {
    |t| <= |s| && s[|s| - |t|..] == t
  }

  predicate UnderSuffix(h: string, suffix: string)
  {
    var s := Lower(suffix);
    h == TrimStartDots(s) || EndsWith(h, s)
  }

  /** `hostname_allowed`: not a blocked name, and under some suffix if any is configured. */
  predicate Allowed(p: Policy, host: string)
  {
    var h := Lower(host);
    && (forall i :: 0 <= i < |p.blocked| ==> h != Lower(p.blocked[i]))
    && (p.suffixes == [] || exists i :: 0 <= i < |p.suffixes| && UnderSuffix(h, p.suffixes[i]))
  }

  /** The host ends in the suffix, or is the suffix without the dots it begins with. */
  ghost predicate UnderDomain(h: string, suffix: string)
  {
    || (exists p :: h == p + Lower(suffix))
    || (exists n: nat :: Lower(suffix) == Dots(n) + h && (h == [] || h[0] != '.'))
  }

  lemma UnderSuffixIff(h: string, suffix: string)
    ensures UnderSuffix(h, suffix) <==> UnderDomain(h, suffix)
  {
    var s := Lower(suffix);
    var k := TrimStartForm(s);
    if EndsWith(h, s) {
      assert h == h[..|h| - |s|] + s;
    }
    if p :| h == p + s {
      assert h[|h| - |s|..] == s;
    }
    if n: nat :| s == Dots(n) + h && (h == [] || h[0] != '.') {
      TrimLeadingDots(n, h);
    }
  }

  /** The policy said outright: no blocked name in any case, and, if suffixes are configured, under
      one of them. */
  lemma AllowedExactly(p: Policy, host: string)
    ensures Allowed(p, host) <==>
            && (forall b :: b in p.blocked ==> Lower(host) != Lower(b))
            && (p.suffixes == [] || exists s :: s in p.suffixes && UnderDomain(Lower(host), s))
  {
    forall s
      ensures UnderSuffix(Lower(host), s) <==> UnderDomain(Lower(host), s)
    {
      UnderSuffixIff(Lower(host), s);
    }
  }

  /** Blocking one more name takes out just its case variants. */
  lemma BlockOneMore(p: Policy, b: string, host: string)
    ensures Allowed(p.(blocked := p.blocked + [b]), host) <==> Allowed(p, host) && Lower(host) != Lower(b)
  {
    AllowedExactly(p, host);
    AllowedExactly(p.(blocked := p.blocked + [b]), host);
  }

  /** One suffix more lets in just the unblocked hosts under it, and the first one keeps out all
      others. */
  lemma SuffixOneMore(p: Policy, s: string, host: string)
    ensures Allowed(p.(suffixes := p.suffixes + [s]), host) <==>
            && Allowed(p.(suffixes := []), host)
            && ((p.suffixes != [] && Allowed(p, host)) || UnderDomain(Lower(host), s))
  {
    var q := p.(suffixes := p.suffixes + [s]);
    AllowedExactly(p, host);
    AllowedExactly(q, host);
    AllowedExactly(p.(suffixes := []), host);
    assert s in q.suffixes && forall x :: x in q.suffixes <==> x == s || x in p.suffixes;
  }

  lemma PolicyIgnoresCase(p: Policy, a: string, b: string)
    requires Lower(a) == Lower(b)
    ensures Allowed(p, a) == Allowed(p, b) == Allowed(p, Lower(a))
  {
    LowerFacts(a);
  }
}
