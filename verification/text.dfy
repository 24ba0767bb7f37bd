/** String helpers shared by the catalog builder and the markup builders. */
module Text {
  import opened Wrappers

  predicate IsUpper(c: char) { 'A' <= c <= 'Z' }

  predicate IsDigit(c: char) { '0' <= c <= '9' }

  /** ASCII lower-casing of one character */
  function LowerChar(c: char): (r: char)
    ensures !IsUpper(r)
    ensures !IsUpper(c) ==> r == c
    ensures IsUpper(c) ==> r as int == c as int + 32
  {
    if IsUpper(c) then (c as int + 32) as char else c
  }

  /** Python 2 `str.lower()`: byte strings, so only A-Z change */
  function Lower(s: string): (r: string)
    ensures |r| == |s|
    ensures forall i :: 0 <= i < |r| ==> !IsUpper(r[i])
    ensures forall i :: 0 <= i < |s| && !IsUpper(s[i]) ==> r[i] == s[i]
    ensures forall i :: 0 <= i < |s| && IsUpper(s[i]) ==> r[i] as int == s[i] as int + 32
  {
    seq(|s|, i requires 0 <= i < |s| => LowerChar(s[i]))
  }

  /** Lower-casing works character by character. */
  lemma LowerConcat(a: string, b: string)
    ensures Lower(a + b) == Lower(a) + Lower(b)
  {
    var l, r := Lower(a + b), Lower(a) + Lower(b);
    assert forall i :: 0 <= i < |a| ==> (a + b)[i] == a[i];
    assert forall i :: |a| <= i < |a + b| ==> (a + b)[i] == b[i - |a|];
    assert forall i :: 0 <= i < |l| ==> l[i] == r[i];
  }

  /** `str.replace(from, to)` where both are single characters */
  function ReplaceChar(s: string, from: char, to: char): (r: string)
    ensures |r| == |s|
    ensures from != to ==> from !in r
    ensures forall i :: 0 <= i < |s| && s[i] == from ==> r[i] == to
    ensures forall i :: 0 <= i < |s| && s[i] != from ==> r[i] == s[i]
  {
    seq(|s|, i requires 0 <= i < |s| => if s[i] == from then to else s[i])
  }

  /** Concatenation of all parts, in order: the `+=` loops of the markup builders */
  function Join(parts: seq<string>): string
    decreases |parts|
  {
    if |parts| == 0 then "" else Join(parts[..|parts| - 1]) + parts[|parts| - 1]
  }

  lemma {:induction false} JoinAppend(a: seq<string>, b: seq<string>)
    ensures Join(a + b) == Join(a) + Join(b)
    decreases |b|
  {
    if |b| == 0 {
      assert a + b == a;
    } else {
      var b' := b[..|b| - 1];
      assert (a + b)[..|a + b| - 1] == a + b';
      JoinAppend(a, b');
    }
  }

  /** Adding one more part appends it. */
  lemma JoinSnoc(parts: seq<string>, i: nat)
    requires i < |parts|
    ensures Join(parts[..i + 1]) == Join(parts[..i]) + parts[i]
  {
    assert parts[..i + 1][..i] == parts[..i];
  }


  /** The right operand of a concatenation is its suffix. */
  lemma EndsWith(a: string, b: string)
    ensures (a + b)[|a + b| - |b|..] == b
  {
  }

  /** The i-th part appears in `Join(parts)` right after the parts before it. */
  lemma JoinPartAt(parts: seq<string>, i: nat)
    requires i < |parts|
    ensures |Join(parts[..i])| + |parts[i]| <= |Join(parts)|
    ensures Join(parts)[|Join(parts[..i])|..|Join(parts[..i])| + |parts[i]|] == parts[i]
  {
    assert parts == (parts[..i] + [parts[i]]) + parts[i + 1..];
    JoinAppend(parts[..i] + [parts[i]], parts[i + 1..]);
    assert (parts[..i] + [parts[i]])[..i] == parts[..i];
  }


  /** Decimal digit character for d */
  function DigitChar(d: nat): char
    requires d < 10
  {
    ('0' as int + d) as char
  }

  /** JavaScript's number-to-string conversion for a non-negative integer */
  function Decimal(n: nat): (r: string)
    ensures |r| >= 1
    ensures forall i :: 0 <= i < |r| ==> IsDigit(r[i])
    ensures n < 10 <==> |r| == 1
    decreases n
  {
    if n < 10 then [DigitChar(n)] else Decimal(n / 10) + [DigitChar(n % 10)]
  }

  /** A printed number has no double quote. */
  lemma NoQuoteInDecimal(n: nat)
    ensures '"' !in Decimal(n)
  {
    var r := Decimal(n);
    assert forall i :: 0 <= i < |r| ==> r[i] != '"';
  }

  /** Neither part of a concatenation has a double quote, so neither has the whole. */
  lemma NoQuoteInConcat(a: string, b: string)
    requires '"' !in a && '"' !in b
    ensures '"' !in a + b
  {
    assert forall i :: 0 <= i < |a + b| ==> (a + b)[i] == if i < |a| then a[i] else b[i - |a|];
  }

  /** Different numbers print differently. */
  lemma {:induction false} DecimalInjective(a: nat, b: nat)
    requires Decimal(a) == Decimal(b)
    ensures a == b
    decreases a
  {
    if a >= 10 {
      var ra, rb := Decimal(a), Decimal(b);
      assert b >= 10;
      assert ra[|ra| - 1] == DigitChar(a % 10);
      assert rb[|rb| - 1] == DigitChar(b % 10);
      assert ra[..|ra| - 1] == Decimal(a / 10);
      assert rb[..|rb| - 1] == Decimal(b / 10);
      DecimalInjective(a / 10, b / 10);
    }
  }

  /** A common prefix can be cancelled. */
  lemma PrefixCancel(p: string, a: string, b: string)
    requires p + a == p + b
    ensures a == b
  {
    assert a == (p + a)[|p|..];
    assert b == (p + b)[|p|..];
  }

  /** The longest prefix of s without the character c */
  function TakeUntil(s: string, c: char): (r: string)
    ensures c !in r
    ensures |r| <= |s| && r == s[..|r|]
    ensures |r| < |s| ==> s[|r|] == c
  {
    if |s| == 0 || s[0] == c then "" else [s[0]] + TakeUntil(s[1..], c)
  }

  /** The text between `lead` and the next double quote, when s starts with `lead`:
      how the value of an HTML attribute is read back from generated markup */
  function QuotedAfter(s: string, lead: string): (r: Option<string>)
    ensures r.Some? <==> lead <= s
    ensures r.Some? ==> '"' !in r.value && lead + r.value <= s
  {
    if lead <= s then Some(TakeUntil(s[|lead|..], '"')) else None
  }

  /** An attribute value without a double quote is read back unchanged. */
  lemma QuotedAfterValue(lead: string, v: string, rest: string)
    requires '"' !in v
    ensures QuotedAfter(lead + v + "\"" + rest, lead) == Some(v)
  {
    var s := lead + v + "\"" + rest;
    assert s[..|lead|] == lead;
    var tail := s[|lead|..];
    assert tail == v + "\"" + rest;
    var r := TakeUntil(tail, '"');
    assert tail[|v|] == '"';
    assert forall j :: 0 <= j < |v| ==> tail[j] == v[j];
    assert |r| == |v|;
    assert r == tail[..|v|] == v;
  }
}
