/**
 * The Python string operations the wrapper relies on: `str.join`,
 * substring containment (`x in s`), `str.lower` on ASCII text and
 * `str(int)` as used inside f-strings.
 */
module Strings {

  // ---------------------------------------------------------------------
  // sep.join(parts)
  // ---------------------------------------------------------------------

  /** `sep.join(parts)`: the parts in order with one `sep` between neighbours. */
  function Join(parts: seq<string>, sep: string): string
    decreases |parts|
  {
    if |parts| == 0 then ""
    else if |parts| == 1 then parts[0]
    else parts[0] + sep + Join(parts[1..], sep)
  }

  /** Every part preceded by one separator: `sep + p0 + sep + p1 + ...`. */
  function SepPrefixed(parts: seq<string>, sep: string): string
    decreases |parts|
  {
    if |parts| == 0 then "" else sep + parts[0] + SepPrefixed(parts[1..], sep)
  }

  /** A joined list is its first part followed by every other part, each after one separator. */
  lemma {:induction false} JoinIsHeadThenPrefixed(parts: seq<string>, sep: string)
    requires |parts| > 0
    ensures Join(parts, sep) == parts[0] + SepPrefixed(parts[1..], sep)
    decreases |parts|
  {
    if |parts| > 1 {
      JoinIsHeadThenPrefixed(parts[1..], sep);
      assert parts[1..][1..] == parts[2..];
      assert SepPrefixed(parts[1..], sep) == sep + parts[1] + SepPrefixed(parts[2..], sep);
    }
  }

  /** Separator-prefixing distributes over concatenation of the part lists. */
  lemma {:induction false} SepPrefixedAppend(xs: seq<string>, ys: seq<string>, sep: string)
    ensures SepPrefixed(xs + ys, sep) == SepPrefixed(xs, sep) + SepPrefixed(ys, sep)
    decreases |xs|
  {
    if |xs| == 0 {
      assert xs + ys == ys;
    } else {
      assert (xs + ys)[1..] == xs[1..] + ys;
      SepPrefixedAppend(xs[1..], ys, sep);
    }
  }

  /** Appending one more part to a non-empty list adds exactly one separator and that part. */
  lemma {:induction false} JoinSnoc(parts: seq<string>, last: string, sep: string)
    requires |parts| > 0
    ensures Join(parts + [last], sep) == Join(parts, sep) + sep + last
  {
    var longer := parts + [last];
    var head, tail := parts[0], SepPrefixed(parts[1..], sep);
    JoinIsHeadThenPrefixed(longer, sep);
    JoinIsHeadThenPrefixed(parts, sep);
    assert longer[0] == head;
    assert longer[1..] == parts[1..] + [last];
    SepPrefixedAppend(parts[1..], [last], sep);
    assert [last][1..] == [];
    assert SepPrefixed([last], sep) == sep + last;
    assert Join(longer, sep) == head + (tail + (sep + last));
    assert Join(parts, sep) == head + tail;
  }

  // ---------------------------------------------------------------------
  // sub in s
  // ---------------------------------------------------------------------

  /** `sub` occurs in `s` starting at offset `i`. */
  predicate OccursAt(s: string, sub: string, i: nat)
  {
    i + |sub| <= |s| && s[i..i + |sub|] == sub
  }

  /** Python's `sub in s` on strings: `sub` occurs in `s` at some offset. */
  function Contains(s: string, sub: string): (r: bool)
    ensures r <==> exists i: nat :: OccursAt(s, sub, i)
    decreases |s|
  {
    if |sub| > |s| then false
    else if s[..|sub|] == sub then
      assert OccursAt(s, sub, 0);
      true
    else
      ContainsShift(s, sub);
      Contains(s[1..], sub)
  }

  /** Occurrences in `s[1..]` are the occurrences in `s` at a positive offset. */
  lemma ContainsShift(s: string, sub: string)
    requires |s| > 0 && !OccursAt(s, sub, 0)
    ensures (exists i: nat :: OccursAt(s[1..], sub, i)) <==> (exists i: nat :: OccursAt(s, sub, i))
  {
    forall i: nat | OccursAt(s[1..], sub, i)
      ensures OccursAt(s, sub, i + 1)
    {
      assert s[1..][i..i + |sub|] == s[i + 1..i + 1 + |sub|];
    }
    forall i: nat | OccursAt(s, sub, i)
      ensures OccursAt(s[1..], sub, i - 1)
    {
      assert i > 0;
      assert s[1..][i - 1..i - 1 + |sub|] == s[i..i + |sub|];
    }
  }

  /** Containment is transitive: an occurrence of an occurrence is an occurrence. */
  lemma ContainsTransitive(a: string, b: string, c: string)
    requires Contains(a, b) && Contains(b, c)
    ensures Contains(a, c)
  {
    var i: nat :| OccursAt(a, b, i);
    var j: nat :| OccursAt(b, c, j);
    forall k | 0 <= k < |c|
      ensures a[i + j..i + j + |c|][k] == c[k]
    {
      assert c[k] == b[j + k] == a[i + j + k];
    }
    assert OccursAt(a, c, i + j);
  }

  // ---------------------------------------------------------------------
  // s.lower() on ASCII
  // ---------------------------------------------------------------------

  function LowerChar(c: char): char
  {
    if 'A' <= c <= 'Z' then (c as int + 32) as char else c
  }

  /** `s.lower()`, restricted to the ASCII letters: each character lowercased in place. */
  function Lower(s: string): (r: string)
    ensures |r| == |s|
    ensures forall i :: 0 <= i < |s| ==> r[i] == LowerChar(s[i])
    decreases |s|
  {
    if s == [] then [] else [LowerChar(s[0])] + Lower(s[1..])
  }

  /** Lowercasing commutes with taking a slice. */
  lemma LowerSlice(s: string, i: nat, j: nat)
    requires i <= j <= |s|
    ensures Lower(s)[i..j] == Lower(s[i..j])
  {
    var whole, part := Lower(s), Lower(s[i..j]);
    var lhs := whole[i..j];
    assert |lhs| == |part| == j - i;
    forall k | 0 <= k < j - i
      ensures lhs[k] == part[k]
    {
      assert lhs[k] == whole[i + k] == LowerChar(s[i + k]);
      assert part[k] == LowerChar(s[i..j][k]);
    }
  }

  /** `sub in s` implies `sub.lower() in s.lower()`: case-insensitive checks see every mixed-case occurrence. */
  lemma ContainsLower(s: string, sub: string)
    requires Contains(s, sub)
    ensures Contains(Lower(s), Lower(sub))
  {
    var i: nat :| OccursAt(s, sub, i);
    LowerSlice(s, i, i + |sub|);
    assert OccursAt(Lower(s), Lower(sub), i);
  }

  // ---------------------------------------------------------------------
  // str(n) for integers
  // ---------------------------------------------------------------------

  predicate IsDigit(c: char)
  {
    '0' <= c <= '9'
  }

  function DigitChar(d: nat): (c: char)
    requires d < 10
    ensures IsDigit(c) && c as int - '0' as int == d
  {
    ('0' as int + d) as char
  }

  /** Decimal digits of `n`, most significant first, without leading zeros. */
  function NatToString(n: nat): (r: string)
    ensures |r| >= 1
    ensures forall i :: 0 <= i < |r| ==> IsDigit(r[i])
    ensures r[0] == '0' ==> n == 0
    decreases n
  {
    if n < 10 then [DigitChar(n)] else NatToString(n / 10) + [DigitChar(n % 10)]
  }

  /** `str(i)`: decimal, with a leading minus sign for negative numbers. */
  function IntToString(i: int): string
  {
    if i < 0 then "-" + NatToString(-i) else NatToString(i)
  }

  function DigitValue(c: char): (d: nat)
    requires IsDigit(c)
    ensures d < 10
  {
    c as int - '0' as int
  }

  /** The value of a string of decimal digits (the inverse of NatToString). */
  function ParseNat(s: string): nat
    requires forall i :: 0 <= i < |s| ==> IsDigit(s[i])
    decreases |s|
  {
    if s == [] then 0
    else ParseNat(s[..|s| - 1]) * 10 + DigitValue(s[|s| - 1])
  }

  /** The value of `str(i)` read back as a decimal integer. */
  function ParseInt(s: string): int
    requires |s| > 0
    requires s[0] == '-' ==> forall i :: 1 <= i < |s| ==> IsDigit(s[i])
    requires s[0] != '-' ==> forall i :: 0 <= i < |s| ==> IsDigit(s[i])
  {
    if s[0] == '-' then 0 - ParseNat(s[1..]) else ParseNat(s)
  }

  lemma {:induction false} NatToStringRoundTrip(n: nat)
    ensures ParseNat(NatToString(n)) == n
    decreases n
  {
    if n >= 10 {
      var r := NatToString(n);
      assert r[..|r| - 1] == NatToString(n / 10);
      NatToStringRoundTrip(n / 10);
    }
  }

  /** Rendering an integer in decimal loses nothing: it reads back as the same integer. */
  lemma IntToStringRoundTrip(i: int)
    ensures |IntToString(i)| > 0 && ParseInt(IntToString(i)) == i
  {
    if i < 0 {
      assert IntToString(i)[1..] == NatToString(-i);
      NatToStringRoundTrip(-i);
    } else {
      NatToStringRoundTrip(i);
    }
  }
}
