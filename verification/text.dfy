/** String primitives the assistant relies on: Python's `in` substring test,
    `str.lower` / `str.upper` / `str.capitalize`, `str.strip`, `str.join`,
    and the decimal rendering of integers used by f-strings and `strftime`. */
module Text {
  import opened Options

  // ---------------------------------------------------------------------
  // Whitespace, as Python's str.isspace() and the `\s` class of `re` see it
  // ---------------------------------------------------------------------

  predicate IsSpace(c: char) {
    || c == ' ' || c == '\t' || c == '\n' || c == '\r' || c == '\U{0B}' || c == '\U{0C}'
    || ('\U{1C}' <= c <= '\U{1F}') || c == '\U{85}' || c == '\U{A0}' || c == '\U{1680}'
    || ('\U{2000}' <= c <= '\U{200A}') || c == '\U{2028}' || c == '\U{2029}'
    || c == '\U{202F}' || c == '\U{205F}' || c == '\U{3000}'
  }

  predicate IsDigit(c: char) {
    '0' <= c <= '9'
  }

  function DigitValue(c: char): (v: nat)
    requires IsDigit(c)
    ensures v < 10
  {
    (c as int) - ('0' as int)
  }

  function DigitChar(d: nat): (c: char)
    requires d < 10
    ensures IsDigit(c) && DigitValue(c) == d
  {
    (('0' as int) + d) as char
  }

  // ---------------------------------------------------------------------
  // Case mapping
  // ---------------------------------------------------------------------

  /** Upper-case letters whose lower-case form is a single character:
      ASCII, Latin-1, Latin Extended-A (without U+0130) and basic Cyrillic. */
  predicate IsUpperLetter(c: char) {
    var n := c as int;
    || 0x41 <= n <= 0x5A
    || (0xC0 <= n <= 0xDE && n != 0xD7)
    || ((0x100 <= n <= 0x12F || 0x132 <= n <= 0x137 || 0x14A <= n <= 0x177) && n % 2 == 0)
    || ((0x139 <= n <= 0x148 || 0x179 <= n <= 0x17E) && n % 2 == 1)
    || n == 0x178
    || 0x400 <= n <= 0x42F
  }

  /** Lower-case letters whose upper-case form is a single character, the
      images of IsUpperLetter. */
  predicate IsLowerLetter(c: char) {
    var n := c as int;
    || 0x61 <= n <= 0x7A
    || (0xE0 <= n <= 0xFE && n != 0xF7)
    || ((0x101 <= n <= 0x130 || 0x133 <= n <= 0x138 || 0x14B <= n <= 0x178) && n % 2 == 1)
    || ((0x13A <= n <= 0x149 || 0x17A <= n <= 0x17F) && n % 2 == 0)
    || n == 0xFF
    || 0x430 <= n <= 0x45F
  }

  function LowerChar(c: char): (r: char)
    ensures IsUpperLetter(c) ==> IsLowerLetter(r)
    ensures !IsUpperLetter(c) ==> r == c
  {
    var n := c as int;
    if 0x41 <= n <= 0x5A || (0xC0 <= n <= 0xDE && n != 0xD7) then (n + 0x20) as char
    else if (0x100 <= n <= 0x12F || 0x132 <= n <= 0x137 || 0x14A <= n <= 0x177) && n % 2 == 0 then (n + 1) as char
    else if (0x139 <= n <= 0x148 || 0x179 <= n <= 0x17E) && n % 2 == 1 then (n + 1) as char
    else if n == 0x178 then 0xFF as char
    else if 0x400 <= n <= 0x40F then (n + 0x50) as char
    else if 0x410 <= n <= 0x42F then (n + 0x20) as char
    else c
  }

  function UpperChar(c: char): (r: char)
    ensures IsLowerLetter(c) ==> IsUpperLetter(r)
    ensures !IsLowerLetter(c) ==> r == c
  {
    var n := c as int;
    if 0x61 <= n <= 0x7A || (0xE0 <= n <= 0xFE && n != 0xF7) then (n - 0x20) as char
    else if (0x101 <= n <= 0x130 || 0x133 <= n <= 0x138 || 0x14B <= n <= 0x178) && n % 2 == 1 then (n - 1) as char
    else if (0x13A <= n <= 0x149 || 0x17A <= n <= 0x17F) && n % 2 == 0 then (n - 1) as char
    else if n == 0xFF then 0x178 as char
    else if 0x450 <= n <= 0x45F then (n - 0x50) as char
    else if 0x430 <= n <= 0x44F then (n - 0x20) as char
    else c
  }

  /** Characters on which LowerChar and UpperChar agree with Python's
      `str.lower` and `str.upper`: ASCII, Latin-1, Latin Extended-A and basic
      Cyrillic, except µ, ß, İ, ı, ŉ and ſ, which Python maps to a character
      outside this range or to two characters. */
  predicate CaseExact(c: char) {
    var n := c as int;
    && (n < 0x180 || 0x400 <= n <= 0x45F)
    && n != 0xB5 && n != 0xDF && n != 0x130 && n != 0x131 && n != 0x149 && n != 0x17F
  }

  /** Every character of `s` is CaseExact. */
  predicate CaseExactText(s: string) {
    forall i :: 0 <= i < |s| ==> CaseExact(s[i])
  }

  /** No character is both an upper-case and a lower-case letter, so a lowered
      character is never lowered again. */
  lemma LowerCharIdempotent(c: char)
    ensures LowerChar(LowerChar(c)) == LowerChar(c)
  {
    if IsUpperLetter(c) {
      assert !IsUpperLetter(LowerChar(c));
    }
  }

  /** Lower-casing forgets the case: a character and its upper-case form lower
      to the same character. */
  lemma LowerUpperChar(c: char)
    ensures LowerChar(UpperChar(c)) == LowerChar(c)
  {
  }

  function Lower(s: string): (r: string)
    ensures |r| == |s|
    ensures forall i :: 0 <= i < |s| ==> r[i] == LowerChar(s[i])
  {
    seq(|s|, i requires 0 <= i < |s| => LowerChar(s[i]))
  }

  function Upper(s: string): (r: string)
    ensures |r| == |s|
    ensures forall i :: 0 <= i < |s| ==> r[i] == UpperChar(s[i])
  {
    seq(|s|, i requires 0 <= i < |s| => UpperChar(s[i]))
  }

  /** Python's str.capitalize(): first character upper-cased, the rest lowered. */
  function Capitalize(s: string): (r: string)
    ensures |r| == |s|
    ensures |s| > 0 ==> r[0] == UpperChar(s[0]) && r[1..] == Lower(s[1..])
  {
    if |s| == 0 then "" else [UpperChar(s[0])] + Lower(s[1..])
  }

  lemma LowerIdempotent(s: string)
    ensures Lower(Lower(s)) == Lower(s)
  {
    forall i | 0 <= i < |s|
      ensures Lower(Lower(s))[i] == Lower(s)[i]
    {
      LowerCharIdempotent(s[i]);
    }
  }

  lemma LowerOfUpper(s: string)
    ensures Lower(Upper(s)) == Lower(s)
  {
    forall i | 0 <= i < |s|
      ensures Lower(Upper(s))[i] == Lower(s)[i]
    {
      LowerUpperChar(s[i]);
    }
  }

  // ---------------------------------------------------------------------
  // Substring search (Python's `sub in s` and str.find)
  // ---------------------------------------------------------------------

  predicate OccursAt(s: string, sub: string, i: int) {
    0 <= i && i + |sub| <= |s| && s[i..i + |sub|] == sub
  }

  /** The first position at or after `k` where `sub` occurs in `s`. */
  function FindFrom(s: string, sub: string, k: nat): (r: Option<nat>)
    decreases |s| - k
    ensures r.Some? ==> k <= r.value && OccursAt(s, sub, r.value)
    ensures r.Some? ==> forall j :: k <= j < r.value ==> !OccursAt(s, sub, j)
    ensures r.None? ==> forall j :: k <= j ==> !OccursAt(s, sub, j)
  {
    if k + |sub| > |s| then None
    else if s[k..k + |sub|] == sub then Some(k)
    else FindFrom(s, sub, k + 1)
  }

  /** Python's `sub in s`. */
  predicate Contains(s: string, sub: string) {
    FindFrom(s, sub, 0).Some?
  }

  lemma ContainsIff(s: string, sub: string)
    ensures Contains(s, sub) <==> exists i :: OccursAt(s, sub, i)
  {
  }

  lemma ContainsAt(s: string, sub: string, i: int)
    requires OccursAt(s, sub, i)
    ensures Contains(s, sub)
  {
  }

  /** A piece of a concatenation occurs in it. */
  lemma ContainsMiddle(a: string, b: string, c: string)
    ensures Contains(a + b + c, b)
  {
    var s := a + b + c;
    assert s[|a|..|a| + |b|] == b;
    ContainsAt(s, b, |a|);
  }

  lemma ContainsSelf(s: string)
    ensures Contains(s, s)
  {
    assert s[0..|s|] == s;
    ContainsAt(s, s, 0);
  }

  /** What occurs in a prefix occurs in the whole. */
  lemma InPrefix(s: string, t: string, x: string)
    requires Contains(s, x)
    ensures Contains(s + t, x)
  {
    var i := FindFrom(s, x, 0).value;
    assert (s + t)[i..i + |x|] == s[i..i + |x|];
    ContainsAt(s + t, x, i);
  }

  /** What occurs in a suffix occurs in the whole. */
  lemma InSuffix(s: string, t: string, x: string)
    requires Contains(t, x)
    ensures Contains(s + t, x)
  {
    var i := FindFrom(t, x, 0).value;
    assert (s + t)[|s| + i..|s| + i + |x|] == t[i..i + |x|];
    ContainsAt(s + t, x, |s| + i);
  }

  /** Occurrence is transitive: whatever occurs in a substring occurs in the string. */
  lemma ContainsTransitive(s: string, mid: string, sub: string)
    requires Contains(s, mid) && Contains(mid, sub)
    ensures Contains(s, sub)
  {
    var i := FindFrom(s, mid, 0).value;
    var j := FindFrom(mid, sub, 0).value;
    assert s[i..i + |mid|] == mid;
    forall k | 0 <= k < |sub|
      ensures s[i + j + k] == sub[k]
    {
      assert s[i + (j + k)] == mid[j + k];
      assert mid[j..j + |sub|][k] == mid[j + k];
    }
    assert s[i + j..i + j + |sub|] == sub;
    ContainsAt(s, sub, i + j);
  }

  /** Python's `any(w in s for w in words)`. */
  predicate ContainsAny(s: string, words: seq<string>) {
    exists i :: 0 <= i < |words| && Contains(s, words[i])
  }

  /** A text holding one of the listed words holds one of the list. */
  lemma ContainsListed(s: string, w: string, words: seq<string>)
    requires w in words && Contains(s, w)
    ensures ContainsAny(s, words)
  {
    var i :| 0 <= i < |words| && words[i] == w;
  }

  predicate StartsWith(s: string, prefix: string) {
    |prefix| <= |s| && s[..|prefix|] == prefix
  }

  // ---------------------------------------------------------------------
  // str.strip()
  // ---------------------------------------------------------------------

  /** The number of leading whitespace characters. */
  function LeadingSpaces(s: string): (n: nat)
    ensures n <= |s|
    ensures forall i :: 0 <= i < n ==> IsSpace(s[i])
    ensures n < |s| ==> !IsSpace(s[n])
  {
    if |s| == 0 || !IsSpace(s[0]) then 0 else 1 + LeadingSpaces(s[1..])
  }

  /** The number of trailing whitespace characters. */
  function TrailingSpaces(s: string): (n: nat)
    ensures n <= |s|
    ensures forall i :: |s| - n <= i < |s| ==> IsSpace(s[i])
    ensures n < |s| ==> !IsSpace(s[|s| - n - 1])
  {
    if |s| == 0 || !IsSpace(s[|s| - 1]) then 0 else 1 + TrailingSpaces(s[..|s| - 1])
  }

  /** Python's str.strip() with no argument. */
  function Trim(s: string): (r: string)
    ensures |r| > 0 ==> !IsSpace(r[0]) && !IsSpace(r[|r| - 1])
    ensures exists a, b :: 0 <= a <= b <= |s| && r == s[a..b]
                           && (forall i :: 0 <= i < a ==> IsSpace(s[i]))
                           && (forall i :: b <= i < |s| ==> IsSpace(s[i]))
  {
    var t := s[LeadingSpaces(s)..];
    var r := t[..|t| - TrailingSpaces(t)];
    assert r == s[LeadingSpaces(s)..|s| - TrailingSpaces(t)];
    r
  }

  /** Stripping is idempotent: a stripped string has nothing left to strip. */
  lemma TrimIdempotent(s: string)
    ensures Trim(Trim(s)) == Trim(s)
  {
    var r := Trim(s);
    assert LeadingSpaces(r) == 0;
    assert TrailingSpaces(r) == 0;
  }

  /** Text without whitespace has nothing to strip. */
  lemma TrimSpaceFree(s: string)
    requires forall k :: 0 <= k < |s| ==> !IsSpace(s[k])
    ensures Trim(s) == s
  {
    assert LeadingSpaces(s) == 0;
    assert s[0..] == s;
    assert TrailingSpaces(s) == 0;
  }

  /** A stripped string occurs in the original. */
  lemma TrimOccurs(s: string)
    ensures Contains(s, Trim(s))
  {
    var a, b :| 0 <= a <= b <= |s| && Trim(s) == s[a..b];
    ContainsAt(s, Trim(s), a);
  }

  // ---------------------------------------------------------------------
  // str.join and repetition
  // ---------------------------------------------------------------------

  /** Python's `sep.join(parts)`. */
  function Join(parts: seq<string>, sep: string): string {
    if |parts| == 0 then ""
    else if |parts| == 1 then parts[0]
    else parts[0] + sep + Join(parts[1..], sep)
  }

  /** Every part is a whole line of the joined text: framed by the
      separator, each part occurs between two separators. */
  lemma {:induction false} JoinFramed(parts: seq<string>, sep: string, i: nat)
    requires i < |parts|
    ensures Contains(sep + Join(parts, sep) + sep, sep + parts[i] + sep)
    decreases |parts|
  {
    var framed := sep + parts[i] + sep;
    if |parts| == 1 {
      assert sep + Join(parts, sep) + sep == [] + framed + [];
      ContainsMiddle([], framed, []);
    } else {
      var rest := Join(parts[1..], sep);
      var whole := sep + Join(parts, sep) + sep;
      if i == 0 {
        assert whole == [] + framed + (rest + sep);
        ContainsMiddle([], framed, rest + sep);
      } else {
        JoinFramed(parts[1..], sep, i - 1);
        assert parts[1..][i - 1] == parts[i];
        assert whole == (sep + parts[0]) + (sep + rest + sep) + [];
        ContainsMiddle(sep + parts[0], sep + rest + sep, []);
        ContainsTransitive(whole, sep + rest + sep, framed);
      }
    }
  }

  /** The concatenation of all parts, in order (Python's `"".join`, or `+=`
      in a loop). */
  function Concat(parts: seq<string>): string
    decreases |parts|
  {
    if |parts| == 0 then "" else parts[0] + Concat(parts[1..])
  }

  /** Every part occurs in the concatenation. */
  lemma {:induction false} ConcatContains(parts: seq<string>, i: nat)
    requires i < |parts|
    ensures Contains(Concat(parts), parts[i])
    decreases |parts|
  {
    var rest := Concat(parts[1..]);
    if i == 0 {
      assert Concat(parts) == [] + parts[0] + rest;
      ContainsMiddle([], parts[0], rest);
    } else {
      ConcatContains(parts[1..], i - 1);
      assert parts[1..][i - 1] == parts[i];
      assert Concat(parts) == parts[0] + rest + [];
      ContainsMiddle(parts[0], rest, []);
      ContainsTransitive(Concat(parts), rest, parts[i]);
    }
  }

  /** Every part occurs in a text that ends with the concatenation. */
  lemma ConcatContainsAll(head: string, parts: seq<string>)
    ensures forall i :: 0 <= i < |parts| ==> Contains(head + Concat(parts), parts[i])
  {
    forall i | 0 <= i < |parts|
      ensures Contains(head + Concat(parts), parts[i])
    {
      ConcatContains(parts, i);
      assert head + Concat(parts) == head + Concat(parts) + [];
      ContainsMiddle(head, Concat(parts), []);
      ContainsTransitive(head + Concat(parts), Concat(parts), parts[i]);
    }
  }

  /** Python's `c * n` for a one-character string. */
  function Repeat(c: char, n: nat): (r: string)
    ensures |r| == n
    ensures forall i :: 0 <= i < n ==> r[i] == c
  {
    if n == 0 then "" else [c] + Repeat(c, n - 1)
  }

  // ---------------------------------------------------------------------
  // Decimal numbers
  // ---------------------------------------------------------------------

  predicate AllDigits(s: string) {
    forall i :: 0 <= i < |s| ==> IsDigit(s[i])
  }

  /** Python's `int(s)` for a string of ASCII digits. */
  function DigitsValue(s: string): nat
    requires AllDigits(s)
  {
    if |s| == 0 then 0 else 10 * DigitsValue(s[..|s| - 1]) + DigitValue(s[|s| - 1])
  }

  /** Python's `str(n)` for a natural number. */
  function NatToString(n: nat): (r: string)
    ensures |r| > 0 && AllDigits(r)
    ensures |r| > 1 ==> r[0] != '0'
  {
    if n < 10 then [DigitChar(n)] else NatToString(n / 10) + [DigitChar(n % 10)]
  }

  /** Reading back a rendered number gives the number. */
  lemma {:induction false} NatToStringRoundTrip(n: nat)
    ensures DigitsValue(NatToString(n)) == n
  {
    if n >= 10 {
      var s := NatToString(n);
      assert s[..|s| - 1] == NatToString(n / 10);
      NatToStringRoundTrip(n / 10);
    }
  }

  /** Python's `str(i)` for any integer. */
  function IntToString(i: int): string {
    if i < 0 then "-" + NatToString(-i) else NatToString(i)
  }

  /** `%02d`: at least two digits, zero-padded. */
  function Pad2(n: nat): (r: string)
    ensures AllDigits(r)
    ensures n < 100 ==> |r| == 2 && DigitsValue(r) == n
  {
    if n < 100 then
      var r := [DigitChar(n / 10), DigitChar(n % 10)];
      assert r[..1][..0] == [];
      assert DigitsValue(r[..1]) == n / 10;
      r
    else NatToString(n)
  }

  /** `%04d`: at least four digits, zero-padded. */
  function Pad4(n: nat): (r: string)
    ensures AllDigits(r)
    ensures n < 10000 ==> |r| == 4
  {
    if n < 10000 then [DigitChar(n / 1000), DigitChar(n / 100 % 10), DigitChar(n / 10 % 10), DigitChar(n % 10)]
    else NatToString(n)
  }
}
