/** The handful of JavaScript string operations the pages use: ASCII
    lower/upper casing, `includes`, `trim`, the digit-only input filter
    `replace(/[^0-9]/g, "")`, `padStart` with zeros and the relational
    operators on strings. */
module Text {

  import opened Wrappers

  predicate IsUpper(c: char) { 'A' <= c <= 'Z' }
  predicate IsLower(c: char) { 'a' <= c <= 'z' }
  predicate IsDigit(c: char) { '0' <= c <= '9' }

  /** The characters `String.prototype.trim` removes: ECMAScript WhiteSpace
      and LineTerminator code points. */
  predicate IsSpace(c: char) {
    || c == ' ' || c == '\t' || c == '\n' || c == '\r'
    || c == '\U{000B}' || c == '\U{000C}' || c == '\U{00A0}' || c == '\U{1680}'
    || ('\U{2000}' <= c <= '\U{200A}')
    || c == '\U{2028}' || c == '\U{2029}' || c == '\U{202F}' || c == '\U{205F}'
    || c == '\U{3000}' || c == '\U{FEFF}'
  }

  function LowerChar(c: char): char {
    if IsUpper(c) then (c as int + 32) as char else c
  }

  function UpperChar(c: char): char {
    if IsLower(c) then (c as int - 32) as char else c
  }

  /** `s.toLowerCase()` on the ASCII letters. */
  function ToLower(s: string): (r: string)
    ensures |r| == |s|
    ensures forall i :: 0 <= i < |s| ==> r[i] == LowerChar(s[i])
    ensures forall i :: 0 <= i < |r| ==> !IsUpper(r[i])
  {
    seq(|s|, i requires 0 <= i < |s| => LowerChar(s[i]))
  }

  /** `s.toUpperCase()` on the ASCII letters. */
  function ToUpper(s: string): (r: string)
    ensures |r| == |s|
    ensures forall i :: 0 <= i < |s| ==> r[i] == UpperChar(s[i])
    ensures forall i :: 0 <= i < |r| ==> !IsLower(r[i])
  {
    seq(|s|, i requires 0 <= i < |s| => UpperChar(s[i]))
  }

  /** Upper-casing is idempotent: the program-code field can be re-typed
      through the same filter without changing it. */
  lemma ToUpperIdempotent(s: string)
    ensures ToUpper(ToUpper(s)) == ToUpper(s)
  {
    var u := ToUpper(s);
    assert forall i :: 0 <= i < |u| ==> UpperChar(u[i]) == u[i];
  }

  /** Lower-casing is idempotent. */
  lemma ToLowerIdempotent(s: string)
    ensures ToLower(ToLower(s)) == ToLower(s)
  {
    var l := ToLower(s);
    assert forall i :: 0 <= i < |l| ==> LowerChar(l[i]) == l[i];
  }

  /** Lower-casing neither makes nor removes blanks. */
  lemma ToLowerKeepsBlank(s: string)
    ensures AllSpace(ToLower(s)) <==> AllSpace(s)
  {
    var l := ToLower(s);
    assert forall i :: 0 <= i < |s| ==> (IsSpace(l[i]) <==> IsSpace(s[i]));
  }

  predicate IsPrefix(p: string, s: string) {
    |p| <= |s| && s[..|p|] == p
  }

  /** `hay.includes(needle)`. */
  predicate Contains(hay: string, needle: string)
    decreases |hay|
  {
    IsPrefix(needle, hay) || (|hay| > 0 && Contains(hay[1..], needle))
  }

  /** Every text includes itself. */
  lemma {:induction false} ContainsItself(s: string)
    ensures Contains(s, s)
  {
    assert IsPrefix(s, s);
  }

  predicate OccursAt(hay: string, needle: string, i: int) {
    0 <= i && i + |needle| <= |hay| && hay[i..i + |needle|] == needle
  }

  /** `includes` finds the needle exactly when it occurs at some position. */
  lemma {:induction false} ContainsIffOccurs(hay: string, needle: string)
    ensures Contains(hay, needle) <==> exists i :: OccursAt(hay, needle, i)
    decreases |hay|
  {
    if IsPrefix(needle, hay) {
      assert OccursAt(hay, needle, 0);
    } else if |hay| > 0 {
      ContainsIffOccurs(hay[1..], needle);
      forall i | 0 < i && i + |needle| <= |hay|
        ensures OccursAt(hay, needle, i) <==> OccursAt(hay[1..], needle, i - 1)
      {
        assert hay[1..][i - 1..i - 1 + |needle|] == hay[i..i + |needle|];
      }
      if Contains(hay[1..], needle) {
        var i :| OccursAt(hay[1..], needle, i);
        assert OccursAt(hay, needle, i + 1);
      }
    }
  }

  /** Every string includes the empty string. */
  lemma ContainsEmpty(hay: string)
    ensures Contains(hay, "")
  {
    assert IsPrefix("", hay);
  }

  function TrimStart(s: string): (r: string)
    decreases |s|
  {
    if |s| > 0 && IsSpace(s[0]) then TrimStart(s[1..]) else s
  }

  function TrimEnd(s: string): (r: string)
    decreases |s|
  {
    if |s| > 0 && IsSpace(s[|s| - 1]) then TrimEnd(s[..|s| - 1]) else s
  }

  /** `s.trim()`. */
  function Trim(s: string): string {
    TrimEnd(TrimStart(s))
  }

  predicate AllSpace(s: string) {
    forall i :: 0 <= i < |s| ==> IsSpace(s[i])
  }

  lemma {:induction false} TrimStartEmpty(s: string)
    ensures TrimStart(s) == [] <==> AllSpace(s)
    decreases |s|
  {
    if |s| > 0 && IsSpace(s[0]) {
      TrimStartEmpty(s[1..]);
      assert AllSpace(s) <==> AllSpace(s[1..]) by {
        if AllSpace(s[1..]) {
          forall i | 0 <= i < |s| ensures IsSpace(s[i]) {
            if i > 0 { assert s[i] == s[1..][i - 1]; }
          }
        }
      }
    }
  }

  lemma {:induction false} TrimEndKeepsNonEmpty(s: string)
    requires |s| > 0 && !IsSpace(s[0])
    ensures |TrimEnd(s)| > 0
    decreases |s|
  {
    if IsSpace(s[|s| - 1]) {
      TrimEndKeepsNonEmpty(s[..|s| - 1]);
    }
  }

  /** A field is blank after trimming exactly when it consists of whitespace
      only; this is what `!field.trim()` tests. */
  lemma TrimEmptyIffAllSpace(s: string)
    ensures Trim(s) == [] <==> AllSpace(s)
  {
    TrimStartEmpty(s);
    var t := TrimStart(s);
    if t != [] {
      assert !IsSpace(t[0]) by { TrimStartShape(s); }
      TrimEndKeepsNonEmpty(t);
    }
  }

  lemma {:induction false} TrimStartShape(s: string)
    ensures TrimStart(s) == [] || !IsSpace(TrimStart(s)[0])
    decreases |s|
  {
    if |s| > 0 && IsSpace(s[0]) {
      TrimStartShape(s[1..]);
    }
  }

  /** `s.replace(/[^0-9]/g, "")`: the characters 0-9 of `s`, in order. */
  function DigitsOnly(s: string): (r: string)
    ensures |r| <= |s|
    ensures forall i :: 0 <= i < |r| ==> IsDigit(r[i])
    ensures forall c :: c in r <==> c in s && IsDigit(c)
    decreases |s|
  {
    if |s| == 0 then []
    else if IsDigit(s[0]) then [s[0]] + DigitsOnly(s[1..])
    else DigitsOnly(s[1..])
  }

  predicate AllDigits(s: string) {
    forall i :: 0 <= i < |s| ==> IsDigit(s[i])
  }

  /** The filter leaves an all-digit string alone, so it is idempotent, and
      it changes a string only when the string holds a non-digit. */
  lemma {:induction false} DigitsOnlyFixed(s: string)
    ensures DigitsOnly(s) == s <==> AllDigits(s)
    decreases |s|
  {
    if |s| > 0 {
      DigitsOnlyFixed(s[1..]);
      if !IsDigit(s[0]) {
        assert |DigitsOnly(s)| < |s|;
      } else {
        assert AllDigits(s) <==> AllDigits(s[1..]) by {
          if AllDigits(s[1..]) {
            forall i | 0 <= i < |s| ensures IsDigit(s[i]) {
              if i > 0 { assert s[i] == s[1..][i - 1]; }
            }
          }
        }
      }
    }
  }

  lemma DigitsOnlyIdempotent(s: string)
    ensures DigitsOnly(DigitsOnly(s)) == DigitsOnly(s)
  {
    DigitsOnlyFixed(DigitsOnly(s));
  }

  /** `value || null` on a text field: the empty string is stored as null. */
  function OrNull(s: string): (r: Option<string>)
    ensures r.None? <==> s == []
    ensures r.Some? ==> r.value == s
  {
    if s == [] then None else Some(s)
  }

  /** JavaScript `a < b` on strings: lexicographic by character code, a
      proper prefix ordered first. */
  predicate LexLess(a: string, b: string)
    decreases |a|
  {
    if |a| == 0 then |b| > 0
    else if |b| == 0 then false
    else if a[0] != b[0] then a[0] < b[0]
    else LexLess(a[1..], b[1..])
  }

  /** The string order is strict and total, so `start >= end` is the exact
      negation of `start < end`. */
  lemma {:induction false} LexLessIrreflexive(a: string)
    ensures !LexLess(a, a)
    decreases |a|
  {
    if |a| > 0 { LexLessIrreflexive(a[1..]); }
  }

  lemma {:induction false} LexLessTotal(a: string, b: string)
    requires a != b
    ensures LexLess(a, b) || LexLess(b, a)
    decreases |a|
  {
    if |a| > 0 && |b| > 0 && a[0] == b[0] {
      assert a == [a[0]] + a[1..] && b == [b[0]] + b[1..];
      LexLessTotal(a[1..], b[1..]);
    }
  }

  lemma {:induction false} LexLessAsymmetric(a: string, b: string)
    requires LexLess(a, b)
    ensures !LexLess(b, a)
    decreases |a|
  {
    if |a| > 0 && |b| > 0 && a[0] == b[0] {
      LexLessAsymmetric(a[1..], b[1..]);
    }
  }

  function DigitChar(d: nat): char
    requires d < 10
  {
    ('0' as int + d) as char
  }

  function DigitValue(c: char): nat
    requires IsDigit(c)
  {
    c as int - '0' as int
  }

  /** `String(n)` for a natural number: its decimal digits, no leading zero. */
  function NatToString(n: nat): (r: string)
    ensures |r| > 0 && AllDigits(r)
    decreases n
  {
    if n < 10 then [DigitChar(n)] else NatToString(n / 10) + [DigitChar(n % 10)]
  }

  /** The number a digit string denotes (the reverse of `NatToString`). */
  function ParseDigits(s: string): nat
    requires AllDigits(s)
    decreases |s|
  {
    if |s| == 0 then 0 else ParseDigits(s[..|s| - 1]) * 10 + DigitValue(s[|s| - 1])
  }

  lemma {:induction false} ParseNatToString(n: nat)
    ensures ParseDigits(NatToString(n)) == n
    decreases n
  {
    if n >= 10 {
      ParseNatToString(n / 10);
      var s := NatToString(n);
      assert s[..|s| - 1] == NatToString(n / 10);
    }
  }

  function Zeros(k: nat): (r: string)
    ensures |r| == k && AllDigits(r)
  {
    seq(k, i => '0')
  }

  /** `s.padStart(width, "0")`. */
  function PadZero(s: string, width: nat): (r: string)
    ensures |r| == if |s| < width then width else |s|
  {
    if |s| < width then Zeros(width - |s|) + s else s
  }

  lemma {:induction false} ParseLeadingZeros(k: nat, s: string)
    requires AllDigits(s)
    ensures AllDigits(Zeros(k) + s)
    ensures ParseDigits(Zeros(k) + s) == ParseDigits(s)
    decreases |s|
  {
    var z := Zeros(k) + s;
    assert AllDigits(z) by {
      forall i | 0 <= i < |z| ensures IsDigit(z[i]) {
        if i >= k { assert z[i] == s[i - k]; }
      }
    }
    if |s| == 0 {
      ParseZeros(k);
      assert z == Zeros(k);
    } else {
      ParseLeadingZeros(k, s[..|s| - 1]);
      assert z[..|z| - 1] == Zeros(k) + s[..|s| - 1];
    }
  }

  lemma {:induction false} ParseZeros(k: nat)
    ensures ParseDigits(Zeros(k)) == 0
    decreases k
  {
    if k > 0 {
      ParseZeros(k - 1);
      assert Zeros(k)[..k - 1] == Zeros(k - 1);
    }
  }

  /** Zero-padding a number's decimal form does not change the number it
      denotes. */
  lemma PadZeroRoundTrip(n: nat, width: nat)
    ensures AllDigits(PadZero(NatToString(n), width))
    ensures ParseDigits(PadZero(NatToString(n), width)) == n
  {
    var s := NatToString(n);
    ParseNatToString(n);
    if |s| < width {
      ParseLeadingZeros(width - |s|, s);
    }
  }

  /** Numbers below 10^k have at most k decimal digits. */
  lemma {:induction false} NatToStringLength(n: nat, k: nat, bound: nat)
    requires bound == Pow10(k) && n < bound
    ensures |NatToString(n)| <= if k == 0 then 1 else k
    decreases k
  {
    if n >= 10 {
      assert k >= 2;
      NatToStringLength(n / 10, k - 1, Pow10(k - 1));
    }
  }

  function Pow10(k: nat): (r: nat)
    ensures r >= 1
  {
    if k == 0 then 1 else 10 * Pow10(k - 1)
  }
}
