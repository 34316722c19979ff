/**
 * The pieces of Java's string and number library that the assembler relies on,
 * written out so that their edge cases are visible: String.contains,
 * String.split (with and without a limit), replaceAll over single characters,
 * StringTokenizer on blanks, Integer.parseInt and String.format("%0wX").
 */
module Strings {

  // ---------------------------------------------------------------------------
  // Searching
  // ---------------------------------------------------------------------------

  /** Position of the first `c` in `s`, or |s| when `s` has none. */
  function IndexOf(s: string, c: char): (k: nat)
    ensures k <= |s|
    ensures k < |s| ==> s[k] == c
    ensures c !in s[..k]
    ensures k == |s| <==> c !in s
  {
    if s == [] then 0
    else if s[0] == c then 0
    else
      var k' := IndexOf(s[1..], c);
      assert s[..k' + 1] == [s[0]] + s[1..][..k'];
      1 + k'
  }

  /** `String.contains`: `t` occurs in `s` as a block of consecutive characters. */
  predicate Contains(s: string, t: string)
    decreases |s|
  {
    (|t| <= |s| && s[..|t|] == t) || (s != [] && Contains(s[1..], t))
  }

  /** `t` occurs in `s` starting at index `i`. */
  predicate OccursAt(s: string, t: string, i: int)
  {
    0 <= i <= |s| - |t| && s[i..i + |t|] == t
  }

  /** The recursive `Contains` means what `String.contains` promises: an occurrence at some index. */
  lemma {:induction false} ContainsAt(s: string, t: string)
    ensures Contains(s, t) <==> exists i :: OccursAt(s, t, i)
    decreases |s|
  {
    if s != [] {
      ContainsAt(s[1..], t);
      if Contains(s[1..], t) {
        var i :| OccursAt(s[1..], t, i);
        assert s[i + 1..i + 1 + |t|] == s[1..][i..i + |t|];
        assert OccursAt(s, t, i + 1);
      }
      if i :| OccursAt(s, t, i) && i > 0 {
        assert s[1..][i - 1..i - 1 + |t|] == s[i..i + |t|];
        assert OccursAt(s[1..], t, i - 1);
      }
      if |t| <= |s| && s[..|t|] == t {
        assert OccursAt(s, t, 0);
      }
    } else if t == [] {
      assert OccursAt(s, t, 0);
    }
  }

  /** Containing a one-character string is containing that character. */
  lemma {:induction false} ContainsChar(s: string, c: char)
    ensures Contains(s, [c]) <==> c in s
    decreases |s|
  {
    if s != [] {
      ContainsChar(s[1..], c);
      assert c in s <==> s[0] == c || c in s[1..];
    }
  }

  // ---------------------------------------------------------------------------
  // replaceAll of single characters
  // ---------------------------------------------------------------------------

  /** `s.replaceAll(re, "")` for a pattern `re` that matches exactly the characters of `drop`. */
  function Without(s: string, drop: set<char>): (r: string)
    ensures |r| <= |s|
    ensures forall c :: c in r <==> c in s && c !in drop
  {
    if s == [] then []
    else (if s[0] in drop then [] else [s[0]]) + Without(s[1..], drop)
  }

  /** Removing characters that do not occur changes nothing. */
  lemma {:induction false} WithoutAbsent(s: string, drop: set<char>)
    requires forall c :: c in drop ==> c !in s
    ensures Without(s, drop) == s
  {
    if s != [] {
      WithoutAbsent(s[1..], drop);
      assert s == [s[0]] + s[1..];
    }
  }

  // ---------------------------------------------------------------------------
  // Splitting
  // ---------------------------------------------------------------------------

  /** The pieces of `s` between occurrences of `d`, empty pieces included. */
  function Fields(s: string, d: char): (r: seq<string>)
    ensures |r| >= 1
    ensures forall k :: 0 <= k < |r| ==> d !in r[k]
    decreases |s|
  {
    var k := IndexOf(s, d);
    if k == |s| then [s] else [s[..k]] + Fields(s[k + 1..], d)
  }

  /** `String.join` with a one-character separator. */
  function Join(r: seq<string>, d: char): string
    requires |r| >= 1
  {
    if |r| == 1 then r[0] else r[0] + [d] + Join(r[1..], d)
  }

  lemma {:induction false} IndexOfAfter(a: string, d: char, t: string)
    requires d !in a
    ensures IndexOf(a + [d] + t, d) == |a|
  {
    if a != [] {
      assert (a + [d] + t)[1..] == a[1..] + [d] + t;
      IndexOfAfter(a[1..], d, t);
    }
  }

  /** Splitting and joining again gives back the string. */
  lemma {:induction false} JoinFields(s: string, d: char)
    ensures Join(Fields(s, d), d) == s
    decreases |s|
  {
    var k := IndexOf(s, d);
    if k < |s| {
      var r, rest := Fields(s, d), s[k + 1..];
      JoinFields(rest, d);
      assert r == [s[..k]] + Fields(rest, d);
      assert |r| != 1 && r[0] == s[..k] && r[1..] == Fields(rest, d);
      assert Join(r, d) == s[..k] + [d] + rest;
      assert s == s[..k] + [d] + rest;
    }
  }

  /** Joining pieces free of the separator and splitting again gives back the pieces. */
  lemma {:induction false} FieldsJoin(r: seq<string>, d: char)
    requires |r| >= 1
    requires forall k :: 0 <= k < |r| ==> d !in r[k]
    ensures Fields(Join(r, d), d) == r
  {
    if |r| == 1 {
      assert IndexOf(r[0], d) == |r[0]|;
    } else {
      var rest := Join(r[1..], d);
      var s := r[0] + [d] + rest;
      IndexOfAfter(r[0], d, rest);
      assert s[..|r[0]|] == r[0];
      assert s[|r[0]| + 1..] == rest;
      FieldsJoin(r[1..], d);
      assert r == [r[0]] + r[1..];
    }
  }

  /** `r` without the empty strings at its end. */
  function TrimEmptyTail(r: seq<string>): (t: seq<string>)
    ensures |t| <= |r| && t == r[..|t|]
    ensures |t| > 0 ==> t[|t| - 1] != ""
    ensures forall k :: |t| <= k < |r| ==> r[k] == ""
  {
    if r == [] then []
    else if r[|r| - 1] == "" then TrimEmptyTail(r[..|r| - 1])
    else r
  }

  /** `String.split` on a one-character delimiter without a limit: the empty string
      gives one empty piece; otherwise trailing empty pieces are dropped. */
  function Split(s: string, d: char): seq<string>
  {
    if s == [] then [[]] else TrimEmptyTail(Fields(s, d))
  }

  /** Two pieces free of the delimiter, the second non-empty, split back apart. */
  lemma SplitPair(a: string, b: string, d: char)
    requires d !in a && d !in b && b != ""
    ensures Split(a + [d] + b, d) == [a, b]
  {
    assert Join([a, b], d) == a + [d] + b by {
      assert [a, b][1..] == [b];
    }
    FieldsJoin([a, b], d);
  }

  /** `String.split(d, n)` with a positive limit `n`: at most `n` pieces, the last
      one holding the rest of the string; empty pieces are kept. */
  function SplitAtMost(s: string, d: char, n: nat): (r: seq<string>)
    requires n >= 1
    ensures 1 <= |r| <= n
    ensures Join(r, d) == s
    ensures forall k :: 0 <= k < |r| - 1 ==> d !in r[k]
    ensures |r| < n ==> d !in r[|r| - 1]
    decreases n
  {
    var k := IndexOf(s, d);
    if n == 1 || k == |s| then [s]
    else
      var rest := SplitAtMost(s[k + 1..], d, n - 1);
      var r := [s[..k]] + rest;
      assert r[0] == s[..k] && r[1..] == rest;
      assert Join(r, d) == s by {
        assert s == s[..k] + [d] + s[k + 1..];
      }
      r
  }

  /** The non-empty strings of `r`, in order. */
  function NonEmpty(r: seq<string>): (t: seq<string>)
    ensures |t| <= |r|
    ensures forall k :: 0 <= k < |t| ==> t[k] != ""
  {
    if r == [] then []
    else (if r[0] == "" then [] else [r[0]]) + NonEmpty(r[1..])
  }

  /** The tokens a `StringTokenizer` returns with blank as the only delimiter:
      maximal runs of non-blank characters. */
  function Words(s: string): seq<string>
  {
    NonEmpty(Fields(s, ' '))
  }

  // ---------------------------------------------------------------------------
  // Integer.parseInt
  // ---------------------------------------------------------------------------

  const IntMin: int := -0x8000_0000
  const IntMax: int := 0x7FFF_FFFF
  const Word32: nat := 0x1_0000_0000

  /** `Character.digit` for ASCII characters; 36 marks a character that is no digit in any radix. */
  function DigitValue(c: char): nat
  {
    if '0' <= c <= '9' then c as nat - '0' as nat
    else if 'A' <= c <= 'Z' then c as nat - 'A' as nat + 10
    else if 'a' <= c <= 'z' then c as nat - 'a' as nat + 10
    else 36
  }

  predicate AllDigits(s: string, radix: nat)
  {
    forall k :: 0 <= k < |s| ==> DigitValue(s[k]) < radix
  }

  /** The value of `s` read as digits in `radix`, most significant first. */
  function DigitsValue(s: string, radix: nat): nat
    requires IsRadix(radix) && AllDigits(s, radix)
  {
    if s == [] then 0 else Shift(DigitsValue(s[..|s| - 1], radix), radix) + DigitValue(s[|s| - 1])
  }

  /** `v` times `radix`, written per radix so that it stays linear arithmetic. */
  function Shift(v: nat, radix: nat): (r: nat)
    requires IsRadix(radix)
    ensures r == v * radix
  {
    if radix == 10 then 10 * v else 16 * v
  }

  /** `s` without a leading sign. */
  function Magnitude(s: string): string
  {
    if |s| > 0 && (s[0] == '-' || s[0] == '+') then s[1..] else s
  }

  /** `Integer.parseInt(s, radix)` succeeds: an optional sign, at least one digit, and
      a value that fits a Java `int`. */
  predicate IsInt(s: string, radix: nat)
  {
    IsRadix(radix) && |Magnitude(s)| > 0 && AllDigits(Magnitude(s), radix) && IntMin <= ParseInt(s, radix) <= IntMax
  }

  /** `Integer.parseInt(s, radix)` on a string it accepts. */
  function ParseInt(s: string, radix: nat): int
    requires IsRadix(radix) && AllDigits(Magnitude(s), radix)
  {
    var magnitude: int := DigitsValue(Magnitude(s), radix);
    if |s| > 0 && s[0] == '-' then -magnitude else magnitude
  }

  // ---------------------------------------------------------------------------
  // Formatting
  // ---------------------------------------------------------------------------

  /** The two radixes the assembler prints and reads numbers in. */
  predicate IsRadix(radix: nat)
  {
    radix == 10 || radix == 16
  }

  /** The upper-case digit of value `v`. */
  function DigitChar(v: nat): (c: char)
    requires v < 16
    ensures DigitValue(c) == v
  {
    if v < 10 then ('0' as int + v) as char else ('A' as int + v - 10) as char
  }

  function Pow16(e: nat): nat
  {
    if e == 0 then 1 else 16 * Pow16(e - 1)
  }

  /** `Integer.toString(n)` (radix 10) or `Integer.toHexString(n)` in upper case
      (radix 16) for a non-negative `n`. */
  function Numeral(n: nat, radix: nat): (s: string)
    requires IsRadix(radix)
    ensures 1 <= |s|
    decreases n
  {
    if n < radix then [DigitChar(n)] else Numeral(n / radix, radix) + [DigitChar(n % radix)]
  }

  /** A numeral consists of digits and reads back as its value. */
  lemma {:induction false} NumeralDigits(n: nat, radix: nat)
    requires IsRadix(radix)
    ensures AllDigits(Numeral(n, radix), radix)
    ensures DigitsValue(Numeral(n, radix), radix) == n
    decreases n
  {
    var s := Numeral(n, radix);
    if n >= radix {
      var high := Numeral(n / radix, radix);
      NumeralDigits(n / radix, radix);
      assert s[..|s| - 1] == high;
      assert DigitsValue(s, radix) == Shift(DigitsValue(high, radix), radix) + n % radix;
    }
  }

  /** A hex numeral of a value below 16^w has at most w digits. */
  lemma {:induction false} NumeralLength(n: nat, w: nat)
    requires 1 <= w && n < Pow16(w)
    ensures |Numeral(n, 16)| <= w
    decreases w
  {
    if n >= 16 {
      assert Pow16(1) == 16;
      NumeralLength(n / 16, w - 1);
    }
  }

  /** `s` padded on the left with zeros to at least `w` characters. */
  function ZeroPad(s: string, w: nat): (r: string)
    ensures |r| == if |s| >= w then |s| else w
  {
    if |s| >= w then s else seq(w - |s|, _ => '0') + s
  }

  /** Leading zeros do not change the value of a hex numeral. */
  lemma {:induction false} LeadingZeros(k: nat, s: string)
    requires AllDigits(s, 16)
    ensures AllDigits(seq(k, _ => '0') + s, 16)
    ensures DigitsValue(seq(k, _ => '0') + s, 16) == DigitsValue(s, 16)
    decreases |s|, k
  {
    var z := seq(k, _ => '0');
    if s == [] {
      if k > 0 {
        assert z[..k - 1] == seq(k - 1, _ => '0') + [];
        LeadingZeros(k - 1, []);
      }
      assert z + s == z;
    } else {
      assert (z + s)[..|z + s| - 1] == z + s[..|s| - 1];
      LeadingZeros(k, s[..|s| - 1]);
    }
  }

  /** The value `String.format("%X", n)` prints for a Java `int`: a negative `n` as
      its 32-bit two's complement. */
  function Unsigned(n: int): (v: nat)
    ensures n >= 0 ==> v == n
    ensures IntMin <= n < 0 ==> v == n + Word32
  {
    if n >= 0 then n else n % Word32
  }

  /** `String.format("%0<w>X", n)` for a Java `int`: upper-case hex zero-padded to
      at least `w` digits, exactly `w` when the value has no more digits. */
  function FormatHex(n: int, w: nat): (r: string)
    ensures |r| >= w
    ensures 1 <= w && 0 <= n < Pow16(w) ==> |r| == w
  {
    var r := ZeroPad(Numeral(Unsigned(n), 16), w);
    assert 1 <= w && 0 <= n < Pow16(w) ==> |r| == w by {
      if 0 <= n < Pow16(w) && w >= 1 { NumeralLength(n, w); }
    }
    r
  }

  /** The digits `FormatHex` prints read back as the value, a negative one as its
      32-bit two's complement. */
  lemma FormatHexValue(n: int, w: nat)
    ensures AllDigits(FormatHex(n, w), 16)
    ensures DigitsValue(FormatHex(n, w), 16) == Unsigned(n)
  {
    var digits := Numeral(Unsigned(n), 16);
    NumeralDigits(Unsigned(n), 16);
    var r := FormatHex(n, w);
    if |digits| < w {
      assert r == seq(w - |digits|, _ => '0') + digits;
      LeadingZeros(w - |digits|, digits);
    }
  }

  /** The `k` lowest hex digits of `v`, most significant first. */
  function LowHex(v: nat, k: nat): (r: string)
    ensures |r| == k
  {
    if k == 0 then [] else LowHex(v / 16, k - 1) + [DigitChar(v % 16)]
  }

  lemma {:induction false} LowHexZero(k: nat)
    ensures LowHex(0, k) == seq(k, _ => '0')
  {
    if k > 0 {
      LowHexZero(k - 1);
    }
  }

  lemma ZeroPadSnoc(s: string, c: char, w: nat)
    requires w >= 1
    ensures ZeroPad(s + [c], w) == ZeroPad(s, w - 1) + [c]
  {
    if |s| + 1 < w {
      assert seq(w - |s| - 1, _ => '0') + (s + [c]) == (seq(w - 1 - |s|, _ => '0') + s) + [c];
    }
  }

  /** The last `k` characters of `s`. */
  function Tail(s: string, k: nat): string
    requires k <= |s|
  {
    s[|s| - k..]
  }

  lemma PaddedDigitTail(d: char, w: nat, k: nat)
    requires 1 <= k <= w
    ensures Tail(ZeroPad([d], w), k) == seq(k - 1, _ => '0') + [d]
  {
    var r := ZeroPad([d], w);
    assert r == seq(w - 1, _ => '0') + [d];
    assert r[|r| - k..] == seq(w - 1, _ => '0')[w - k..] + [d];
  }

  lemma TailSnoc(s: string, d: char, k: nat)
    requires 1 <= k <= |s| + 1
    ensures Tail(s + [d], k) == Tail(s, k - 1) + [d]
  {
  }

  lemma PaddedHexTailDigit(v: nat, w: nat, k: nat)
    requires v < 16 && 1 <= k <= w
    ensures Tail(ZeroPad(Numeral(v, 16), w), k) == LowHex(v, k)
  {
    var d := DigitChar(v);
    var zeros := LowHex(0, k - 1);
    assert LowHex(v, k) == zeros + [d];
    LowHexZero(k - 1);
    assert Numeral(v, 16) == [d];
    PaddedDigitTail(d, w, k);
  }

  lemma PaddedTailStep(high: string, d: char, w: nat, k: nat, low: string)
    requires 1 <= k <= w
    requires Tail(ZeroPad(high, w - 1), k - 1) == low
    ensures Tail(ZeroPad(high + [d], w), k) == low + [d]
  {
    ZeroPadSnoc(high, d, w);
    TailSnoc(ZeroPad(high, w - 1), d, k);
  }

  /** The last `k` characters of a hex numeral padded to `w >= k` digits are the `k`
      lowest hex digits of its value. */
  lemma {:induction false} PaddedHexTail(v: nat, w: nat, k: nat)
    requires k <= w
    ensures Tail(ZeroPad(Numeral(v, 16), w), k) == LowHex(v, k)
    decreases v
  {
    if k == 0 {
      assert Tail(ZeroPad(Numeral(v, 16), w), k) == [];
    } else if v < 16 {
      PaddedHexTailDigit(v, w, k);
    } else {
      var d := DigitChar(v % 16);
      var high := Numeral(v / 16, 16);
      var low := LowHex(v / 16, k - 1);
      assert Numeral(v, 16) == high + [d];
      assert LowHex(v, k) == low + [d];
      PaddedHexTail(v / 16, w - 1, k - 1);
      PaddedTailStep(high, d, w, k, low);
    }
  }
}
