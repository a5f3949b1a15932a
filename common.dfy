/// Shared vocabulary of the model: bytes, the .NET exceptions the code throws,
/// Option/Result wrappers, two's-complement wrap-around of C# integers and the
/// few System.String operations the protocol code relies on.
module Common {

  /// An unsigned 8-bit value (System.Byte).
  newtype byte = x: int | 0 <= x < 256

  datatype Option<T> = None | Some(value: T)

  /// The exceptions the modelled C# code raises, by .NET exception type.
  datatype Error =
    | ArgumentError(message: string)        // ArgumentException
    | ArgumentNullError(param: string)      // ArgumentNullException
    | ArgumentOutOfRange                    // ArgumentOutOfRangeException
    | IndexOutOfRange                       // IndexOutOfRangeException
    | InvalidOperation(message: string)     // InvalidOperationException
    | FormatError(message: string)          // FormatException
    | IOError(message: string)              // IOException
    | NotSupported(message: string)         // NotSupportedException
    | NullReference                         // NullReferenceException

  datatype Result<T> = Ok(value: T) | Err(error: Error)

  /// The result of a `void` C# method: it returned, or it threw.
  datatype Outcome = Pass | Fail(error: Error)

  const TWO_31: int := 0x8000_0000
  const TWO_32: int := 0x1_0000_0000
  const TWO_63: int := 0x8000_0000_0000_0000
  const TWO_64: int := 0x1_0000_0000_0000_0000
  /// One past the largest mantissa of a System.Decimal.
  const TWO_96: int := 0x1_0000_0000_0000_0000_0000_0000

  function Min(a: int, b: int): int { if a < b then a else b }

  // ---------------------------------------------------------------------------
  // Fixed-width integers

  /// The C# `long` that unchecked arithmetic yields for the exact value x.
  function Wrap64(x: int): (r: int)
    ensures -TWO_63 <= r < TWO_63
    ensures (x - r) % TWO_64 == 0
  {
    (x + TWO_63) % TWO_64 - TWO_63
  }

  /// The C# `int` that an unchecked cast or unchecked arithmetic yields for x.
  function Wrap32(x: int): (r: int)
    ensures -TWO_31 <= r < TWO_31
    ensures (x - r) % TWO_32 == 0
  {
    (x + TWO_31) % TWO_32 - TWO_31
  }

  /// Values that differ by a multiple of 2^64 wrap to the same `long`.
  lemma Wrap64Congruent(a: int, b: int)
    requires (a - b) % TWO_64 == 0
    ensures Wrap64(a) == Wrap64(b)
  {
    var k := (a - b) / TWO_64;
    assert a + TWO_63 == (b + TWO_63) + k * TWO_64;
  }

  lemma Wrap64Id(x: int)
    requires -TWO_63 <= x < TWO_63
    ensures Wrap64(x) == x
  {
  }

  lemma Wrap32Id(x: int)
    requires -TWO_31 <= x < TWO_31
    ensures Wrap32(x) == x
  {
  }

  /// One step of `n += n; n += (n << 2) + d` on a `long` computes 10*n + d
  /// modulo 2^64, whatever wrap-arounds happen in between.
  lemma {:induction false} TimesTenStep(n: int, d: int)
    ensures Wrap64(Wrap64(n + n) + Wrap64(Wrap64(Wrap64(n + n) * 4) + d)) == Wrap64(10 * n + d)
  {
    var n1 := Wrap64(n + n);
    var k1 := (n + n - n1) / TWO_64;
    assert n + n == n1 + k1 * TWO_64;
    var n2 := Wrap64(n1 * 4);
    var k2 := (n1 * 4 - n2) / TWO_64;
    assert n1 * 4 == n2 + k2 * TWO_64;
    var n3 := Wrap64(n2 + d);
    var k3 := (n2 + d - n3) / TWO_64;
    assert n2 + d == n3 + k3 * TWO_64;
    assert 10 * n + d == (n1 + n3) + (5 * k1 + k2 + k3) * TWO_64;
    Wrap64Congruent(10 * n + d, n1 + n3);
  }

  /// A wrap-around followed by another wrapped operation is the wrapped exact result.
  lemma {:induction false} Wrap64Times10Acc(v: int, d: int)
    ensures Wrap64(10 * Wrap64(v) + d) == Wrap64(10 * v + d)
  {
    var w := Wrap64(v);
    var k := (v - w) / TWO_64;
    assert v == w + k * TWO_64;
    assert 10 * v + d == (10 * w + d) + (10 * k) * TWO_64;
    Wrap64Congruent(10 * v + d, 10 * w + d);
  }

  /// Unchecked negation of a `long`: long.MinValue is its own negation.
  function Neg64(v: int): int
  {
    if v == -TWO_63 then v else -v
  }

  lemma Neg64Wraps(v: int)
    requires -TWO_63 <= v < TWO_63
    ensures Neg64(v) == Wrap64(-v)
  {
    if v == -TWO_63 {
      assert -v - v == TWO_64;
      Wrap64Congruent(-v, v);
      Wrap64Id(v);
    } else {
      Wrap64Id(-v);
    }
  }

  /// Negating a wrapped value wraps the exact negation.
  lemma Neg64OfWrap(v: int)
    ensures Neg64(Wrap64(v)) == Wrap64(-v)
  {
    Neg64Wraps(Wrap64(v));
    Wrap64Neg(v);
  }

  lemma {:induction false} Wrap64Neg(v: int)
    ensures Wrap64(-Wrap64(v)) == Wrap64(-v)
  {
    var w := Wrap64(v);
    var k := (v - w) / TWO_64;
    assert v == w + k * TWO_64;
    assert -v == -w + (-k) * TWO_64;
    Wrap64Congruent(-v, -w);
  }

  // ---------------------------------------------------------------------------
  // Decimal digits

  predicate IsDigit(c: char) { '0' <= c <= '9' }

  predicate AllDigits(s: string) { forall i :: 0 <= i < |s| ==> IsDigit(s[i]) }

  function DigitValue(c: char): nat
    requires IsDigit(c)
  {
    (c as int) - ('0' as int)
  }

  function DigitChar(d: nat): (c: char)
    requires d < 10
    ensures IsDigit(c) && DigitValue(c) == d
  {
    (('0' as int) + d) as char
  }

  /// The number a run of decimal digits denotes, most significant digit first.
  function DigitsValue(s: string): nat
    requires AllDigits(s)
  {
    if s == [] then 0 else 10 * DigitsValue(s[..|s| - 1]) + DigitValue(s[|s| - 1])
  }

  function Pow10(k: nat): (r: nat)
    ensures r >= 1
  {
    if k == 0 then 1 else 10 * Pow10(k - 1)
  }

  lemma AllDigitsAppend(a: string, b: string)
    requires AllDigits(a) && AllDigits(b)
    ensures AllDigits(a + b)
  {
    var ab := a + b;
    forall i | 0 <= i < |ab| ensures IsDigit(ab[i]) {
      if i < |a| { assert ab[i] == a[i]; } else { assert ab[i] == b[i - |a|]; }
    }
  }

  /// Reading a concatenation of digit runs: the first run is shifted by the
  /// length of the second.
  lemma {:induction false} DigitsValueAppend(a: string, b: string)
    requires AllDigits(a) && AllDigits(b)
    ensures AllDigits(a + b)
    ensures DigitsValue(a + b) == DigitsValue(a) * Pow10(|b|) + DigitsValue(b)
  {
    AllDigitsAppend(a, b);
    if b == [] {
      assert a + b == a;
    } else {
      var b' := b[..|b| - 1];
      assert (a + b)[..|a + b| - 1] == a + b';
      DigitsValueAppend(a, b');
      var va, vb', d, p := DigitsValue(a), DigitsValue(b'), DigitValue(b[|b| - 1]), Pow10(|b'|);
      assert DigitsValue(a + b) == 10 * DigitsValue(a + b') + d;
      assert DigitsValue(b) == 10 * vb' + d;
      assert Pow10(|b|) == 10 * p;
      MulShift(va, p);
    }
  }

  lemma MulShift(x: int, y: int)
    ensures 10 * (x * y) == x * (10 * y)
  {
  }

  /// Int64/Int32.ToString() of a non-negative value: its decimal digits.
  function NatToString(n: nat): (s: string)
    ensures 0 < |s| && AllDigits(s)
    ensures DigitsValue(s) == n
  {
    if n < 10 then [DigitChar(n)]
    else
      var init := NatToString(n / 10);
      var s := init + [DigitChar(n % 10)];
      assert s[..|s| - 1] == init;
      s
  }

  /// Int32/Int64.ToString() under the invariant culture: a '-' and the digits
  /// of the magnitude for negative values.
  function IntToString(i: int): (s: string)
    ensures 0 < |s|
    ensures i >= 0 <==> IsDigit(s[0])
    ensures i < 0 <==> s[0] == '-'
  {
    if i < 0 then "-" + NatToString(-i) else NatToString(i)
  }

  // ---------------------------------------------------------------------------
  // System.String operations (ordinal comparison)

  /// String.IndexOf(char, startIndex): the first index at or after `start`
  /// that holds c, or -1.
  function IndexOfFrom(s: string, c: char, start: nat): (r: int)
    requires start <= |s|
    ensures r == -1 || (start <= r < |s| && s[r] == c)
    ensures r == -1 ==> forall i :: start <= i < |s| ==> s[i] != c
    ensures r >= 0 ==> forall i :: start <= i < r ==> s[i] != c
    decreases |s| - start
  {
    if start == |s| then -1 else if s[start] == c then start else IndexOfFrom(s, c, start + 1)
  }

  predicate OccursAt(s: string, pat: string, i: int)
  {
    0 <= i && i + |pat| <= |s| && s[i..i + |pat|] == pat
  }

  predicate Contains(s: string, pat: string)
  {
    exists i :: 0 <= i <= |s| && OccursAt(s, pat, i)
  }

  /// String.IndexOf(string) (ordinal): the first occurrence of pat at or
  /// after `start`, or -1.
  function IndexOfSub(s: string, pat: string, start: nat): (r: int)
    requires start <= |s|
    ensures r == -1 || (start <= r && OccursAt(s, pat, r))
    ensures r == -1 ==> forall i :: start <= i ==> !OccursAt(s, pat, i)
    ensures r >= 0 ==> forall i :: start <= i < r ==> !OccursAt(s, pat, i)
    decreases |s| - start
  {
    if start + |pat| > |s| then -1
    else if s[start..start + |pat|] == pat then start
    else IndexOfSub(s, pat, start + 1)
  }

  lemma IndexOfSubNone(s: string, pat: string)
    ensures IndexOfSub(s, pat, 0) == -1 <==> !Contains(s, pat)
  {
    if IndexOfSub(s, pat, 0) >= 0 {
      assert OccursAt(s, pat, IndexOfSub(s, pat, 0));
    }
  }

  /// String.LastIndexOf(char): the last index holding c, or -1.
  function LastIndexOf(s: string, c: char): (r: int)
    ensures r == -1 || (0 <= r < |s| && s[r] == c)
    ensures forall i :: r < i < |s| ==> s[i] != c
  {
    if s == [] then -1
    else if s[|s| - 1] == c then |s| - 1
    else LastIndexOf(s[..|s| - 1], c)
  }

  /// String.Replace(string, string): every non-overlapping occurrence of pat,
  /// scanning left to right, becomes rep.
  function Replace(s: string, pat: string, rep: string): string
    requires |pat| > 0
    decreases |s|
  {
    if |s| < |pat| then s
    else if s[..|pat|] == pat then rep + Replace(s[|pat|..], pat, rep)
    else [s[0]] + Replace(s[1..], pat, rep)
  }

  /// Replacing a pattern that does not occur leaves the string as it is.
  lemma {:induction false} ReplaceAbsent(s: string, pat: string, rep: string)
    requires |pat| > 0 && !Contains(s, pat)
    ensures Replace(s, pat, rep) == s
  {
    if |s| >= |pat| {
      assert !OccursAt(s, pat, 0);
      assert !Contains(s[1..], pat) by {
        forall i | OccursAt(s[1..], pat, i) ensures false {
          assert s[1..][i..i + |pat|] == s[i + 1..i + 1 + |pat|];
          assert OccursAt(s, pat, i + 1);
        }
      }
      ReplaceAbsent(s[1..], pat, rep);
    }
  }

  /// No match can start in a tail none of whose characters occur in the
  /// pattern, nor run into it, so the tail comes through unchanged.
  lemma {:induction false} ReplaceKeepsTail(a: string, b: string, pat: string, rep: string)
    requires |pat| > 0 && forall i :: 0 <= i < |b| ==> b[i] !in pat
    ensures Replace(a + b, pat, rep) == Replace(a, pat, rep) + b
    decreases |a|
  {
    var s := a + b;
    if |a| < |pat| {
      forall i | 0 <= i <= |s| ensures !OccursAt(s, pat, i) {
        if i + |pat| <= |s| {
          var j := i + |pat| - 1;
          assert s[i..i + |pat|][|pat| - 1] == s[j] == b[j - |a|];
          assert pat[|pat| - 1] in pat;
        }
      }
      ReplaceAbsent(s, pat, rep);
    } else {
      assert s[..|pat|] == a[..|pat|];
      if a[..|pat|] == pat {
        assert s[|pat|..] == a[|pat|..] + b;
        ReplaceKeepsTail(a[|pat|..], b, pat, rep);
      } else {
        assert s[1..] == a[1..] + b;
        ReplaceKeepsTail(a[1..], b, pat, rep);
      }
    }
  }

  /// When the pattern's second character occurs neither in the prefix nor
  /// as its first character, the first match is the one right after the
  /// prefix.
  lemma {:induction false} ReplaceFirstAfter(a: string, pat: string, c: string, rep: string)
    requires |pat| >= 2 && pat[0] != pat[1] && pat[1] !in a
    ensures Replace(a + pat + c, pat, rep) == a + rep + Replace(c, pat, rep)
    decreases |a|
  {
    var s := a + pat + c;
    if a == [] {
      assert s[..|pat|] == pat && s[|pat|..] == c;
    } else {
      assert s[..|pat|][1] == s[1] != pat[1];
      assert Replace(s, pat, rep) == [s[0]] + Replace(s[1..], pat, rep);
      assert s[1..] == a[1..] + pat + c;
      ReplaceFirstAfter(a[1..], pat, c, rep);
      assert a == [a[0]] + a[1..];
    }
  }

  /// A pattern whose first character is missing from s does not occur in it.
  lemma FirstCharAbsent(s: string, pat: string)
    requires |pat| > 0 && pat[0] !in s
    ensures !Contains(s, pat)
  {
    forall i | 0 <= i && i + |pat| <= |s| ensures s[i..i + |pat|][0] == s[i] { }
  }

  /// String.IndexOfAny(anyOf, startIndex): the first index at or after
  /// `start` holding one of the characters, or -1.
  function IndexOfAny(s: string, cs: set<char>, start: nat): (r: int)
    requires start <= |s|
    ensures r == -1 || (start <= r < |s| && s[r] in cs)
    ensures forall i :: start <= i < |s| && (r == -1 || i < r) ==> s[i] !in cs
    decreases |s| - start
  {
    if start == |s| then -1 else if s[start] in cs then start else IndexOfAny(s, cs, start + 1)
  }

  /// String.LastIndexOfAny(anyOf, startIndex): searching backwards from
  /// `start`, the last index holding one of the characters, or -1.
  function LastIndexOfAny(s: string, cs: set<char>, start: int): (r: int)
    requires -1 <= start < |s|
    ensures -1 <= r <= start && (r >= 0 ==> s[r] in cs)
    ensures forall i :: r < i <= start ==> s[i] !in cs
    decreases start + 1
  {
    if start < 0 then -1 else if s[start] in cs then start else LastIndexOfAny(s, cs, start - 1)
  }

  /// Char.IsWhiteSpace.
  predicate IsWhiteSpace(c: char)
  {
    c == ' ' || ('\t' <= c <= '\r') || c == '\U{85}' || c == '\U{A0}' || c == '\U{1680}'
    || ('\U{2000}' <= c <= '\U{200A}') || c == '\U{2028}' || c == '\U{2029}' || c == '\U{202F}'
    || c == '\U{205F}' || c == '\U{3000}'
  }

  /// String.TrimStart(): drops the leading white space.
  function TrimStart(s: string): (r: string)
    ensures |r| <= |s| && r == s[|s| - |r|..]
    ensures r == [] || !IsWhiteSpace(r[0])
    ensures forall i :: 0 <= i < |s| - |r| ==> IsWhiteSpace(s[i])
  {
    if s != [] && IsWhiteSpace(s[0]) then TrimStart(s[1..]) else s
  }

  /// String.Split(new[]{sep}, StringSplitOptions.RemoveEmptyEntries).
  function SplitNonEmpty(s: string, sep: char): (r: seq<string>)
    ensures forall k :: 0 <= k < |r| ==> |r[k]| > 0 && sep !in r[k]
    decreases |s|
  {
    var i := IndexOfFrom(s, sep, 0);
    if i < 0 then (if s == [] then [] else [s])
    else
      assert sep !in s[..i] by {
        forall j | 0 <= j < i ensures s[..i][j] != sep { assert s[..i][j] == s[j]; }
      }
      (if i == 0 then [] else [s[..i]]) + SplitNonEmpty(s[i + 1..], sep)
  }

  /// The white space NumberStyles.Integer admits around a number.
  predicate NumberWhite(c: char) { c == ' ' || '\t' <= c <= '\r' }

  /// The string with its leading and trailing number white space removed.
  function TrimNumberWhite(s: string): (r: string)
    ensures |r| <= |s|
    ensures r != [] ==> !NumberWhite(r[0]) && !NumberWhite(r[|r| - 1])
    decreases |s|
  {
    if s != [] && NumberWhite(s[0]) then TrimNumberWhite(s[1..])
    else if s != [] && NumberWhite(s[|s| - 1]) then TrimNumberWhite(s[..|s| - 1])
    else s
  }

  /// Int32.TryParse(s, out v) with the invariant culture's signs: an
  /// optionally signed run of decimal digits, padded by white space, whose
  /// value fits an `int`.
  function TryParseInt32(s: string): (r: Option<int>)
    ensures r.Some? ==> -TWO_31 <= r.value < TWO_31
  {
    var t := TrimNumberWhite(s);
    var signed := t != [] && (t[0] == '-' || t[0] == '+');
    var d := if signed then t[1..] else t;
    if d == [] || !AllDigits(d) then None
    else
      var v: int := if signed && t[0] == '-' then -(DigitsValue(d) as int) else DigitsValue(d);
      if -TWO_31 <= v < TWO_31 then Some(v) else None
  }

  /// A plain run of digits within range parses to its value.
  lemma TryParseDigits(d: string)
    requires d != [] && AllDigits(d) && DigitsValue(d) < TWO_31
    ensures TryParseInt32(d) == Some(DigitsValue(d))
  {
    assert !NumberWhite(d[0]) && !NumberWhite(d[|d| - 1]);
    assert TrimNumberWhite(d) == d;
  }

  /// A decimal representation of n < 10^k has at most k digits.
  lemma {:induction false} NatToStringLength(n: nat, k: nat)
    requires 0 < k && n < Pow10(k)
    ensures |NatToString(n)| <= k
  {
    if n >= 10 {
      assert Pow10(1) == 10;
      assert n / 10 < Pow10(k - 1);
      NatToStringLength(n / 10, k - 1);
    }
  }

  /// Every character of IntToString(i) is a digit or the minus sign.
  lemma IntToStringChars(i: int)
    ensures forall j :: 0 <= j < |IntToString(i)| ==> IsDigit(IntToString(i)[j]) || IntToString(i)[j] == '-'
  {
    if i < 0 {
      var d := NatToString(-i);
      forall j | 1 <= j < |IntToString(i)| ensures IntToString(i)[j] == d[j - 1] { }
    }
  }

  // ---------------------------------------------------------------------------
  // Text encodings (System.Text.Encoding.ASCII and Encoding.UTF8)

  datatype TextEncoding = Ascii | Utf8

  /// Encoding.ASCII.GetBytes: one byte per character, '?' for anything
  /// outside 7-bit ASCII.
  function AsciiBytes(s: string): (r: seq<byte>)
    ensures |r| == |s|
    ensures forall i :: 0 <= i < |s| ==> r[i] == if (s[i] as int) < 128 then (s[i] as int) as byte else 63
  {
    seq(|s|, i requires 0 <= i < |s| => if (s[i] as int) < 128 then (s[i] as int) as byte else 63)
  }

  /// The UTF-8 form of one Unicode scalar value.
  function Utf8Char(c: char): (r: seq<byte>)
    ensures 1 <= |r| <= 4
  {
    var v := c as int;
    if v < 0x80 then [v as byte]
    else if v < 0x800 then [(0xC0 + v / 64) as byte, (0x80 + v % 64) as byte]
    else if v < 0x1_0000 then
      [(0xE0 + v / 4096) as byte, (0x80 + (v / 64) % 64) as byte, (0x80 + v % 64) as byte]
    else
      [(0xF0 + v / 262144) as byte, (0x80 + (v / 4096) % 64) as byte,
       (0x80 + (v / 64) % 64) as byte, (0x80 + v % 64) as byte]
  }

  /// Encoding.UTF8.GetBytes.
  function Utf8Bytes(s: string): seq<byte>
  {
    if s == [] then [] else Utf8Char(s[0]) + Utf8Bytes(s[1..])
  }

  function Encode(enc: TextEncoding, s: string): seq<byte>
  {
    match enc
    case Ascii => AsciiBytes(s)
    case Utf8 => Utf8Bytes(s)
  }

  /// A byte read as a Latin-1 character (the identity on 7-bit ASCII).
  function ByteChars(b: seq<byte>): (s: string)
    ensures |s| == |b|
    ensures forall i :: 0 <= i < |b| ==> s[i] as int == b[i] as int
  {
    seq(|b|, i requires 0 <= i < |b| => (b[i] as int) as char)
  }

  /// ASCII upper case folded to lower case (the key of a case-insensitive
  /// header lookup).
  function AsciiLower(s: string): (r: string)
    ensures |r| == |s|
  {
    seq(|s|, i requires 0 <= i < |s| => if 'A' <= s[i] <= 'Z' then ((s[i] as int) + 32) as char else s[i])
  }

  // ---------------------------------------------------------------------------
  // Bitwise operations on bytes

  function Pow2(k: nat): (r: nat)
    ensures r >= 1
  {
    if k == 0 then 1 else 2 * Pow2(k - 1)
  }

  /// Bitwise exclusive or of the low k bits of a and b.
  function XorBits(a: nat, b: nat, k: nat): (r: nat)
    ensures r < Pow2(k)
  {
    if k == 0 then 0
    else (if a % 2 == b % 2 then 0 else 1) + 2 * XorBits(a / 2, b / 2, k - 1)
  }

  /// The `^` operator on bytes.
  function Xor(a: byte, b: byte): byte
  {
    assert Pow2(8) == 256;
    XorBits(a as nat, b as nat, 8) as byte
  }

  /// XOR with the same key twice gives back the value.
  lemma {:induction false} XorBitsTwice(a: nat, b: nat, k: nat)
    requires a < Pow2(k)
    ensures XorBits(XorBits(a, b, k), b, k) == a
  {
    if k > 0 {
      var x := XorBits(a, b, k);
      assert x / 2 == XorBits(a / 2, b / 2, k - 1);
      XorBitsTwice(a / 2, b / 2, k - 1);
    }
  }

  /// XOR with a key that has a bit set among the low k changes the value.
  lemma {:induction false} XorBitsChanges(a: nat, b: nat, k: nat)
    requires a < Pow2(k) && 0 < b < Pow2(k)
    ensures XorBits(a, b, k) != a
  {
    var x := XorBits(a, b, k);
    var y := XorBits(a / 2, b / 2, k - 1);
    assert x == (if a % 2 == b % 2 then 0 else 1) + 2 * y;
    if b % 2 == 0 {
      XorBitsChanges(a / 2, b / 2, k - 1);
    }
  }

  lemma XorTwice(a: byte, k: byte)
    ensures Xor(Xor(a, k), k) == a
  {
    assert Pow2(8) == 256;
    XorBitsTwice(a as nat, k as nat, 8);
  }

  lemma XorNonZero(a: byte, k: byte)
    requires k != 0
    ensures Xor(a, k) != a
  {
    assert Pow2(8) == 256;
    XorBitsChanges(a as nat, k as nat, 8);
  }

  /// `b | 0x80`.
  function SetHighBit(b: byte): (r: byte)
    ensures r >= 128 && r % 128 == b % 128
  {
    if b < 128 then b + 128 else b
  }

  /// `(b & 0x80) != 0`.
  predicate HighBit(b: byte) { b >= 128 }

  /// `b & 0x0f`.
  function LowNibble(b: byte): (r: byte)
    ensures r < 16
  {
    b % 16
  }

  /// Base-256 digits are unique.
  lemma ByteDigits(a: int, b: int, c: int, d: int)
    requires 0 <= a < 256 && 0 <= b < 256 && 0 <= c < 256 && 0 <= d < 256
    ensures var v := a + 256 * b + 65536 * c + 16777216 * d;
      v % 256 == a && (v / 256) % 256 == b && (v / 65536) % 256 == c && v / 16777216 == d
  {
    var v := a + 256 * b + 65536 * c + 16777216 * d;
    assert v == a + 256 * (b + 256 * (c + 256 * d));
    assert v / 256 == b + 256 * (c + 256 * d);
    assert v / 65536 == c + 256 * d;
  }
}
