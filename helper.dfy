/// The numeric parsers and argument guards of the WebSockets utility class:
/// a hand-rolled `long` parser, a `decimal` parser driven by a table of
/// negative powers of ten, and the `Check*` guards that throw exactly when
/// their condition fails.
module Helper {
  import opened Common

  // ---------------------------------------------------------------------------
  // Guards

  /// CheckArg: ArgumentException(message) exactly when the condition is false.
  function CheckArg(cond: bool, message: string := "arg"): (r: Outcome)
    ensures r == Pass <==> cond
    ensures !cond ==> r == Fail(ArgumentError(message))
  {
    if cond then Pass else Fail(ArgumentError(message))
  }

  /// CheckOperation: InvalidOperationException(message) exactly when the
  /// condition is false.
  function CheckOperation(cond: bool, message: string := "denied"): (r: Outcome)
    ensures r == Pass <==> cond
    ensures !cond ==> r == Fail(InvalidOperation(message))
  {
    if cond then Pass else Fail(InvalidOperation(message))
  }

  /// CheckArgNotNull: ArgumentNullException exactly when the argument is null;
  /// its parameter name is the message, or the name of the argument's type
  /// when no message is given.
  function CheckArgNotNull<T>(t: Option<T>, message: Option<string>, typeName: string): (r: Outcome)
    ensures r == Pass <==> t.Some?
    ensures t.None? && message.Some? ==> r == Fail(ArgumentNullError(message.value))
    ensures t.None? && message.None? ==> r == Fail(ArgumentNullError(typeName))
  {
    if t.Some? then Pass
    else if message.Some? then Fail(ArgumentNullError(message.value))
    else Fail(ArgumentNullError(typeName))
  }

  /// Check<E>: throws the given exception exactly when the condition is false.
  function Check(cond: bool, err: Error): (r: Outcome)
    ensures r == Pass <==> cond
    ensures !cond ==> r == Fail(err)
  {
    if cond then Pass else Fail(err)
  }

  // ---------------------------------------------------------------------------
  // Int64FromString

  /// The number of consecutive digits of s from index i on, stopping at the
  /// loop bound `end` or at the end of the string.
  function DigitRunLen(s: string, i: int, end: int): (k: nat)
    requires 0 <= i <= |s|
    ensures i + k <= |s|
    ensures k > 0 ==> i + k <= end
    ensures i + k < end && i + k < |s| ==> !IsDigit(s[i + k])
    decreases |s| - i
  {
    if i < end && i < |s| && IsDigit(s[i]) then 1 + DigitRunLen(s, i + 1, end) else 0
  }

  /// Everything the run covers is a digit.
  lemma {:induction false} DigitRunDigits(s: string, i: int, end: int)
    requires 0 <= i <= |s|
    ensures AllDigits(s[i..i + DigitRunLen(s, i, end)])
    decreases |s| - i
  {
    if i < end && i < |s| && IsDigit(s[i]) {
      DigitRunDigits(s, i + 1, end);
      var k := DigitRunLen(s, i, end);
      assert forall j :: i < j < i + k ==> s[j] == s[i + 1..i + k][j - i - 1];
    }
  }

  /// `n += n; n += (n << 2) + d` on a `long`: ten times n plus d, wrapped.
  method MulTenAdd(n: int, d: int) returns (r: int)
    ensures r == Wrap64(10 * n + d)
  {
    var n1 := Wrap64(n + n);
    r := Wrap64(n1 + Wrap64(Wrap64(n1 * 4) + d));
    TimesTenStep(n, d);
  }

  /// One more digit: the wrapped value of the longer run follows from the
  /// wrapped value of the shorter one.
  lemma AccumulateDigit(s: string, start: int, p: int)
    requires 0 <= start <= p < |s| && AllDigits(s[start..p]) && IsDigit(s[p])
    ensures AllDigits(s[start..p + 1])
    ensures Wrap64(10 * Wrap64(DigitsValue(s[start..p])) + DigitValue(s[p]))
      == Wrap64(DigitsValue(s[start..p + 1]))
  {
    var before := s[start..p];
    assert s[start..p + 1][..p - start] == before;
    Wrap64Times10Acc(DigitsValue(before), DigitValue(s[p]));
  }

  /// Where the digit loop stopped and the `long` it accumulated.
  datatype Scan = Scan(stop: int, value: int)

  /// The digit loop the parsers share: from `start`, while below `end`, read
  /// a character and fold it in if it is a digit, else stop. Reading at the
  /// end of the string throws.
  function ScanSpec(s: string, start: int, end: int): (r: Result<Scan>)
    requires 0 <= start <= |s|
    ensures r.Ok? ==> start <= r.value.stop <= |s| && (r.value.stop < end ==> r.value.stop < |s|)
    ensures r.Err? ==> r.error == IndexOutOfRange
  {
    var k := DigitRunLen(s, start, end);
    if start + k < end && start + k >= |s| then Err(IndexOutOfRange)
    else
      DigitRunDigits(s, start, end);
      Ok(Scan(start + k, Wrap64(DigitsValue(s[start..start + k]))))
  }

  /// The loop `for (count += pos; pos < count; ++pos)` over digits.
  method ScanDigits(str: string, start: int, end: int) returns (r: Result<Scan>)
    requires 0 <= start <= |str|
    ensures r == ScanSpec(str, start, end)
  {
    var p := start;
    var n := 0;
    assert str[start..p] == [];
    Wrap64Id(0);
    while p < end
      invariant start <= p <= |str|
      invariant AllDigits(str[start..p])
      invariant n == Wrap64(DigitsValue(str[start..p]))
      invariant DigitRunLen(str, start, end) == (p - start) + DigitRunLen(str, p, end)
      decreases end - p
    {
      if p >= |str| {
        return Err(IndexOutOfRange);
      }
      var ch := str[p];
      if '0' <= ch <= '9' {
        n := MulTenAdd(n, (ch as int) - ('0' as int));
        AccumulateDigit(str, start, p);
        p := p + 1;
      } else {
        break;
      }
    }
    r := Ok(Scan(p, n));
  }

  lemma {:induction false} DigitRunToEnd(s: string, i: int, end: int)
    requires 0 <= i <= |s| && end > |s| && AllDigits(s[i..])
    ensures DigitRunLen(s, i, end) == |s| - i
    decreases |s| - i
  {
    if i < |s| {
      assert IsDigit(s[i..][0]);
      assert s[i + 1..] == s[i..][1..];
      DigitRunToEnd(s, i + 1, end);
    }
  }

  lemma {:induction false} DigitRunOf(s: string, i: int, end: int, d: string)
    requires 0 <= i && i + |d| <= |s| && i + |d| <= end
    requires s[i..i + |d|] == d && AllDigits(d)
    requires i + |d| == |s| || i + |d| == end || !IsDigit(s[i + |d|])
    ensures DigitRunLen(s, i, end) == |d|
    decreases |d|
  {
    if |d| > 0 {
      assert s[i] == d[0];
      assert s[i + 1..i + 1 + |d[1..]|] == d[1..];
      DigitRunOf(s, i + 1, end, d[1..]);
    }
  }

  /// A run of digits followed by a non-digit, the loop bound or the end of
  /// the string scans to its wrapped value.
  lemma ScanOf(s: string, start: int, end: int, d: string)
    requires 0 <= start && start + |d| <= |s| && start + |d| <= end
    requires s[start..start + |d|] == d && AllDigits(d)
    requires start + |d| == end || (start + |d| < |s| && !IsDigit(s[start + |d|]))
    ensures ScanSpec(s, start, end) == Ok(Scan(start + |d|, Wrap64(DigitsValue(d))))
  {
    DigitRunOf(s, start, end, d);
  }

  /// Where the digits start: after a leading '-', if any.
  function DigitsStart(s: string, pos: int): int
    requires 0 <= pos < |s|
  {
    if s[pos] == '-' then pos + 1 else pos
  }

  /// The loop bound: the start of the digits plus `count` clipped to the
  /// characters left after pos.
  function LoopEnd(s: string, pos: int, count: int): int
    requires 0 <= pos < |s|
  {
    DigitsStart(s, pos) + Min(count, |s| - pos)
  }

  /// What Int64FromString(s, pos, count) returns or throws: the scanned
  /// value, negated (unchecked) after a '-'. Reading s[pos] throws when pos
  /// is not an index; after a '-' the loop bound is computed from the
  /// advanced position, so a digit run reaching the end of the string reads
  /// one past it.
  function ParseInt64(s: string, pos: int, count: int): Result<int>
  {
    if pos < 0 || pos >= |s| then Err(IndexOutOfRange)
    else
      match ScanSpec(s, DigitsStart(s, pos), LoopEnd(s, pos, count))
      case Err(e) => Err(e)
      case Ok(sc) => Ok(if s[pos] == '-' then Neg64(sc.value) else sc.value)
  }

  method Int64FromString(str: string, pos: int, count: int) returns (r: Result<int>)
    ensures r == ParseInt64(str, pos, count)
  {
    if pos < 0 || pos >= |str| {
      return Err(IndexOutOfRange);
    }
    var p := pos;
    var cnt := Min(count, |str| - p);
    var neg := str[p] == '-';
    if neg {
      p := p + 1;
    }
    var scan := ScanDigits(str, p, cnt + p);
    if scan.Err? {
      return Err(scan.error);
    }
    var n := scan.value.value;
    r := Ok(if neg then Neg64(n) else n);
  }

  /// Int64FromString throws exactly when pos is not an index, or when after a
  /// '-' every remaining character is a digit and `count` does not stop the
  /// loop before the end of the string.
  lemma ParseInt64Fails(s: string, pos: int, count: int)
    ensures ParseInt64(s, pos, count).Err? <==>
      (pos < 0 || pos >= |s| || (s[pos] == '-' && count >= |s| - pos && AllDigits(s[pos + 1..])))
  {
    if 0 <= pos < |s| && s[pos] == '-' {
      var start, end := pos + 1, LoopEnd(s, pos, count);
      var k := DigitRunLen(s, start, end);
      if count >= |s| - pos && AllDigits(s[pos + 1..]) {
        DigitRunToEnd(s, start, end);
      }
      if start + k < end && start + k >= |s| {
        DigitRunDigits(s, start, end);
        assert s[pos + 1..] == s[start..start + k];
        assert count >= |s| - pos;
      }
    }
  }

  /// A run of digits followed by a non-digit (or the end of the string)
  /// parses to its wrapped decimal value.
  lemma ParseInt64Digits(s: string, pos: int, count: int, d: string)
    requires 0 <= pos && pos + |d| <= |s| && 0 < |d| <= count
    requires s[pos..pos + |d|] == d && AllDigits(d)
    requires pos + |d| == |s| || !IsDigit(s[pos + |d|])
    ensures ParseInt64(s, pos, count) == Ok(Wrap64(DigitsValue(d)))
  {
    assert s[pos] == d[0];
    ScanOf(s, pos, LoopEnd(s, pos, count), d);
  }

  /// A '-' before a run of digits that is followed by a non-digit negates
  /// the wrapped value (unchecked `long` negation; see Common.Neg64OfWrap).
  lemma ParseInt64Negative(s: string, pos: int, count: int, d: string)
    requires 0 <= pos && pos + 1 + |d| < |s| && |d| < count
    requires s[pos] == '-' && s[pos + 1..pos + 1 + |d|] == d && AllDigits(d)
    requires !IsDigit(s[pos + 1 + |d|])
    ensures ParseInt64(s, pos, count) == Ok(Neg64(Wrap64(DigitsValue(d))))
  {
    ScanOf(s, pos + 1, LoopEnd(s, pos, count), d);
  }

  /// No digit at pos (and no sign) gives 0.
  lemma ParseInt64NoDigits(s: string, pos: int, count: int)
    requires 0 <= pos < |s| && s[pos] != '-' && !IsDigit(s[pos])
    ensures ParseInt64(s, pos, count) == Ok(0)
  {
    if count > 0 {
      ScanOf(s, pos, LoopEnd(s, pos, count), "");
    } else {
      ScanOf(s, pos, pos, "");
    }
  }

  // ---------------------------------------------------------------------------
  // initDecimalFracs and DecimalFromString

  /// A System.Decimal as it is stored: an integer mantissa and a power-of-ten
  /// scale; its value is mantissa / 10^scale.
  datatype Decimal = Decimal(mantissa: int, scale: nat)

  function DecValue(d: Decimal): real
  {
    (d.mantissa as real) / (Pow10(d.scale) as real)
  }

  /// Decimal multiplication: mantissas multiply, scales add.
  function DecMul(a: Decimal, b: Decimal): (r: Decimal)
    ensures r.scale == a.scale + b.scale
  {
    Decimal(a.mantissa * b.mantissa, a.scale + b.scale)
  }

  /// Decimal addition: both operands brought to the larger scale.
  function DecAdd(a: Decimal, b: Decimal): (r: Decimal)
    ensures r.scale == if a.scale < b.scale then b.scale else a.scale
  {
    var sc := if a.scale < b.scale then b.scale else a.scale;
    Decimal(Shift10(a.mantissa, sc - a.scale) + Shift10(b.mantissa, sc - b.scale), sc)
  }

  function DecNeg(a: Decimal): Decimal
  {
    Decimal(-a.mantissa, a.scale)
  }

  /// m * 10^k.
  function Shift10(m: int, k: nat): int
  {
    if k == 0 then m else 10 * Shift10(m, k - 1)
  }

  lemma {:induction false} Shift10IsProduct(m: int, k: nat)
    ensures Shift10(m, k) == m * Pow10(k)
  {
    if k > 0 {
      Shift10IsProduct(m, k - 1);
      MulShift(m, Pow10(k - 1));
    }
  }

  const FRAC_TABLE_LEN: nat := 20

  /// The table initDecimalFracs builds: entry i is 0.1 multiplied i+1
  /// times, that is 10^-(i+1).
  function FracTable(): (t: seq<Decimal>)
    ensures |t| == FRAC_TABLE_LEN
    ensures forall i :: 0 <= i < |t| ==> t[i] == Decimal(1, i + 1)
  {
    seq(FRAC_TABLE_LEN, i requires 0 <= i => Decimal(1, i + 1))
  }

  /// initDecimalFracs: t starts at 1m and each entry is t *= 0.1m.
  method InitDecimalFracs(fracs: array<Decimal>)
    requires fracs.Length == FRAC_TABLE_LEN
    modifies fracs
    ensures fracs[..] == FracTable()
  {
    var t := Decimal(1, 0);
    var i := 0;
    while i < fracs.Length
      invariant 0 <= i <= fracs.Length
      invariant t == Decimal(1, i)
      invariant forall j :: 0 <= j < i ==> fracs[j] == FracTable()[j]
    {
      t := DecMul(t, Decimal(1, 1));
      fracs[i] := t;
      i := i + 1;
    }
  }

  /// What DecimalFromString(s, pos, count, dot) returns or throws: the
  /// integer part scanned as in Int64FromString, plus, after a `dot`, the
  /// fraction digits scanned as a `long` and multiplied by the table entry
  /// whose index is the number of fraction digits.
  function ParseDecimal(s: string, pos: int, count: int, dot: char, table: seq<Decimal>): Result<Decimal>
  {
    if pos < 0 || pos >= |s| then Err(IndexOutOfRange)
    else
      var neg, end := s[pos] == '-', LoopEnd(s, pos, count);
      match ScanSpec(s, DigitsStart(s, pos), end)
      case Err(e) => Err(e)
      case Ok(whole) =>
        var res := Decimal(whole.value, 0);
        if whole.stop < end && s[whole.stop] == dot then
          match ScanSpec(s, whole.stop + 1, end)
          case Err(e) => Err(e)
          case Ok(frac) =>
            var cntf := frac.stop - (whole.stop + 1);
            if cntf >= |table| then Err(IndexOutOfRange)
            else
              var res' := DecAdd(res, DecMul(Decimal(frac.value, 0), table[cntf]));
              Ok(if neg then DecNeg(res') else res')
        else Ok(if neg then DecNeg(res) else res)
  }

  method DecimalFromString(str: string, pos: int, count: int, dot: char, fracs: array<Decimal>)
    returns (r: Result<Decimal>)
    ensures r == ParseDecimal(str, pos, count, dot, fracs[..])
  {
    if pos < 0 || pos >= |str| {
      return Err(IndexOutOfRange);
    }
    var p := pos;
    var cnt := Min(count, |str| - p);
    var neg := str[p] == '-';
    if neg {
      p := p + 1;
    }
    var end := cnt + p;
    assert p == DigitsStart(str, pos) && end == LoopEnd(str, pos, count);
    var scan := ScanDigits(str, p, end);
    if scan.Err? {
      return Err(scan.error);
    }
    p := scan.value.stop;
    var res := Decimal(scan.value.value, 0);
    if p < end && str[p] == dot {
      p := p + 1;
      var frac := ScanDigits(str, p, end);
      if frac.Err? {
        return Err(frac.error);
      }
      var cntf := frac.value.stop - p;
      if cntf >= fracs.Length {
        return Err(IndexOutOfRange);
      }
      res := DecAdd(res, DecMul(Decimal(frac.value.value, 0), fracs[cntf]));
    }
    r := Ok(if neg then DecNeg(res) else res);
  }

  /// The fraction path of ParseDecimal for an unsigned number, given both
  /// scans.
  lemma DecimalFractionPath(s: string, dot: char, table: seq<Decimal>, w: Scan, f: Scan)
    requires 0 < |s| && s[0] != '-'
    requires ScanSpec(s, 0, |s|) == Ok(w) && w.stop < |s| && s[w.stop] == dot
    requires ScanSpec(s, w.stop + 1, |s|) == Ok(f)
    requires f.stop - (w.stop + 1) < |table|
    ensures ParseDecimal(s, 0, |s|, dot, table)
      == Ok(DecAdd(Decimal(w.value, 0), DecMul(Decimal(f.value, 0), table[f.stop - (w.stop + 1)])))
  {
    assert DigitsStart(s, 0) == 0 && LoopEnd(s, 0, |s|) == |s|;
  }

  /// The same path of ParseDecimalFixed.
  lemma DecimalFixedFractionPath(s: string, dot: char, table: seq<Decimal>, w: Scan, f: Scan)
    requires 0 < |s| && s[0] != '-'
    requires ScanSpec(s, 0, |s|) == Ok(w) && w.stop < |s| && s[w.stop] == dot
    requires ScanSpec(s, w.stop + 1, |s|) == Ok(f)
    requires 0 < f.stop - (w.stop + 1) <= |table|
    ensures ParseDecimalFixed(s, 0, |s|, dot, table)
      == Ok(DecAdd(Decimal(w.value, 0), DecMul(Decimal(f.value, 0), table[f.stop - (w.stop + 1) - 1])))
  {
    assert DigitsStart(s, 0) == 0 && LoopEnd(s, 0, |s|) == |s|;
  }

  /// The integer scan of "ip.fp" stops at the point.
  lemma ScanWholePart(ip: string, fp: string)
    requires AllDigits(ip)
    ensures var s := ip + "." + fp;
      0 < |s| && s[0] != '-' && s[|ip|] == '.'
      && ScanSpec(s, 0, |s|) == Ok(Scan(|ip|, Wrap64(DigitsValue(ip))))
  {
    var s := ip + "." + fp;
    if ip != [] {
      assert s[0] == ip[0];
    }
    assert s[..|ip|] == ip;
    ScanOf(s, 0, |s|, ip);
  }

  /// The fraction scan of "ip.fp" runs to the end.
  lemma ScanFractionPart(ip: string, fp: string)
    requires AllDigits(fp)
    ensures var s := ip + "." + fp;
      ScanSpec(s, |ip| + 1, |s|) == Ok(Scan(|s|, Wrap64(DigitsValue(fp))))
  {
    var s := ip + "." + fp;
    var n := |s|;
    assert n == |ip| + 1 + |fp|;
    assert s[|ip| + 1..n] == fp;
    ScanOf(s, |ip| + 1, n, fp);
  }

  /// A plain `digits.digits` string within range reads with its fraction
  /// one power of ten too small: f fraction digits are scaled by 10^-(f+1)
  /// instead of 10^-f (as if a 0 followed the point), so "1.5" reads as 1.05.
  /// Within the 96-bit mantissa of a System.Decimal the sum is exact.
  lemma ParseDecimalPlain(s: string, ip: string, fp: string)
    requires s == ip + "." + fp
    requires AllDigits(ip) && AllDigits(fp) && |fp| < FRAC_TABLE_LEN
    requires DigitsValue(ip) < TWO_63 && DigitsValue(fp) < TWO_63
    requires DigitsValue(ip) * Pow10(|fp| + 1) + DigitsValue(fp) < TWO_96
    ensures var r := ParseDecimal(s, 0, |s|, '.', FracTable());
      r.Ok? && r.value.scale == |fp| + 1
      && r.value.mantissa == DigitsValue(ip) * Pow10(|fp| + 1) + DigitsValue(fp)
  {
    ScanWholePart(ip, fp);
    ScanFractionPart(ip, fp);
    Wrap64Id(DigitsValue(ip));
    Wrap64Id(DigitsValue(fp));
    var w, f := Scan(|ip|, DigitsValue(ip)), Scan(|s|, DigitsValue(fp));
    assert f.stop - (w.stop + 1) == |fp|;
    DecimalFractionPath(s, '.', FracTable(), w, f);
    var a, b := DigitsValue(ip), DigitsValue(fp);
    var t := FracTable()[|fp|];
    assert t == Decimal(1, |fp| + 1);
    var prod := DecMul(Decimal(b, 0), t);
    assert prod == Decimal(b, |fp| + 1);
    Shift10IsProduct(a, |fp| + 1);
    assert Shift10(b, 0) == b;
    var r := DecAdd(Decimal(a, 0), prod);
    assert r == Decimal(a * Pow10(|fp| + 1) + b, |fp| + 1);
    assert ParseDecimal(s, 0, |s|, '.', FracTable()) == Ok(r);
  }

  /// Without a `dot` in the string, DecimalFromString parses exactly what
  /// Int64FromString parses: it fails on the same inputs, and its value is
  /// the same `long` except that the decimal negation of long.MinValue does
  /// not wrap.
  lemma DecimalWithoutPoint(s: string, pos: int, count: int, dot: char, table: seq<Decimal>)
    requires dot !in s
    ensures ParseDecimal(s, pos, count, dot, table).Err? <==> ParseInt64(s, pos, count).Err?
    ensures var d := ParseDecimal(s, pos, count, dot, table);
      d.Ok? ==> d.value.scale == 0 && Wrap64(d.value.mantissa) == ParseInt64(s, pos, count).value
  {
    if 0 <= pos < |s| {
      var sc := ScanSpec(s, DigitsStart(s, pos), LoopEnd(s, pos, count));
      if sc.Ok? {
        var w := sc.value;
        assert w.stop < LoopEnd(s, pos, count) ==> s[w.stop] != dot;
        if s[pos] == '-' {
          Neg64Wraps(w.value);
        } else {
          Wrap64Id(w.value);
        }
      }
    }
  }

  /// The fraction path when the table has no entry for the digit count.
  lemma DecimalFractionOverflowPath(s: string, dot: char, table: seq<Decimal>, w: Scan, f: Scan)
    requires 0 < |s| && s[0] != '-'
    requires ScanSpec(s, 0, |s|) == Ok(w) && w.stop < |s| && s[w.stop] == dot
    requires ScanSpec(s, w.stop + 1, |s|) == Ok(f)
    requires f.stop - (w.stop + 1) >= |table|
    ensures ParseDecimal(s, 0, |s|, dot, table) == Err(IndexOutOfRange)
  {
    assert DigitsStart(s, 0) == 0 && LoopEnd(s, 0, |s|) == |s|;
  }

  /// Twenty or more fraction digits index past the table.
  lemma DecimalTooManyFractionDigits(s: string, ip: string, fp: string)
    requires s == ip + "." + fp
    requires AllDigits(ip) && AllDigits(fp) && |fp| >= FRAC_TABLE_LEN
    ensures ParseDecimal(s, 0, |s|, '.', FracTable()) == Err(IndexOutOfRange)
  {
    ScanWholePart(ip, fp);
    ScanFractionPart(ip, fp);
    var w, f := Scan(|ip|, Wrap64(DigitsValue(ip))), Scan(|s|, Wrap64(DigitsValue(fp)));
    DecimalFractionOverflowPath(s, '.', FracTable(), w, f);
  }

  /// "1.5" reads as 1.05.
  lemma DecimalOneAndAHalf()
    ensures var r := ParseDecimal("1.5", 0, 3, '.', FracTable());
      r.Ok? && r.value.mantissa == 105 && r.value.scale == 2
    ensures DecValue(Decimal(105, 2)) == 1.05
  {
    var ip, fp := "1", "5";
    assert AllDigits(ip) && AllDigits(fp);
    assert DigitsValue(ip) == 1 by { assert ip[..0] == ""; }
    assert DigitsValue(fp) == 5 by { assert fp[..0] == ""; }
    assert ip + "." + fp == "1.5";
    assert Pow10(2) == 100;
    ParseDecimalPlain("1.5", ip, fp);
  }

  /// DecimalFromString with the table indexed by the fraction-digit count
  /// minus one, as the source's comment promises Decimal.Parse behaviour: f
  /// fraction digits are scaled by 10^-f.
  function ParseDecimalFixed(s: string, pos: int, count: int, dot: char, table: seq<Decimal>): Result<Decimal>
  {
    if pos < 0 || pos >= |s| then Err(IndexOutOfRange)
    else
      var neg, end := s[pos] == '-', LoopEnd(s, pos, count);
      match ScanSpec(s, DigitsStart(s, pos), end)
      case Err(e) => Err(e)
      case Ok(whole) =>
        var res := Decimal(whole.value, 0);
        if whole.stop < end && s[whole.stop] == dot then
          match ScanSpec(s, whole.stop + 1, end)
          case Err(e) => Err(e)
          case Ok(frac) =>
            var cntf := frac.stop - (whole.stop + 1);
            if cntf > |table| then Err(IndexOutOfRange)
            else if cntf == 0 then Ok(if neg then DecNeg(res) else res)
            else
              var res' := DecAdd(res, DecMul(Decimal(frac.value, 0), table[cntf - 1]));
              Ok(if neg then DecNeg(res') else res')
        else Ok(if neg then DecNeg(res) else res)
  }

  /// With the corrected indexing, "ip.fp" reads as the decimal it spells:
  /// the mantissa is all the digits read as one number (see
  /// Common.DigitsValueAppend) and the scale is the number of fraction digits,
  /// as long as that number fits the 96-bit mantissa of a System.Decimal.
  lemma DecimalFixedValue(s: string, ip: string, fp: string)
    requires s == ip + "." + fp
    requires AllDigits(ip) && AllDigits(fp) && 0 < |fp| <= FRAC_TABLE_LEN
    requires DigitsValue(ip) < TWO_63 && DigitsValue(fp) < TWO_63
    requires DigitsValue(ip) * Pow10(|fp|) + DigitsValue(fp) < TWO_96
    ensures var r := ParseDecimalFixed(s, 0, |s|, '.', FracTable());
      r.Ok? && r.value.scale == |fp|
      && r.value.mantissa == DigitsValue(ip) * Pow10(|fp|) + DigitsValue(fp)
  {
    ScanWholePart(ip, fp);
    ScanFractionPart(ip, fp);
    Wrap64Id(DigitsValue(ip));
    Wrap64Id(DigitsValue(fp));
    var w, f := Scan(|ip|, DigitsValue(ip)), Scan(|s|, DigitsValue(fp));
    assert f.stop - (w.stop + 1) == |fp|;
    DecimalFixedFractionPath(s, '.', FracTable(), w, f);
    var a, b := DigitsValue(ip), DigitsValue(fp);
    var t := FracTable()[|fp| - 1];
    assert t == Decimal(1, |fp|);
    var prod := DecMul(Decimal(b, 0), t);
    assert prod == Decimal(b, |fp|);
    Shift10IsProduct(a, |fp|);
    assert Shift10(b, 0) == b;
    var r := DecAdd(Decimal(a, 0), prod);
    assert r == Decimal(a * Pow10(|fp|) + b, |fp|);
    assert ParseDecimalFixed(s, 0, |s|, '.', FracTable()) == Ok(r);
  }
}
