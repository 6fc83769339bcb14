/**
 * The parts of Python's `str` type that the validators and encoders rely on:
 * `strip`, `split` on one character, `replace`, `startswith`, and the text
 * accepted by `int()` and `float()`.
 */
module PyText {
  import opened Wrappers

  // ---------------------------------------------------------------------------
  // Whitespace and strip()
  // ---------------------------------------------------------------------------

  /** `str.isspace()` on the ASCII range: space, \t \n \v \f \r and \x1c-\x1f. */
  predicate IsSpace(c: char) {
    c == ' ' || ('\t' <= c <= '\r') || ('\U{1C}' <= c <= '\U{1F}')
  }

  function StripLeft(s: string): (r: string)
    ensures |r| <= |s| && r == s[|s| - |r|..]
    ensures r != [] ==> !IsSpace(r[0])
    ensures forall i :: 0 <= i < |s| - |r| ==> IsSpace(s[i])
  {
    if s != [] && IsSpace(s[0]) then StripLeft(s[1..]) else s
  }

  function StripRight(s: string): (r: string)
    ensures |r| <= |s| && r == s[..|r|]
    ensures r != [] ==> !IsSpace(r[|r| - 1])
    ensures forall i :: |r| <= i < |s| ==> IsSpace(s[i])
  {
    if s != [] && IsSpace(s[|s| - 1]) then StripRight(s[..|s| - 1]) else s
  }

  /** `str.strip()` with no argument. */
  function Strip(s: string): string {
    StripRight(StripLeft(s))
  }

  // ---------------------------------------------------------------------------
  // Searching, startswith(), split() and its inverse join()
  // ---------------------------------------------------------------------------

  /** Index of the first character of `s` that lies in `cs`, or |s| if none does. */
  function FirstIndexIn(s: string, cs: set<char>): (k: nat)
    ensures k <= |s|
    ensures k < |s| ==> s[k] in cs
    ensures forall j :: 0 <= j < k ==> s[j] !in cs
  {
    if s == [] then 0
    else if s[0] in cs then 0
    else 1 + FirstIndexIn(s[1..], cs)
  }

  function FirstIndex(s: string, c: char): (k: nat)
    ensures k <= |s|
    ensures k < |s| ==> s[k] == c
    ensures k == |s| <==> c !in s
    ensures forall j :: 0 <= j < k ==> s[j] != c
  {
    FirstIndexIn(s, {c})
  }

  predicate StartsWith(s: string, prefix: string) {
    |prefix| <= |s| && s[..|prefix|] == prefix
  }

  /** `s.split(sep)` for a one-character separator. */
  function Split(s: string, sep: char): (parts: seq<string>)
    ensures |parts| >= 1
    ensures forall p :: p in parts ==> sep !in p
    ensures parts[0] == s[..FirstIndex(s, sep)]
    decreases |s|
  {
    var k := FirstIndex(s, sep);
    if k == |s| then [s] else [s[..k]] + Split(s[k + 1..], sep)
  }

  /** `sep.join(parts)`. */
  function Join(parts: seq<string>, sep: char): string
    requires |parts| >= 1
  {
    if |parts| == 1 then parts[0] else parts[0] + [sep] + Join(parts[1..], sep)
  }

  /** Joining a head in front of at least one more piece puts one separator after it. */
  lemma JoinCons(head: string, rest: seq<string>, sep: char)
    requires |rest| >= 1
    ensures Join([head] + rest, sep) == head + [sep] + Join(rest, sep)
  {
    assert ([head] + rest)[1..] == rest;
  }

  /** Joining the pieces of a split gives back the original text. */
  lemma {:induction false} JoinSplit(s: string, sep: char)
    ensures Join(Split(s, sep), sep) == s
    decreases |s|
  {
    var k := FirstIndex(s, sep);
    if k < |s| {
      var rest := s[k + 1..];
      assert Split(s, sep) == [s[..k]] + Split(rest, sep);
      JoinSplit(rest, sep);
      JoinCons(s[..k], Split(rest, sep), sep);
      assert s == s[..k] + [sep] + rest;
    } else {
      assert Split(s, sep) == [s];
    }
  }

  /** A separator-free head followed by the separator splits off as the first piece. */
  lemma SplitHead(head: string, sep: char, tail: string)
    requires sep !in head
    ensures Split(head + [sep] + tail, sep) == [head] + Split(tail, sep)
  {
    var s := head + [sep] + tail;
    assert FirstIndex(s, sep) == |head| by {
      assert s[|head|] == sep;
      assert forall j :: 0 <= j < |head| ==> s[j] == head[j];
    }
    assert s[..|head|] == head;
    assert s[|head| + 1..] == tail;
  }

  /** Splitting a join of separator-free pieces gives back the pieces. */
  lemma {:induction false} SplitJoin(parts: seq<string>, sep: char)
    requires |parts| >= 1
    requires forall p :: p in parts ==> sep !in p
    ensures Split(Join(parts, sep), sep) == parts
  {
    if |parts| > 1 {
      assert parts[0] in parts;
      assert Join(parts, sep) == parts[0] + [sep] + Join(parts[1..], sep);
      SplitHead(parts[0], sep, Join(parts[1..], sep));
      assert forall p :: p in parts[1..] ==> p in parts;
      SplitJoin(parts[1..], sep);
      assert parts == [parts[0]] + parts[1..];
    }
  }

  // ---------------------------------------------------------------------------
  // replace()
  // ---------------------------------------------------------------------------

  predicate OccursAt(s: string, pat: string, i: int) {
    0 <= i && i + |pat| <= |s| && s[i..i + |pat|] == pat
  }

  predicate Contains(s: string, pat: string) {
    exists i | 0 <= i <= |s| :: OccursAt(s, pat, i)
  }

  /**
   * `s.replace(pat, rep)` for a non-empty pattern: occurrences are found left
   * to right and do not overlap; replacing the pattern by itself changes nothing.
   */
  function ReplaceAll(s: string, pat: string, rep: string): (r: string)
    requires pat != []
    ensures rep == pat ==> r == s
    decreases |s|
  {
    if |s| < |pat| then s
    else if s[..|pat|] == pat then
      assert s == s[..|pat|] + s[|pat|..];
      rep + ReplaceAll(s[|pat|..], pat, rep)
    else
      assert s == [s[0]] + s[1..];
      [s[0]] + ReplaceAll(s[1..], pat, rep)
  }

  /** Text without the pattern comes back unchanged. */
  lemma {:induction false} ReplaceAllAbsent(s: string, pat: string, rep: string)
    requires pat != []
    requires !Contains(s, pat)
    ensures ReplaceAll(s, pat, rep) == s
    decreases |s|
  {
    if |s| >= |pat| {
      assert !OccursAt(s, pat, 0);
      assert s[..|pat|] != pat;
      forall i | OccursAt(s[1..], pat, i) ensures OccursAt(s, pat, i + 1) {
        assert s[1..][i..i + |pat|] == s[i + 1..i + 1 + |pat|];
      }
      ReplaceAllAbsent(s[1..], pat, rep);
    }
  }

  /** A leading occurrence is replaced and the rest is processed on its own. */
  lemma ReplaceAllLeading(s: string, pat: string, rep: string)
    requires pat != []
    ensures ReplaceAll(pat + s, pat, rep) == rep + ReplaceAll(s, pat, rep)
  {
    assert (pat + s)[..|pat|] == pat;
    assert (pat + s)[|pat|..] == s;
  }

  /** Replacing one character: the first character, then the rest. */
  lemma ReplaceCharStep(s: string, c: char, rep: string)
    requires s != []
    ensures ReplaceAll(s, [c], rep) == (if s[0] == c then rep else [s[0]]) + ReplaceAll(s[1..], [c], rep)
  {
    assert s[..1] == [s[0]];
  }

  /** Replacing one character commutes with concatenation. */
  lemma {:induction false} ReplaceCharConcat(a: string, b: string, c: char, rep: string)
    ensures ReplaceAll(a + b, [c], rep) == ReplaceAll(a, [c], rep) + ReplaceAll(b, [c], rep)
    decreases |a|
  {
    if a != [] {
      var ab := a + b;
      assert ab[0] == a[0] && ab[1..] == a[1..] + b;
      ReplaceCharStep(ab, c, rep);
      ReplaceCharStep(a, c, rep);
      ReplaceCharConcat(a[1..], b, c, rep);
    } else {
      assert a + b == b;
    }
  }

  // ---------------------------------------------------------------------------
  // Decimal digits and the text of integers
  // ---------------------------------------------------------------------------

  predicate IsDigit(c: char) {
    '0' <= c <= '9'
  }

  predicate AllDigits(s: string) {
    forall i :: 0 <= i < |s| ==> IsDigit(s[i])
  }

  function DigitValue(c: char): nat
    requires IsDigit(c)
  {
    c as int - '0' as int
  }

  /** The number a string of decimal digits denotes ("" denotes 0). */
  function DigitsValue(s: string): nat
    requires AllDigits(s)
    decreases |s|
  {
    if s == [] then 0 else DigitsValue(s[..|s| - 1]) * 10 + DigitValue(s[|s| - 1])
  }

  /** `str(n)` for a natural number. */
  function NatText(n: nat): (s: string)
    ensures s != [] && AllDigits(s)
    ensures DigitsValue(s) == n
    ensures s[0] == '0' <==> n == 0
    decreases n
  {
    if n < 10 then [('0' as int + n) as char]
    else
      var prefix := NatText(n / 10);
      var s := prefix + [('0' as int + n % 10) as char];
      assert s[..|s| - 1] == prefix;
      assert s[0] == prefix[0];
      s
  }

  /** `str(i)` for an integer. */
  function IntText(i: int): string {
    if i < 0 then "-" + NatText(-i) else NatText(i)
  }

  // ---------------------------------------------------------------------------
  // The text accepted by int() and float()
  // ---------------------------------------------------------------------------

  function UnsignedValue(d: string): Option<nat> {
    if d != [] && AllDigits(d) then Some(DigitsValue(d)) else None
  }

  function Signed(negative: bool, n: nat): int {
    if negative then -(n as int) else n
  }

  /** The text after an optional leading sign. */
  function UnsignedPart(t: string): string {
    if t != [] && (t[0] == '+' || t[0] == '-') then t[1..] else t
  }

  /** An optionally signed, non-empty run of decimal digits. */
  predicate IsIntLiteral(t: string) {
    UnsignedPart(t) != [] && AllDigits(UnsignedPart(t))
  }

  /**
   * `int(s)` for a string: surrounding whitespace, an optional sign, then
   * one or more decimal digits. `None` stands for the ValueError.
   */
  function ParseInt(s: string): (r: Option<int>)
    ensures r.Some? <==> IsIntLiteral(Strip(s))
    ensures r.Some? ==> (if r.value < 0 then -r.value else r.value) == DigitsValue(UnsignedPart(Strip(s)))
    ensures r.Some? && r.value < 0 ==> Strip(s)[0] == '-'
    ensures r.Some? && Strip(s)[0] == '-' ==> r.value <= 0
  {
    var t := Strip(s);
    if t != [] && (t[0] == '+' || t[0] == '-') then
      match UnsignedValue(t[1..])
      case None => None
      case Some(n) => Some(Signed(t[0] == '-', n))
    else
      match UnsignedValue(t)
      case None => None
      case Some(n) => Some(n)
  }

  /** x * 10**e, one power of ten at a time. */
  function Scale(x: real, e: int): real
    decreases if e >= 0 then e else -e
  {
    if e == 0 then x
    else if e > 0 then Scale(x * 10.0, e - 1)
    else Scale(x / 10.0, e + 1)
  }

  /** 10**n. */
  function Pow10(n: nat): (p: nat)
    ensures p > 0
  {
    if n == 0 then 1 else 10 * Pow10(n - 1)
  }

  /** Where the scanner of a float literal stands. */
  datatype FloatPhase =
    | Start       // nothing but whitespace read yet
    | AfterSign   // a leading '+' or '-'
    | Whole       // one or more digits and no '.' yet
    | Fraction    // after the '.'
    | ExpMark     // after 'e' or 'E'
    | ExpSign     // after the exponent's sign
    | ExpDigits   // one or more digits of the exponent
    | Trailing    // whitespace after a complete literal

  /**
   * The scanner's state: its phase, the sign, the digits of the mantissa read
   * as one integer, how many of them follow the '.', whether there was any
   * mantissa digit at all, and the exponent read so far.
   */
  datatype FloatScan = FloatScan(phase: FloatPhase, negative: bool, mantissa: nat,
                                 fractionDigits: nat, mantissaDigits: bool,
                                 expNegative: bool, exponent: nat)

  const ScanStart: FloatScan := FloatScan(Start, false, 0, 0, false, false, 0)

  /** A literal that may end here: digits in the mantissa and no dangling exponent mark. */
  predicate Complete(st: FloatScan) {
    (st.phase == Whole || st.phase == Fraction || st.phase == ExpDigits || st.phase == Trailing)
    && st.mantissaDigits
  }

  /** One character of `float()`'s input; `None` when it cannot appear there. */
  function ScanChar(st: FloatScan, c: char): (r: Option<FloatScan>)
    ensures r.Some? && r.value.mantissaDigits ==> st.mantissaDigits || IsDigit(c)
  {
    if IsSpace(c) then
      if st.phase == Start then Some(st)
      else if Complete(st) then Some(st.(phase := Trailing))
      else None
    else
      match st.phase
      case Start | AfterSign | Whole =>
        if IsDigit(c) then
          Some(st.(phase := Whole, mantissa := st.mantissa * 10 + DigitValue(c), mantissaDigits := true))
        else if c == '.' then Some(st.(phase := Fraction))
        else if st.phase == Start && (c == '+' || c == '-') then Some(st.(phase := AfterSign, negative := c == '-'))
        else if st.phase == Whole && (c == 'e' || c == 'E') then Some(st.(phase := ExpMark))
        else None
      case Fraction =>
        if IsDigit(c) then
          Some(st.(mantissa := st.mantissa * 10 + DigitValue(c), fractionDigits := st.fractionDigits + 1,
                   mantissaDigits := true))
        else if st.mantissaDigits && (c == 'e' || c == 'E') then Some(st.(phase := ExpMark))
        else None
      case ExpMark | ExpSign =>
        if IsDigit(c) then Some(st.(phase := ExpDigits, exponent := DigitValue(c)))
        else if st.phase == ExpMark && (c == '+' || c == '-') then Some(st.(phase := ExpSign, expNegative := c == '-'))
        else None
      case ExpDigits =>
        if IsDigit(c) then Some(st.(exponent := st.exponent * 10 + DigitValue(c))) else None
      case Trailing => None
  }

  /** The state after reading all of `s`, left to right. */
  function Scan(s: string, st: FloatScan): Option<FloatScan>
    decreases |s|
  {
    if s == [] then Some(st)
    else
      match ScanChar(st, s[0])
      case None => None
      case Some(next) => Scan(s[1..], next)
  }

  /** The number a completely read literal denotes; `None` if it stopped half-way ("", "+", ".", "1e"). */
  function ScannedValue(st: FloatScan): Option<real> {
    if Complete(st) then
      var magnitude := Scale(st.mantissa as real, Signed(st.expNegative, st.exponent) - st.fractionDigits);
      Some(if st.negative then -magnitude else magnitude)
    else None
  }

  /** Reads the rest of `float()`'s input from state `st`, then gives the value of what was read. */
  function ScanFloat(s: string, st: FloatScan): (r: Option<real>)
    ensures r.Some? ==> st.mantissaDigits || exists i :: 0 <= i < |s| && IsDigit(s[i])
    decreases |s|, 1
  {
    if s == [] then ScannedValue(st) else ScanFloatStep(s, st)
  }

  /** Reads the first character of `s`, then the rest. */
  function ScanFloatStep(s: string, st: FloatScan): (r: Option<real>)
    requires s != []
    ensures r.Some? ==> st.mantissaDigits || exists i :: 0 <= i < |s| && IsDigit(s[i])
    decreases |s|, 0
  {
    match ScanChar(st, s[0])
    case None => None
    case Some(next) =>
      var r := ScanFloat(s[1..], next);
      assert forall i :: 0 <= i < |s[1..]| && IsDigit(s[1..][i]) ==> IsDigit(s[i + 1]);
      r
  }

  /**
   * `float(s)` for a string: surrounding whitespace, an optional sign, a
   * decimal mantissa with at least one digit and at most one '.', and an
   * optional exponent. `None` stands for the ValueError.
   */
  function ParseFloat(s: string): (r: Option<real>)
    ensures r.Some? ==> exists i :: 0 <= i < |s| && IsDigit(s[i])
  {
    ScanFloat(s, ScanStart)
  }

  // ---------------------------------------------------------------------------
  // Round trips between integers and their text
  // ---------------------------------------------------------------------------

  /** Digits carry no whitespace and no sign. */
  lemma DigitsAreInert(s: string)
    requires s != [] && AllDigits(s)
    ensures Strip(s) == s
    ensures s[0] != '+' && s[0] != '-'
  {
    assert !IsSpace(s[0]) && !IsSpace(s[|s| - 1]);
    assert StripLeft(s) == s;
  }


  /** `int(str(i)) == i`. */
  lemma ParseIntText(i: int)
    ensures ParseInt(IntText(i)) == Some(i)
  {
    if i < 0 {
      var d := NatText(-i);
      var t := "-" + d;
      assert !IsSpace(t[0]) && !IsSpace(t[|t| - 1]) by { assert t[|t| - 1] == d[|d| - 1]; }
      assert StripLeft(t) == t;
      assert t[1..] == d;
    } else {
      DigitsAreInert(NatText(i));
    }
  }

  /** `int()` refuses text that carries no surrounding space but a non-digit after its first character. */
  lemma ParseIntRejects(s: string, k: nat)
    requires s != [] && !IsSpace(s[0]) && !IsSpace(s[|s| - 1])
    requires 0 < k < |s| && !IsDigit(s[k])
    ensures ParseInt(s) == None
  {
    assert StripLeft(s) == s;
    assert Strip(s) == s;
    if s[0] == '+' || s[0] == '-' {
      assert s[1..][k - 1] == s[k];
    }
  }

  /** Reading `a + b` is reading `a`, then `b` from where `a` left off. */
  lemma {:induction false} ScanConcat(a: string, b: string, st: FloatScan)
    ensures Scan(a + b, st) == (match Scan(a, st) case None => None case Some(mid) => Scan(b, mid))
    decreases |a|
  {
    if a == [] {
      assert a + b == b;
    } else {
      assert (a + b)[0] == a[0] && (a + b)[1..] == a[1..] + b;
      match ScanChar(st, a[0])
      case None =>
      case Some(next) => ScanConcat(a[1..], b, next);
    }
  }

  /** One digit read before any '.', 'e' or trailing whitespace extends the whole part. */
  lemma ScanOneDigit(st: FloatScan, c: char)
    requires IsDigit(c)
    requires st.phase == Start || st.phase == AfterSign || st.phase == Whole
    ensures Scan([c], st) == Some(st.(phase := Whole, mantissa := st.mantissa * 10 + DigitValue(c), mantissaDigits := true))
  {
    assert !IsSpace(c);
    assert [c][1..] == [];
  }

  /** A run of digits read from the start (or after the sign) is a whole number of that value. */
  lemma {:induction false} ScanDigits(d: string, st: FloatScan)
    requires d != [] && AllDigits(d)
    requires (st.phase == Start || st.phase == AfterSign) && st.mantissa == 0
    ensures Scan(d, st) == Some(st.(phase := Whole, mantissa := DigitsValue(d), mantissaDigits := true))
    decreases |d|
  {
    var p, c := d[..|d| - 1], d[|d| - 1];
    assert d == p + [c];
    assert IsDigit(c);
    assert AllDigits(p) by {
      forall j | 0 <= j < |p| ensures IsDigit(p[j]) { assert p[j] == d[j]; }
    }
    assert DigitsValue(d) == DigitsValue(p) * 10 + DigitValue(c);
    ScanConcat(p, [c], st);
    if p == [] {
      assert Scan(p, st) == Some(st);
      ScanOneDigit(st, c);
    } else {
      ScanDigits(p, st);
      ScanOneDigit(st.(phase := Whole, mantissa := DigitsValue(p), mantissaDigits := true), c);
    }
  }

  /** Scanning for a value is reading the whole input, then valuing the final state. */
  lemma {:induction false} ScanFloatReads(s: string, st: FloatScan)
    ensures ScanFloat(s, st) == (match Scan(s, st) case None => None case Some(last) => ScannedValue(last))
    decreases |s|
  {
    if s != [] {
      match ScanChar(st, s[0])
      case None =>
      case Some(next) => ScanFloatReads(s[1..], next);
    }
  }

  /** A literal without '.' or exponent denotes its digits, with its sign. */
  lemma WholeValue(st: FloatScan)
    requires st.phase == Whole && st.mantissaDigits && st.fractionDigits == 0 && st.exponent == 0
    ensures ScannedValue(st) == Some(if st.negative then -(st.mantissa as real) else st.mantissa as real)
  {
    assert Signed(st.expNegative, st.exponent) - st.fractionDigits == 0;
  }

  /** `float()` of a run of digits is its value, with or without a leading '-'. */
  lemma ParseFloatDigits(d: string, negative: bool)
    requires d != [] && AllDigits(d)
    ensures ParseFloat(if negative then "-" + d else d)
            == Some(if negative then -(DigitsValue(d) as real) else DigitsValue(d) as real)
  {
    var s := if negative then "-" + d else d;
    var from := if negative then ScanStart.(phase := AfterSign, negative := true) else ScanStart;
    var last := from.(phase := Whole, mantissa := DigitsValue(d), mantissaDigits := true);
    ScanDigits(d, from);
    assert Scan(s, ScanStart) == Some(last) by {
      if negative {
        assert Scan("-", ScanStart) == Some(from);
        ScanConcat("-", d, ScanStart);
      }
    }
    WholeValue(last);
    ScanFloatReads(s, ScanStart);
  }

  /** `float(str(i)) == i`. */
  lemma ParseFloatText(i: int)
    ensures ParseFloat(IntText(i)) == Some(i as real)
  {
    ParseFloatDigits(NatText(if i < 0 then -i else i), i < 0);
  }

  // ---------------------------------------------------------------------------
  // Decimal fractions and exponents
  // ---------------------------------------------------------------------------

  /** Appending a digit to `x * q + y`. */
  lemma ShiftDigit(x: int, q: int, y: int, d: int)
    ensures (x * q + y) * 10 + d == x * (10 * q) + (y * 10 + d)
  {
  }

  /** The digits of `a + b` denote a's value shifted left by |b| digits, plus b's. */
  lemma {:induction false} DigitsValueConcat(a: string, b: string)
    requires AllDigits(a) && AllDigits(b)
    ensures AllDigits(a + b)
    ensures DigitsValue(a + b) == DigitsValue(a) * Pow10(|b|) + DigitsValue(b)
    decreases |b|
  {
    assert AllDigits(a + b) by {
      forall j | 0 <= j < |a + b| ensures IsDigit((a + b)[j]) {
        if j >= |a| { assert (a + b)[j] == b[j - |a|]; }
      }
    }
    if b == [] {
      assert a + b == a;
    } else {
      var p, c := b[..|b| - 1], b[|b| - 1];
      assert AllDigits(p) by {
        forall j | 0 <= j < |p| ensures IsDigit(p[j]) { assert p[j] == b[j]; }
      }
      assert (a + b)[..|a + b| - 1] == a + p;
      assert (a + b)[|a + b| - 1] == c;
      DigitsValueConcat(a, p);
      assert DigitsValue(a + b) == DigitsValue(a + p) * 10 + DigitValue(c);
      assert DigitsValue(b) == DigitsValue(p) * 10 + DigitValue(c);
      ShiftDigit(DigitsValue(a), Pow10(|p|), DigitsValue(p), DigitValue(c));
    }
  }

  /** Scaling down by n powers of ten divides by 10**n. */
  lemma {:induction false} ScaleDown(x: real, n: nat)
    ensures Scale(x, -(n as int)) == x / Pow10(n) as real
    decreases n
  {
    if n > 0 {
      ScaleDown(x / 10.0, n - 1);
      var q := Pow10(n - 1) as real;
      assert Pow10(n) as real == 10.0 * q;
      DivideTwice(x, q);
    }
  }

  /** Dividing by ten and then by q is dividing by 10 * q. */
  lemma DivideTwice(x: real, q: real)
    requires q > 0.0
    ensures (x / 10.0) / q == x / (10.0 * q)
  {
    var y := x / (10.0 * q);
    assert y * (10.0 * q) == x;
    assert (y * q) * 10.0 == x;
  }

  /** Scaling up by n powers of ten multiplies by 10**n. */
  lemma {:induction false} ScaleUp(x: real, n: nat)
    ensures Scale(x, n) == x * Pow10(n) as real
    decreases n
  {
    if n > 0 {
      ScaleUp(x * 10.0, n - 1);
      assert Pow10(n) as real == 10.0 * Pow10(n - 1) as real;
    }
  }

  /** Reading a single character is one step of the scanner. */
  lemma ScanOne(st: FloatScan, c: char, next: FloatScan)
    requires ScanChar(st, c) == Some(next)
    ensures Scan([c], st) == Some(next)
  {
    assert [c][0] == c && [c][1..] == [];
  }

  /** One digit after the '.' is appended to the mantissa and counted as a fraction digit. */
  lemma ScanFractionDigit(st: FloatScan, c: char)
    requires IsDigit(c) && st.phase == Fraction
    ensures Scan([c], st) == Some(st.(mantissa := st.mantissa * 10 + DigitValue(c),
                                      fractionDigits := st.fractionDigits + 1, mantissaDigits := true))
  {
    var next := st.(mantissa := st.mantissa * 10 + DigitValue(c), fractionDigits := st.fractionDigits + 1,
                    mantissaDigits := true);
    assert !IsSpace(c);
    assert ScanChar(st, c) == Some(next);
    ScanOne(st, c, next);
  }

  /** A run of digits after the '.' extends the mantissa by its value and counts its length. */
  lemma {:induction false} ScanFractionDigits(b: string, st: FloatScan)
    requires AllDigits(b) && st.phase == Fraction
    ensures Scan(b, st) == Some(st.(mantissa := st.mantissa * Pow10(|b|) + DigitsValue(b),
                                    fractionDigits := st.fractionDigits + |b|,
                                    mantissaDigits := st.mantissaDigits || b != []))
    decreases |b|
  {
    if b != [] {
      var p, c := b[..|b| - 1], b[|b| - 1];
      assert b == p + [c];
      assert AllDigits(p) by {
        forall j | 0 <= j < |p| ensures IsDigit(p[j]) { assert p[j] == b[j]; }
      }
      ScanFractionDigits(p, st);
      var mid := st.(mantissa := st.mantissa * Pow10(|p|) + DigitsValue(p),
                     fractionDigits := st.fractionDigits + |p|, mantissaDigits := st.mantissaDigits || p != []);
      ScanFractionDigit(mid, c);
      ScanThen(p, [c], st, mid, mid.(mantissa := mid.mantissa * 10 + DigitValue(c),
                                     fractionDigits := mid.fractionDigits + 1, mantissaDigits := true));
      assert DigitsValue(b) == DigitsValue(p) * 10 + DigitValue(c);
      assert Pow10(|b|) == 10 * Pow10(|p|);
      ShiftDigit(st.mantissa, Pow10(|p|), DigitsValue(p), DigitValue(c));
    }
  }

  /** One exponent digit: the first one starts the exponent, later ones extend it. */
  lemma ScanExpDigit(st: FloatScan, c: char)
    requires IsDigit(c) && (st.phase == ExpMark || st.phase == ExpSign || st.phase == ExpDigits)
    ensures Scan([c], st) == Some(st.(phase := ExpDigits,
                                      exponent := (if st.phase == ExpDigits then st.exponent * 10 else 0) + DigitValue(c)))
  {
    var next := st.(phase := ExpDigits, exponent := (if st.phase == ExpDigits then st.exponent * 10 else 0) + DigitValue(c));
    assert !IsSpace(c);
    assert ScanChar(st, c) == Some(next);
    ScanOne(st, c, next);
  }

  /** A run of digits after the exponent mark (and its sign) is an exponent of that value. */
  lemma {:induction false} ScanExpDigits(e: string, st: FloatScan)
    requires e != [] && AllDigits(e) && (st.phase == ExpMark || st.phase == ExpSign)
    ensures Scan(e, st) == Some(st.(phase := ExpDigits, exponent := DigitsValue(e)))
    decreases |e|
  {
    var p, c := e[..|e| - 1], e[|e| - 1];
    assert e == p + [c];
    assert AllDigits(p) by {
      forall j | 0 <= j < |p| ensures IsDigit(p[j]) { assert p[j] == e[j]; }
    }
    ScanConcat(p, [c], st);
    if p == [] {
      assert Scan(p, st) == Some(st);
      ScanExpDigit(st, c);
    } else {
      ScanExpDigits(p, st);
      ScanExpDigit(st.(phase := ExpDigits, exponent := DigitsValue(p)), c);
    }
  }

  /** A '.' read before any exponent starts the fraction. */
  lemma ScanPoint(st: FloatScan)
    requires st.phase == Start || st.phase == Whole
    ensures Scan(".", st) == Some(st.(phase := Fraction))
  {
    assert "."[1..] == [];
  }

  /** Reading `a + "." + b` leaves the digits of both in the mantissa and |b| fraction digits. */
  lemma ScanDecimal(a: string, b: string)
    requires AllDigits(a) && AllDigits(b) && (a != [] || b != [])
    ensures AllDigits(a + b)
    ensures Scan(a + "." + b, ScanStart) == Some(FloatScan(Fraction, false, DigitsValue(a + b), |b|, true, false, 0))
  {
    DigitsValueConcat(a, b);
    var whole := if a == [] then ScanStart else ScanStart.(phase := Whole, mantissa := DigitsValue(a), mantissaDigits := true);
    assert Scan(a, ScanStart) == Some(whole) by {
      if a != [] { ScanDigits(a, ScanStart); }
    }
    var frac := whole.(phase := Fraction);
    ScanPoint(whole);
    ScanFractionDigits(b, frac);
    ScanConcat(".", b, whole);
    assert a + "." + b == a + ("." + b);
    ScanConcat(a, "." + b, ScanStart);
  }

  /**
   * `float(a + "." + b)` for digit runs a and b, not both empty ("36.6", ".5",
   * "1."): the digits of both, divided by 10 for each digit after the '.'.
   */
  lemma ParseFloatDecimal(a: string, b: string)
    requires AllDigits(a) && AllDigits(b) && (a != [] || b != [])
    ensures AllDigits(a + b)
    ensures ParseFloat(a + "." + b) == Some(DigitsValue(a + b) as real / Pow10(|b|) as real)
  {
    ScanDecimal(a, b);
    ParseFloatOfScan(a + "." + b, FloatScan(Fraction, false, DigitsValue(a + b), |b|, true, false, 0));
    FractionValue(DigitsValue(a + b), |b|);
  }

  /** A mantissa m with k digits after the '.' and no exponent denotes m / 10**k. */
  lemma FractionValue(m: nat, k: nat)
    ensures ScannedValue(FloatScan(Fraction, false, m, k, true, false, 0)) == Some(m as real / Pow10(k) as real)
  {
    var st := FloatScan(Fraction, false, m, k, true, false, 0);
    assert Complete(st);
    assert Signed(st.expNegative, st.exponent) - st.fractionDigits == -(k as int);
    ScaleDown(m as real, k);
  }

  /** Reading x, then y from where x left off. */
  lemma ScanThen(x: string, y: string, st: FloatScan, mid: FloatScan, last: FloatScan)
    requires Scan(x, st) == Some(mid) && Scan(y, mid) == Some(last)
    ensures Scan(x + y, st) == Some(last)
  {
    ScanConcat(x, y, st);
  }

  /** `float(s)` is the value of the state that reading all of s ends in. */
  lemma ParseFloatOfScan(s: string, last: FloatScan)
    requires Scan(s, ScanStart) == Some(last)
    ensures ParseFloat(s) == ScannedValue(last)
  {
    ScanFloatReads(s, ScanStart);
  }

  /** The exponent mark, "e" or "e-", after a whole number. */
  lemma ScanExpMark(st: FloatScan, negativeExp: bool)
    requires st.phase == Whole
    ensures Scan(if negativeExp then "e-" else "e", st)
            == Some(if negativeExp then st.(phase := ExpSign, expNegative := true) else st.(phase := ExpMark))
  {
    assert "e"[1..] == [];
    if negativeExp {
      assert "e-"[1..] == "-" && "-"[1..] == [];
    }
  }

  /** Reading a whole number and then the exponent mark. */
  lemma ScanMantissaMark(a: string, mark: string, negativeExp: bool)
    requires a != [] && AllDigits(a)
    requires mark == if negativeExp then "e-" else "e"
    ensures Scan(a + mark, ScanStart)
            == Some(FloatScan(if negativeExp then ExpSign else ExpMark, false, DigitsValue(a), 0, true, negativeExp, 0))
  {
    var whole := ScanStart.(phase := Whole, mantissa := DigitsValue(a), mantissaDigits := true);
    ScanDigits(a, ScanStart);
    ScanExpMark(whole, negativeExp);
    ScanThen(a, mark, ScanStart, whole, if negativeExp then whole.(phase := ExpSign, expNegative := true) else whole.(phase := ExpMark));
  }

  /** Reading `a + "e" + e` (or with "e-") leaves a's value in the mantissa and e's in the exponent. */
  lemma ScanExponent(a: string, mark: string, e: string, negativeExp: bool)
    requires a != [] && AllDigits(a) && e != [] && AllDigits(e)
    requires mark == if negativeExp then "e-" else "e"
    ensures Scan(a + mark + e, ScanStart)
            == Some(FloatScan(ExpDigits, false, DigitsValue(a), 0, true, negativeExp, DigitsValue(e)))
  {
    var afterMark := FloatScan(if negativeExp then ExpSign else ExpMark, false, DigitsValue(a), 0, true, negativeExp, 0);
    ScanMantissaMark(a, mark, negativeExp);
    ScanExpDigits(e, afterMark);
    ScanThen(a + mark, e, ScanStart, afterMark, afterMark.(phase := ExpDigits, exponent := DigitsValue(e)));
  }

  /** `float()` of a literal with an exponent is the value of its final scanner state. */
  lemma ParseFloatOfExponent(a: string, mark: string, e: string, negativeExp: bool)
    requires a != [] && AllDigits(a) && e != [] && AllDigits(e)
    requires mark == if negativeExp then "e-" else "e"
    ensures ParseFloat(a + mark + e)
            == ScannedValue(FloatScan(ExpDigits, false, DigitsValue(a), 0, true, negativeExp, DigitsValue(e)))
  {
    ScanExponent(a, mark, e, negativeExp);
    ParseFloatOfScan(a + mark + e, FloatScan(ExpDigits, false, DigitsValue(a), 0, true, negativeExp, DigitsValue(e)));
  }

  /** `float(a + "e" + e)` for digit runs a and e denoting m and n ("1e2"): m multiplied by 10**n. */
  lemma ParseFloatExponent(a: string, e: string, m: nat, n: nat)
    requires a != [] && AllDigits(a) && DigitsValue(a) == m
    requires e != [] && AllDigits(e) && DigitsValue(e) == n
    ensures ParseFloat(a + "e" + e) == Some(m as real * Pow10(n) as real)
  {
    ParseFloatOfExponent(a, "e", e, false);
    ExponentValue(m, n, false);
  }

  /** `float(a + "e-" + e)` for digit runs a and e denoting m and n ("5e-3"): m divided by 10**n. */
  lemma ParseFloatNegativeExponent(a: string, e: string, m: nat, n: nat)
    requires a != [] && AllDigits(a) && DigitsValue(a) == m
    requires e != [] && AllDigits(e) && DigitsValue(e) == n
    ensures ParseFloat(a + "e-" + e) == Some(m as real / Pow10(n) as real)
  {
    ParseFloatOfExponent(a, "e-", e, true);
    ExponentValue(m, n, true);
  }

  /** The value of a literal read up to its exponent digits. */
  lemma ExponentValue(m: nat, n: nat, negativeExp: bool)
    ensures ScannedValue(FloatScan(ExpDigits, false, m, 0, true, negativeExp, n))
            == Some(if negativeExp then m as real / Pow10(n) as real else m as real * Pow10(n) as real)
  {
    var st := FloatScan(ExpDigits, false, m, 0, true, negativeExp, n);
    assert Complete(st);
    if negativeExp {
      assert Signed(true, n) - 0 == -(n as int);
      ScaleDown(m as real, n);
    } else {
      assert Signed(false, n) - 0 == n;
      ScaleUp(m as real, n);
      assert ScannedValue(st) == Some(Scale(m as real, n));
      assert Scale(m as real, n) == m as real * Pow10(n) as real;
    }
  }

  /** Typical inputs of the validators and the heart-risk fields. */
  lemma ParseFloatDecimalExample()
    ensures ParseFloat("36.6") == Some(36.6)
  {
    ParseFloatDecimal("36", "6");
    assert "36" + "." + "6" == "36.6";
    assert DigitsValue("366") == 366 by {
      assert "366"[..2] == "36" && "36"[..1] == "3";
    }
  }

  lemma ParseFloatFractionExample()
    ensures ParseFloat(".5") == Some(0.5)
  {
    ParseFloatDecimal("", "5");
    assert "" + "." + "5" == ".5";
    assert DigitsValue("5") == 5;
  }

  lemma ParseFloatExponentExample()
    ensures ParseFloat("1e2") == Some(100.0)
  {
    ParseFloatExponent("1", "2", 1, 2);
    assert "1" + "e" + "2" == "1e2";
    assert Pow10(2) == 100;
  }

  lemma ParseFloatNegativeExponentExample()
    ensures ParseFloat("5e-3") == Some(0.005)
  {
    ParseFloatNegativeExponent("5", "3", 5, 3);
    assert "5" + "e-" + "3" == "5e-3";
    assert Pow10(3) == 1000;
  }
}
