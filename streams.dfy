/**
  The part of `std::istringstream` extraction that the OBJ loader uses:
  `>> char`, `>> int` and `>> float` on one line of text. A stream is the
  line, a read position and whether the stream is still good; once an
  extraction fails the stream stays failed and every later extraction
  fails without consuming anything.
 */
module Streams {

  import opened Wrappers

  datatype Stream = Stream(text: string, pos: nat, good: bool) {
    predicate Wf() { pos <= |text| }
  }

  /** The outcome of one extraction: the value stored and the stream after it. */
  datatype Read<T> = Read(value: T, rest: Stream)

  /** A fresh stream over a whole line. */
  function Open(line: string): (s: Stream)
    ensures s.Wf() && s.good && s.text == line
  {
    Stream(line, 0, true)
  }

  /** `isspace` in the C locale: blank, tab, newline, vertical tab, form feed, carriage return. */
  predicate IsSpace(c: char) { c == ' ' || ('\t' <= c <= '\r') }

  predicate IsDigit(c: char) { '0' <= c <= '9' }

  /** The first position at or after `i` that is not white space. */
  function SkipSpace(t: string, i: nat): (j: nat)
    requires i <= |t|
    ensures i <= j <= |t|
    ensures j < |t| ==> !IsSpace(t[j])
    ensures forall k | i <= k < j :: IsSpace(t[k])
    decreases |t| - i
  {
    if i < |t| && IsSpace(t[i]) then SkipSpace(t, i + 1) else i
  }

  /** The end of the run of decimal digits that starts at `i`. */
  function DigitsEnd(t: string, i: nat): (j: nat)
    requires i <= |t|
    ensures i <= j <= |t|
    ensures j < |t| ==> !IsDigit(t[j])
    decreases |t| - i
  {
    if i < |t| && IsDigit(t[i]) then DigitsEnd(t, i + 1) else i
  }

  /** The value of a decimal digit; `DigitsValue` only meets digits. */
  function DigitValue(c: char): nat {
    if IsDigit(c) then c as int - '0' as int else 0
  }

  /** The value of the decimal digits `t[i..j]`. */
  function DigitsValue(t: string, i: nat, j: nat): nat
    requires i <= j <= |t|
    decreases j - i
  {
    if i == j then 0 else 10 * DigitsValue(t, i, j - 1) + DigitValue(t[j - 1])
  }

  function Power10(n: nat): (p: nat)
    ensures p >= 1
  {
    if n == 0 then 1 else 10 * Power10(n - 1)
  }

  /** The position after an optional `+` or `-` at `i`, and whether it was a minus. */
  function SignAt(t: string, i: nat): (r: (nat, bool))
    requires i <= |t|
    ensures i <= r.0 <= |t| && r.0 <= i + 1
  {
    if i < |t| && t[i] == '-' then (i + 1, true)
    else if i < |t| && t[i] == '+' then (i + 1, false)
    else (i, false)
  }

  /** A failed stream at position `i`. */
  function Fail(s: Stream, i: nat): (r: Stream)
    requires i <= |s.text|
    ensures r.Wf() && !r.good && r.text == s.text
  {
    Stream(s.text, i, false)
  }

  /**
    `s >> c` for a `char c`: skip white space, then take one character. The
    character read is the first one that is not blank, and the extraction
    fails exactly when only blanks are left.
   */
  function ExtractChar(s: Stream): (r: Read<char>)
    requires s.Wf()
    ensures r.rest.Wf() && r.rest.text == s.text
    ensures r.rest.good ==> s.good && s.pos < r.rest.pos
    ensures r.rest.good ==> r.value == s.text[r.rest.pos - 1] && !IsSpace(r.value)
    ensures r.rest.good ==> forall k | s.pos <= k < r.rest.pos - 1 :: IsSpace(s.text[k])
    ensures s.good && !r.rest.good <==> s.good && forall k | s.pos <= k < |s.text| :: IsSpace(s.text[k])
    ensures !s.good ==> r.rest == s
  {
    if !s.good then Read(' ', s)
    else
      var j := SkipSpace(s.text, s.pos);
      if j == |s.text| then Read(' ', Fail(s, j))
      else Read(s.text[j], Stream(s.text, j + 1, true))
  }

  /**
    `s >> n` for an `int n`: white space, an optional sign, then at least one
    digit. A failed extraction stores 0; `IntTextRoundTrip` states the value
    read from a printed integer.
   */
  function ExtractInt(s: Stream): (r: Read<int>)
    requires s.Wf()
    ensures r.rest.Wf() && r.rest.text == s.text
    ensures r.rest.good ==> s.good && s.pos < r.rest.pos
    ensures r.rest.good ==> r.rest.pos == |s.text| || !IsDigit(s.text[r.rest.pos])
    ensures s.good && !r.rest.good ==> r.value == 0
    ensures !s.good ==> r.rest == s
  {
    if !s.good then Read(0, s)
    else
      var j := SkipSpace(s.text, s.pos);
      var (k, negative) := SignAt(s.text, j);
      var e := DigitsEnd(s.text, k);
      if e == k then Read(0, Fail(s, e))
      else
        var n: int := DigitsValue(s.text, k, e);
        Read(if negative then -n else n, Stream(s.text, e, true))
  }

  /**
    The mantissa `[sign] digits [. digits]` at `j`, with at least one digit in
    all: where it ends and its value, or `None` when it has no digit.
   */
  function MantissaAt(t: string, j: nat): (r: Option<(nat, real)>)
    requires j <= |t|
    ensures r.Some? ==> j < r.value.0 <= |t|
    ensures r.Some? ==> r.value.0 == |t| || !IsDigit(t[r.value.0])
  {
    var (k, negative) := SignAt(t, j);
    var intEnd := DigitsEnd(t, k);
    var hasPoint := intEnd < |t| && t[intEnd] == '.';
    var fracEnd := if hasPoint then DigitsEnd(t, intEnd + 1) else intEnd;
    var fracDigits := if hasPoint then fracEnd - (intEnd + 1) else 0;
    if intEnd == k && fracDigits == 0 then None
    else
      var whole := DigitsValue(t, k, intEnd) as real;
      var frac := if hasPoint then DigitsValue(t, intEnd + 1, fracEnd) as real / Power10(fracDigits) as real else 0.0;
      Some((fracEnd, if negative then -(whole + frac) else whole + frac))
  }

  /**
    The exponent digits `[sign] digits` after an `e` or `E` at `i`: where they
    end and the factor `10^n` or `10^-n` they stand for, or `None` when there
    is no digit.
   */
  function ExponentAt(t: string, i: nat): (r: Option<(nat, real)>)
    requires i <= |t|
    ensures r.Some? ==> i < r.value.0 <= |t| && r.value.1 > 0.0
    ensures r.Some? ==> r.value.0 == |t| || !IsDigit(t[r.value.0])
  {
    var (ek, negative) := SignAt(t, i);
    var expEnd := DigitsEnd(t, ek);
    if expEnd == ek then None
    else
      var scale := Power10(DigitsValue(t, ek, expEnd)) as real;
      Some((expEnd, if negative then 1.0 / scale else scale))
  }

  /**
    `s >> x` for a `float x`: white space, a mantissa, then an optional
    exponent `e`/`E` with an optional sign and at least one digit. An `e`
    that no digit follows fails the whole field, and a failed extraction
    stores 0; `IntTextReadsAsReal` and `DecimalAt` state the value read from
    integer and decimal texts.
   */
  function ExtractReal(s: Stream): (r: Read<real>)
    requires s.Wf()
    ensures r.rest.Wf() && r.rest.text == s.text
    ensures r.rest.good ==> s.good && s.pos < r.rest.pos
    ensures r.rest.good ==> r.rest.pos == |s.text| || !IsDigit(s.text[r.rest.pos])
    ensures s.good && !r.rest.good ==> r.value == 0.0
    ensures !s.good ==> r.rest == s
  {
    if !s.good then Read(0.0, s)
    else
      var t := s.text;
      var j := SkipSpace(t, s.pos);
      match MantissaAt(t, j)
      case None => Read(0.0, Fail(s, j))
      case Some((e, mantissa)) =>
        if !(e < |t| && (t[e] == 'e' || t[e] == 'E')) then Read(mantissa, Stream(t, e, true))
        else
          match ExponentAt(t, e + 1)
          case None => Read(0.0, Fail(s, e + 1))
          case Some((x, factor)) => Read(mantissa * factor, Stream(t, x, true))
  }

  /** The character of the decimal digit `d`. */
  function DigitChar(d: nat): (c: char)
    requires d < 10
    ensures IsDigit(c) && DigitValue(c) == d
  {
    ('0' as int + d) as char
  }

  predicate AllDigits(x: string) {
    forall k | 0 <= k < |x| :: IsDigit(x[k])
  }

  /** The decimal text of `n`, most significant digit first, without leading zeros. */
  function NatText(n: nat): (t: string)
    ensures |t| >= 1 && AllDigits(t)
  {
    if n < 10 then [DigitChar(n)] else NatText(n / 10) + [DigitChar(n % 10)]
  }

  /** The text `std::cout << n` prints for an `int n`: a minus sign, then the digits of its magnitude. */
  function IntText(n: int): (t: string)
    ensures |t| >= 1 && (t[0] == '-' || IsDigit(t[0]))
  {
    if n < 0 then "-" + NatText(-n) else NatText(n)
  }

  /** The digits of `NatText(n)` are worth `n`. */
  lemma {:induction false} NatTextValue(n: nat)
    ensures DigitsValue(NatText(n), 0, |NatText(n)|) == n
  {
    if n >= 10 {
      var x := NatText(n / 10);
      assert NatText(n) == x + [DigitChar(n % 10)];
      PlacedSelf(NatText(n));
      PlacedSplit(NatText(n), 0, x, [DigitChar(n % 10)]);
      NatTextValue(n / 10);
      DigitsValuePlaced(NatText(n), 0, x);
    }
  }

  /** The digit run that starts at `i` ends at `e` when `t[i..e]` are digits and `t[e]` is not. */
  lemma {:induction false} DigitsEndAt(t: string, i: nat, e: nat)
    requires i <= e <= |t|
    requires forall k | i <= k < e :: IsDigit(t[k])
    requires e == |t| || !IsDigit(t[e])
    ensures DigitsEnd(t, i) == e
    decreases e - i
  {
    if i < e {
      DigitsEndAt(t, i + 1, e);
    }
  }

  predicate Blanks(x: string) {
    forall k | 0 <= k < |x| :: IsSpace(x[k])
  }

  /** The character `k` places after `p`. */
  function At(t: string, p: nat, k: nat): char
    requires p + k < |t|
  {
    t[p + k]
  }

  /**
    The text `x` stands in `t` at position `p`. The quantifier only fires on
    an `At` term, so that the fact stays inert until a proof asks about one
    character.
   */
  predicate Placed(t: string, p: nat, x: string) {
    p + |x| <= |t| && forall k {:trigger At(t, p, k)} | 0 <= k < |x| :: At(t, p, k) == x[k]
  }

  /** What is left of `t` from position `p` on is exactly `u`. */
  predicate Ahead(t: string, p: nat, u: string) {
    p + |u| == |t| && Placed(t, p, u)
  }

  /** Every text stands at the start of itself. */
  lemma PlacedSelf(x: string)
    ensures Placed(x, 0, x)
  {
    forall k | 0 <= k < |x|
      ensures At(x, 0, k) == x[k]
    {
    }
  }

  /** `Ahead` is the suffix of the text: `t[p..] == u`. */
  lemma AheadIsSuffix(t: string, p: nat, u: string)
    requires p <= |t|
    ensures Ahead(t, p, u) <==> t[p..] == u
  {
    if t[p..] == u {
      forall k | 0 <= k < |u|
        ensures At(t, p, k) == u[k]
      {
        assert t[p..][k] == u[k];
      }
    }
    if Ahead(t, p, u) {
      forall k | 0 <= k < |u|
        ensures t[p..][k] == u[k]
      {
        assert At(t, p, k) == u[k];
      }
      assert t[p..] == u;
    }
  }

  /** `x + y` standing at `p`: `x` stands at `p` and `y` right after it. */
  lemma PlacedSplit(t: string, p: nat, x: string, y: string)
    requires Placed(t, p, x + y)
    ensures Placed(t, p, x) && Placed(t, p + |x|, y)
  {
    forall k | 0 <= k < |x|
      ensures At(t, p, k) == x[k]
    {
      assert At(t, p, k) == (x + y)[k];
    }
    forall k | 0 <= k < |y|
      ensures At(t, p + |x|, k) == y[k]
    {
      assert At(t, p, |x| + k) == (x + y)[|x| + k];
    }
  }

  /** What is left is `x + y`: `x` stands at `p`, and after it `y` is left. */
  lemma AheadSplit(t: string, p: nat, x: string, y: string)
    requires Ahead(t, p, x + y)
    ensures Placed(t, p, x) && Ahead(t, p + |x|, y)
  {
    PlacedSplit(t, p, x, y);
  }

  /** The character after a placed text is the first of what is left after it, if anything is. */
  lemma NextOfAhead(t: string, p: nat, u: string)
    requires Ahead(t, p, u)
    ensures p == |t| || (|u| > 0 && t[p] == u[0])
  {
    if p < |t| {
      assert At(t, p, 0) == u[0];
    }
  }

  /** White-space skipping from `i` stops at `j` when `t[i..j]` are blanks and `t[j]` is not. */
  lemma {:induction false} SkipSpaceAt(t: string, i: nat, j: nat)
    requires i <= j <= |t|
    requires forall k | i <= k < j :: IsSpace(t[k])
    requires j == |t| || !IsSpace(t[j])
    ensures SkipSpace(t, i) == j
    decreases j - i
  {
    if i < j {
      SkipSpaceAt(t, i + 1, j);
    }
  }

  /** The blanks `x` standing at `p`, with no blank after them, are what `>>` skips. */
  lemma SkipBlanks(t: string, p: nat, x: string)
    requires Placed(t, p, x) && Blanks(x)
    requires p + |x| == |t| || !IsSpace(t[p + |x|])
    ensures SkipSpace(t, p) == p + |x|
  {
    forall k | p <= k < p + |x|
      ensures IsSpace(t[k])
    {
      assert At(t, p, k - p) == x[k - p];
    }
    SkipSpaceAt(t, p, p + |x|);
  }

  /** The value of placed digits is the value of the digits themselves. */
  lemma {:induction false} DigitsValuePlaced(t: string, i: nat, x: string)
    requires Placed(t, i, x)
    ensures DigitsValue(t, i, i + |x|) == DigitsValue(x, 0, |x|)
    decreases |x|
  {
    if |x| > 0 {
      var y, d := x[..|x| - 1], x[|x| - 1];
      assert x == y + [d];
      PlacedSplit(t, i, y, [d]);
      PlacedSplit(x, 0, y, [d]);
      assert At(t, i + |y|, 0) == [d][0];
      assert At(x, 0 + |y|, 0) == [d][0];
      DigitsValuePlaced(t, i, y);
      DigitsValuePlaced(x, 0, y);
      var digit := DigitValue(d);
      assert DigitsValue(t, i, i + |x|) == 10 * DigitsValue(t, i, i + |y|) + digit;
      assert DigitsValue(x, 0, |x|) == 10 * DigitsValue(x, 0, 0 + |y|) + digit;
    }
  }

  /** The digits `x` standing at `i`, with no digit after them, are the run read there. */
  lemma DigitRunPlaced(t: string, i: nat, x: string)
    requires Placed(t, i, x) && AllDigits(x)
    requires i + |x| == |t| || !IsDigit(t[i + |x|])
    ensures DigitsEnd(t, i) == i + |x|
    ensures DigitsValue(t, i, i + |x|) == DigitsValue(x, 0, |x|)
  {
    forall k | i <= k < i + |x|
      ensures IsDigit(t[k])
    {
      assert At(t, i, k - i) == x[k - i];
    }
    DigitsEndAt(t, i, i + |x|);
    DigitsValuePlaced(t, i, x);
  }

  /** `>> char` after blanks reads the first character that is not blank and stops right after it. */
  lemma CharRoundTrip(s: Stream, blanks: string, c: char, rest: string)
    requires s.Wf() && s.good && Blanks(blanks) && !IsSpace(c)
    requires Ahead(s.text, s.pos, blanks + [c] + rest)
    ensures ExtractChar(s) == Read(c, Stream(s.text, s.pos + |blanks| + 1, true))
  {
    var t := s.text;
    AheadSplit(t, s.pos, blanks + [c], rest);
    PlacedSplit(t, s.pos, blanks, [c]);
    assert At(t, s.pos + |blanks|, 0) == [c][0];
    SkipBlanks(t, s.pos, blanks);
  }

  /** `>> int` where skipping ends at `j`, a sign at `k` and a digit run worth `m` at `e`: the signed run is read. */
  lemma IntFrom(s: Stream, j: nat, k: nat, negative: bool, e: nat, m: nat)
    requires s.Wf() && s.good && k < e <= |s.text|
    requires SkipSpace(s.text, s.pos) == j && SignAt(s.text, j) == (k, negative)
    requires DigitsEnd(s.text, k) == e && DigitsValue(s.text, k, e) == m
    ensures ExtractInt(s) == Read(if negative then -(m as int) else m as int, Stream(s.text, e, true))
  {
  }

  /** `>> float` where skipping ends at `j`, a sign at `k` and a digit run worth `m` at `e`, followed by no point or exponent. */
  lemma IntAsRealFrom(s: Stream, j: nat, k: nat, negative: bool, e: nat, m: nat)
    requires s.Wf() && s.good && k < e <= |s.text|
    requires SkipSpace(s.text, s.pos) == j && SignAt(s.text, j) == (k, negative)
    requires DigitsEnd(s.text, k) == e && DigitsValue(s.text, k, e) == m
    requires e == |s.text| || !(s.text[e] == '.' || s.text[e] == 'e' || s.text[e] == 'E')
    ensures ExtractReal(s) == Read(if negative then -(m as real) else m as real, Stream(s.text, e, true))
  {
    assert MantissaAt(s.text, j) == Some((e, if negative then -(m as real) else m as real));
  }

  /** A field `blanks + (sign + x)` with `rest` left after it, taken apart into its pieces. */
  lemma FieldPieces(t: string, p: nat, blanks: string, sign: string, x: string, rest: string)
    requires Ahead(t, p, blanks + (sign + x) + rest)
    ensures Placed(t, p, blanks) && Placed(t, p + |blanks|, sign) && Placed(t, p + |blanks| + |sign|, x)
    ensures Ahead(t, p + |blanks| + |sign| + |x|, rest)
  {
    AheadSplit(t, p, blanks + (sign + x), rest);
    PlacedSplit(t, p, blanks, sign + x);
    PlacedSplit(t, p + |blanks|, sign, x);
  }

  /**
    Blanks and then an optional minus sign standing before a digit: white-space
    skipping ends at the sign, and the sign ends where the digit stands.
   */
  lemma SignAfterBlanks(t: string, p: nat, blanks: string, sign: string)
    requires Placed(t, p, blanks) && Blanks(blanks) && (sign == "" || sign == "-")
    requires Placed(t, p + |blanks|, sign)
    requires p + |blanks| + |sign| < |t| && IsDigit(t[p + |blanks| + |sign|])
    ensures SkipSpace(t, p) == p + |blanks|
    ensures SignAt(t, p + |blanks|) == (p + |blanks| + |sign|, sign == "-")
  {
    if sign == "-" {
      assert At(t, p + |blanks|, 0) == sign[0];
    }
    SkipBlanks(t, p, blanks);
  }

  /** Digits standing at `i` put a digit at `i`. */
  lemma FirstDigit(t: string, i: nat, x: string)
    requires Placed(t, i, x) && AllDigits(x) && |x| >= 1
    ensures i < |t| && IsDigit(t[i])
  {
    assert At(t, i, 0) == x[0];
  }

  /**
    A numeric field read by `>> int`: blanks, an optional minus sign and the
    digits `x` worth `m`, followed by no digit. The signed value `m` is read,
    and the stream stops right after the digits.
   */
  lemma SignedDigitsRead(s: Stream, blanks: string, sign: string, x: string, m: nat, rest: string)
    requires s.Wf() && s.good && Blanks(blanks) && (sign == "" || sign == "-")
    requires |x| >= 1 && AllDigits(x) && DigitsValue(x, 0, |x|) == m
    requires Ahead(s.text, s.pos, blanks + (sign + x) + rest)
    requires rest == [] || !IsDigit(rest[0])
    ensures ExtractInt(s) == Read(if sign == "-" then -(m as int) else m as int, Stream(s.text, s.pos + |blanks| + |sign + x|, true))
  {
    var t, j := s.text, s.pos + |blanks|;
    FieldPieces(t, s.pos, blanks, sign, x, rest);
    NextOfAhead(t, j + |sign| + |x|, rest);
    FirstDigit(t, j + |sign|, x);
    SignAfterBlanks(t, s.pos, blanks, sign);
    DigitRunPlaced(t, j + |sign|, x);
    IntFrom(s, j, j + |sign|, sign == "-", j + |sign| + |x|, m);
  }

  /** The same field read by `>> float`, when no digit, point or exponent follows: the same value, as a real. */
  lemma SignedDigitsReadAsReal(s: Stream, blanks: string, sign: string, x: string, m: nat, rest: string)
    requires s.Wf() && s.good && Blanks(blanks) && (sign == "" || sign == "-")
    requires |x| >= 1 && AllDigits(x) && DigitsValue(x, 0, |x|) == m
    requires Ahead(s.text, s.pos, blanks + (sign + x) + rest)
    requires rest == [] || !(IsDigit(rest[0]) || rest[0] == '.' || rest[0] == 'e' || rest[0] == 'E')
    ensures ExtractReal(s) == Read(if sign == "-" then -(m as real) else m as real, Stream(s.text, s.pos + |blanks| + |sign + x|, true))
  {
    var t, j := s.text, s.pos + |blanks|;
    FieldPieces(t, s.pos, blanks, sign, x, rest);
    NextOfAhead(t, j + |sign| + |x|, rest);
    FirstDigit(t, j + |sign|, x);
    SignAfterBlanks(t, s.pos, blanks, sign);
    DigitRunPlaced(t, j + |sign|, x);
    IntAsRealFrom(s, j, j + |sign|, sign == "-", j + |sign| + |x|, m);
  }

  /** The digits `x[i..]`, at least one, worth `m`. */
  predicate DigitsFrom(x: string, i: nat, m: nat) {
    i < |x| && (forall k | i <= k < |x| :: IsDigit(x[k])) && DigitsValue(x, i, |x|) == m
  }

  /** `x` is a decimal text of `n`: a minus sign when `n` is negative, then digits worth its magnitude. */
  predicate Numeral(x: string, n: int) {
    if n < 0 then |x| > 0 && x[0] == '-' && DigitsFrom(x, 1, -n) else DigitsFrom(x, 0, n)
  }

  /** What `std::cout << n` prints is a decimal text of `n`. */
  lemma IntTextNumeral(n: int)
    ensures Numeral(IntText(n), n)
  {
    var m: nat := if n < 0 then -n else n;
    var i := if n < 0 then 1 else 0;
    var x := IntText(n);
    NatTextValue(m);
    assert x[i..] == NatText(m);
    PlacedSelf(x);
    PlacedSplit(x, 0, x[..i], x[i..]);
    DigitsValuePlaced(x, i, x[i..]);
  }

  /** A numeral `x` of `n`, split into its sign and its digits. */
  lemma NumeralParts(x: string, n: int)
    requires Numeral(x, n)
    ensures var i := if n < 0 then 1 else 0;
      && (x[..i] == "" || x[..i] == "-") && x == x[..i] + x[i..]
      && |x[i..]| >= 1 && AllDigits(x[i..]) && DigitsValue(x[i..], 0, |x[i..]|) == (if n < 0 then -n else n)
  {
    var i := if n < 0 then 1 else 0;
    var sign, d := x[..i], x[i..];
    assert x == sign + d;
    if n < 0 {
      assert sign == [x[0]];
    }
    PlacedSelf(x);
    PlacedSplit(x, 0, sign, d);
    DigitsValuePlaced(x, i, d);
  }

  /**
    Reading back a numeral: wherever a good stream stands, `>> int` on some
    blanks, a decimal text of `n` and anything that does not start with a
    digit reads `n` and stops right after the text.
   */
  lemma NumeralRead(s: Stream, blanks: string, x: string, n: int, rest: string)
    requires s.Wf() && s.good && Blanks(blanks) && Numeral(x, n)
    requires Ahead(s.text, s.pos, blanks + x + rest)
    requires rest == [] || !IsDigit(rest[0])
    ensures ExtractInt(s) == Read(n, Stream(s.text, s.pos + |blanks| + |x|, true))
  {
    NumeralParts(x, n);
    var i := if n < 0 then 1 else 0;
    SignedDigitsRead(s, blanks, x[..i], x[i..], if n < 0 then -n else n, rest);
  }

  /** `>> float` reads a numeral of `n` as `n` when no digit, point or exponent follows it. */
  lemma NumeralReadAsReal(s: Stream, blanks: string, x: string, n: int, rest: string)
    requires s.Wf() && s.good && Blanks(blanks) && Numeral(x, n)
    requires Ahead(s.text, s.pos, blanks + x + rest)
    requires rest == [] || !(IsDigit(rest[0]) || rest[0] == '.' || rest[0] == 'e' || rest[0] == 'E')
    ensures ExtractReal(s) == Read(n as real, Stream(s.text, s.pos + |blanks| + |x|, true))
  {
    NumeralParts(x, n);
    var i := if n < 0 then 1 else 0;
    SignedDigitsReadAsReal(s, blanks, x[..i], x[i..], if n < 0 then -n else n, rest);
  }

  /**
    Reading back a printed integer: wherever a good stream stands, `>> int`
    on some blanks, the text of `n` and anything that does not start with a
    digit reads `n` and stops right after it.
   */
  lemma IntTextRoundTrip(s: Stream, blanks: string, n: int, rest: string)
    requires s.Wf() && s.good && Blanks(blanks)
    requires Ahead(s.text, s.pos, blanks + IntText(n) + rest)
    requires rest == [] || !IsDigit(rest[0])
    ensures ExtractInt(s) == Read(n, Stream(s.text, s.pos + |blanks| + |IntText(n)|, true))
  {
    IntTextNumeral(n);
    NumeralRead(s, blanks, IntText(n), n, rest);
  }

  /** A printed integer is also read back exactly by `>> float`, when neither a digit, a point nor an exponent follows. */
  lemma IntTextReadsAsReal(s: Stream, blanks: string, n: int, rest: string)
    requires s.Wf() && s.good && Blanks(blanks)
    requires Ahead(s.text, s.pos, blanks + IntText(n) + rest)
    requires rest == [] || !(IsDigit(rest[0]) || rest[0] == '.' || rest[0] == 'e' || rest[0] == 'E')
    ensures ExtractReal(s) == Read(n as real, Stream(s.text, s.pos + |blanks| + |IntText(n)|, true))
  {
    IntTextNumeral(n);
    NumeralReadAsReal(s, blanks, IntText(n), n, rest);
  }

  /**
    Reading a decimal: wherever a good stream stands, `>> float` on blanks up
    to `j`, then a run of `a` digits worth `w`, a point and a run of `b`
    digits worth `f` (leading zeros allowed, at least one digit in all), with
    no `e` or `E` after them, gives `w + f / 10^b` and stops right after the
    fraction digits.
   */
  lemma DecimalAt(s: Stream, j: nat, a: nat, b: nat, w: nat, f: nat)
    requires s.Wf() && s.good && s.pos <= j && j + a + 1 + b <= |s.text| && 0 < a + b
    requires forall k | s.pos <= k < j :: IsSpace(s.text[k])
    requires DigitsEnd(s.text, j) == j + a && DigitsValue(s.text, j, j + a) == w && s.text[j + a] == '.'
    requires DigitsEnd(s.text, j + a + 1) == j + a + 1 + b && DigitsValue(s.text, j + a + 1, j + a + 1 + b) == f
    requires j + a + 1 + b == |s.text| || !(s.text[j + a + 1 + b] == 'e' || s.text[j + a + 1 + b] == 'E')
    ensures ExtractReal(s) == Read(w as real + f as real / Power10(b) as real, Stream(s.text, j + a + 1 + b, true))
  {
    var t := s.text;
    assert !IsSpace(t[j]) && t[j] != '-' && t[j] != '+' by {
      if a > 0 {
        assert IsDigit(t[j]);
      }
    }
    SkipSpaceAt(t, s.pos, j);
    assert SignAt(t, j) == (j, false);
    assert MantissaAt(t, j) == Some((j + a + 1 + b, w as real + f as real / Power10(b) as real));
  }

  /** `1e 2`: an `e` that no digit follows fails the field, which then stores 0, as `num_get` does. */
  lemma DanglingExponentFails()
    ensures ExtractReal(Open("1e 2")) == Read(0.0, Stream("1e 2", 2, false))
  {
    var t := "1e 2";
    assert SkipSpace(t, 0) == 0;
    assert DigitsEnd(t, 0) == 1 by { assert DigitsEnd(t, 1) == 1; }
    assert DigitsEnd(t, 2) == 2;
    assert MantissaAt(t, 0) == Some((1, 1.0));
    assert ExponentAt(t, 2) == None;
  }

  /** `n` successive `>> float` extractions, as `for (i = 0; i < n; i++) iss >> v[i]`. */
  function Reals(s: Stream, n: nat): (r: seq<real>)
    requires s.Wf()
    ensures |r| == n
    decreases n
  {
    if n == 0 then [] else [ExtractReal(s).value] + Reals(ExtractReal(s).rest, n - 1)
  }

  /** The `for` loop that reads `n` floats in turn. */
  method ReadReals(s: Stream, n: nat) returns (vals: seq<real>)
    requires s.Wf()
    ensures vals == Reals(s, n)
    ensures |vals| == n
  {
    vals := [];
    var st := s;
    for i := 0 to n
      invariant st.Wf() && st.text == s.text
      invariant |vals| == i
      invariant vals + Reals(st, n - i) == Reals(s, n)
    {
      var r := ExtractReal(st);
      assert (vals + [r.value]) + Reals(r.rest, n - (i + 1)) == Reals(s, n) by {
        ReadOneReal(vals, st, n - i);
      }
      vals := vals + [r.value];
      st := r.rest;
    }
  }

  /** One more extraction moves the first of the values still to read to the end of those read. */
  lemma ReadOneReal(done: seq<real>, st: Stream, m: nat)
    requires st.Wf() && m > 0
    ensures done + Reals(st, m) == (done + [ExtractReal(st).value]) + Reals(ExtractReal(st).rest, m - 1)
  {
    ShiftOne(done + Reals(st, m), done, ExtractReal(st).value, Reals(ExtractReal(st).rest, m - 1));
  }

  /** Moving the first element of the unread part to the end of the part read. */
  lemma ShiftOne<T>(all: seq<T>, done: seq<T>, x: T, rest: seq<T>)
    requires all == done + ([x] + rest)
    ensures all == (done + [x]) + rest
  {
  }

  /** One face-vertex reference `idx trash tidx trash nidx`, read as five chained extractions. */
  function ExtractTriple(s: Stream): (r: Read<(int, int, int)>)
    requires s.Wf()
    ensures r.rest.Wf() && r.rest.text == s.text
    ensures r.rest.good ==> s.good && s.pos < r.rest.pos
  {
    var a := ExtractInt(s);
    var x := ExtractChar(a.rest);
    var b := ExtractInt(x.rest);
    var y := ExtractChar(b.rest);
    var c := ExtractInt(y.rest);
    Read((a.value, b.value, c.value), c.rest)
  }

  /** Every triple the loop `while (iss >> idx >> trash >> tidx >> trash >> nidx)` reads before its stream fails. */
  function Triples(s: Stream): seq<(int, int, int)>
    requires s.Wf()
    decreases 2 * (|s.text| - s.pos) + 1
  {
    TriplesAfter(ExtractTriple(s))
  }

  /** What the loop reads after the attempt `r`: nothing if it failed, else its triple and the ones after. */
  function TriplesAfter(r: Read<(int, int, int)>): seq<(int, int, int)>
    requires r.rest.Wf()
    decreases if r.rest.good then 2 * (|r.rest.text| - r.rest.pos) + 2 else 0
  {
    if r.rest.good then [r.value] + Triples(r.rest) else []
  }

  /** The text `x/y/z` of one face-vertex reference, each index printed as an integer. */
  function TripleText(v: (int, int, int)): string {
    IntText(v.0) + "/" + IntText(v.1) + "/" + IntText(v.2)
  }

  /** The references whose parts are the texts `ps`, written one after another, each after a blank. */
  function RefsText(ps: seq<(string, string, string)>): (t: string)
    ensures ps != [] ==> |t| > 0 && t[0] == ' '
  {
    if ps == [] then "" else " " + (ps[0].0 + "/" + ps[0].1 + "/" + ps[0].2) + RefsText(ps[1..])
  }

  /** Each part of the reference `r` is a decimal text of the matching index in `v`. */
  predicate NumeralTriple(r: (string, string, string), v: (int, int, int)) {
    Numeral(r.0, v.0) && Numeral(r.1, v.1) && Numeral(r.2, v.2)
  }

  /** Each reference in `ps` is a decimal text of the matching indices in `ts`. */
  predicate NumeralRefs(ps: seq<(string, string, string)>, ts: seq<(int, int, int)>) {
    |ps| == |ts| && (ps != [] ==> NumeralTriple(ps[0], ts[0]) && NumeralRefs(ps[1..], ts[1..]))
  }

  /** The printed parts of the references `ts`. */
  function PrintedRefs(ts: seq<(int, int, int)>): (ps: seq<(string, string, string)>)
    ensures |ps| == |ts|
  {
    if ts == [] then [] else [(IntText(ts[0].0), IntText(ts[0].1), IntText(ts[0].2))] + PrintedRefs(ts[1..])
  }

  /** Printed references are decimal texts of their indices. */
  lemma {:induction false} PrintedRefsNumeral(ts: seq<(int, int, int)>)
    ensures NumeralRefs(PrintedRefs(ts), ts)
    decreases |ts|
  {
    if ts != [] {
      IntTextNumeral(ts[0].0);
      IntTextNumeral(ts[0].1);
      IntTextNumeral(ts[0].2);
      PrintedRefsNumeral(ts[1..]);
      assert PrintedRefs(ts)[1..] == PrintedRefs(ts[1..]);
    }
  }

  /** The references `ts` printed one after another, each after a blank, as an `f` line has them. */
  function TriplesText(ts: seq<(int, int, int)>): string {
    RefsText(PrintedRefs(ts))
  }

  /** A field `a/b/c` after `blanks`, regrouped at the start of each numeral. */
  lemma TriplePieces(t: string, p: nat, blanks: string, a: string, b: string, c: string, rest: string)
    requires Ahead(t, p, blanks + (a + "/" + b + "/" + c) + rest)
    ensures Ahead(t, p, blanks + a + (['/'] + (b + (['/'] + (c + rest)))))
    ensures |a + "/" + b + "/" + c| == |a| + 1 + |b| + 1 + |c|
  {
    assert blanks + (a + "/" + b + "/" + c) + rest == blanks + a + (['/'] + (b + (['/'] + (c + rest))));
  }

  /** `>> int` then `>> char` on blanks, a numeral and a slash: the value, the slash, and what is left after it. */
  lemma NumeralThenSlash(t: string, q: nat, blanks: string, x: string, n: int, more: string)
    requires Blanks(blanks) && Numeral(x, n)
    requires Ahead(t, q, blanks + x + (['/'] + more))
    ensures ExtractInt(Stream(t, q, true)) == Read(n, Stream(t, q + |blanks| + |x|, true))
    ensures ExtractChar(Stream(t, q + |blanks| + |x|, true)) == Read('/', Stream(t, q + |blanks| + |x| + 1, true))
    ensures Ahead(t, q + |blanks| + |x| + 1, more)
  {
    NumeralRead(Stream(t, q, true), blanks, x, n, ['/'] + more);
    AheadSplit(t, q, blanks + x, ['/'] + more);
    NoBlanks(t, q + |blanks| + |x|, ['/'], more);
    CharRoundTrip(Stream(t, q + |blanks| + |x|, true), "", '/', more);
    AheadSplit(t, q + |blanks| + |x|, ['/'], more);
  }

  /** No blanks before a field: the empty text in front changes nothing. */
  lemma NoBlanks(t: string, q: nat, x: string, rest: string)
    requires Ahead(t, q, x + rest)
    ensures Ahead(t, q, "" + x + rest)
  {
    assert "" + x + rest == x + rest;
  }

  /** The last three extractions of a reference, `tidx >> trash >> nidx`, on `b/c` with no blanks before it. */
  lemma LastThreeReads(t: string, q: nat, b: string, c: string, v1: int, v2: int, rest: string)
    requires Numeral(b, v1) && Numeral(c, v2)
    requires Ahead(t, q, b + (['/'] + (c + rest)))
    requires rest == [] || !IsDigit(rest[0])
    ensures ExtractInt(Stream(t, q, true)) == Read(v1, Stream(t, q + |b|, true))
    ensures ExtractChar(Stream(t, q + |b|, true)) == Read('/', Stream(t, q + |b| + 1, true))
    ensures ExtractInt(Stream(t, q + |b| + 1, true)) == Read(v2, Stream(t, q + |b| + 1 + |c|, true))
  {
    NoBlanks(t, q, b, ['/'] + (c + rest));
    NumeralThenSlash(t, q, "", b, v1, c + rest);
    NoBlanks(t, q + |""| + |b| + 1, c, rest);
    NumeralRead(Stream(t, q + |""| + |b| + 1, true), "", c, v2, rest);
  }

  /**
    One reference `a/b/c` whose parts are decimal texts of `v`: the five
    extractions of `idx >> trash >> tidx >> trash >> nidx`, after blanks and
    before anything that does not start with a digit, read `v` and stop
    right after the reference.
   */
  lemma NumeralTripleRead(s: Stream, blanks: string, a: string, b: string, c: string, v: (int, int, int), rest: string)
    requires s.Wf() && s.good && Blanks(blanks)
    requires Numeral(a, v.0) && Numeral(b, v.1) && Numeral(c, v.2)
    requires Ahead(s.text, s.pos, blanks + (a + "/" + b + "/" + c) + rest)
    requires rest == [] || !IsDigit(rest[0])
    ensures ExtractTriple(s) == Read(v, Stream(s.text, s.pos + |blanks| + |a + "/" + b + "/" + c|, true))
  {
    var t, p := s.text, s.pos;
    assert s == Stream(t, p, true);
    TriplePieces(t, p, blanks, a, b, c, rest);
    var e0 := p + |blanks| + |a|;
    NumeralThenSlash(t, p, blanks, a, v.0, b + (['/'] + (c + rest)));
    LastThreeReads(t, e0 + 1, b, c, v.1, v.2, rest);
    TripleOfReads(t, p, v, e0, e0 + 1 + |b|, e0 + 1 + |b| + 1 + |c|);
  }

  /** The five extractions of one reference, given what each of them reads. */
  lemma TripleOfReads(t: string, p: nat, v: (int, int, int), e0: nat, e1: nat, e2: nat)
    requires p <= |t|
    requires ExtractInt(Stream(t, p, true)) == Read(v.0, Stream(t, e0, true))
    requires ExtractChar(Stream(t, e0, true)) == Read('/', Stream(t, e0 + 1, true))
    requires ExtractInt(Stream(t, e0 + 1, true)) == Read(v.1, Stream(t, e1, true))
    requires ExtractChar(Stream(t, e1, true)) == Read('/', Stream(t, e1 + 1, true))
    requires ExtractInt(Stream(t, e1 + 1, true)) == Read(v.2, Stream(t, e2, true))
    ensures ExtractTriple(Stream(t, p, true)) == Read(v, Stream(t, e2, true))
  {
  }

  /** One printed reference `x/y/z` is read back as the triple `(x, y, z)`. */
  lemma TripleRoundTrip(s: Stream, blanks: string, v: (int, int, int), rest: string)
    requires s.Wf() && s.good && Blanks(blanks)
    requires Ahead(s.text, s.pos, blanks + TripleText(v) + rest)
    requires rest == [] || !IsDigit(rest[0])
    ensures ExtractTriple(s) == Read(v, Stream(s.text, s.pos + |blanks| + |TripleText(v)|, true))
  {
    IntTextNumeral(v.0);
    IntTextNumeral(v.1);
    IntTextNumeral(v.2);
    NumeralTripleRead(s, blanks, IntText(v.0), IntText(v.1), IntText(v.2), v, rest);
  }

  /** One reference read, then the rest: the loop reads it first and then what it reads from there. */
  lemma TriplesStep(s: Stream, v: (int, int, int), e: nat, more: seq<(int, int, int)>)
    requires s.Wf() && e <= |s.text|
    requires ExtractTriple(s) == Read(v, Stream(s.text, e, true))
    requires Triples(Stream(s.text, e, true)) == more
    ensures Triples(s) == [v] + more
  {
  }

  /** Regrouping the text that is left. */
  lemma AheadAssoc(t: string, p: nat, x: string, y: string, z: string)
    requires Ahead(t, p, x + y + z)
    ensures Ahead(t, p, x + (y + z))
  {
    assert x + y + z == x + (y + z);
  }

  /** What follows a reference, more references or blanks, does not start with a digit. */
  lemma NotDigitAfter(more: string, tail: string)
    requires Blanks(tail) && (more == [] || more[0] == ' ')
    ensures more + tail == [] || !IsDigit((more + tail)[0])
  {
    if more == [] {
      assert more + tail == tail;
    }
  }

  /** Only blanks left: the first `>> int` of a reference fails, and with it the whole reference. */
  lemma NoTripleInBlanks(s: Stream, tail: string)
    requires s.Wf() && s.good && Blanks(tail) && Ahead(s.text, s.pos, tail)
    ensures !ExtractTriple(s).rest.good
  {
    SkipBlanks(s.text, s.pos, tail);
  }

  /** Where the reference loop stands after the reference `r` that starts with a blank at `p`. */
  function AfterRef(p: nat, r: (string, string, string)): nat {
    p + 1 + |r.0 + "/" + r.1 + "/" + r.2|
  }

  /**
    The passes of the reference loop from `s`: one reference of `ts` per
    reference text of `ps`, each ending where the next starts, and a last
    pass that fails.
   */
  predicate RefsChain(s: Stream, ps: seq<(string, string, string)>, ts: seq<(int, int, int)>)
    requires s.Wf()
    decreases |ps|
  {
    |ps| == |ts| &&
    if ps == [] then !ExtractTriple(s).rest.good
    else
      AfterRef(s.pos, ps[0]) <= |s.text| &&
      ExtractTriple(s) == Read(ts[0], Stream(s.text, AfterRef(s.pos, ps[0]), true)) &&
      RefsChain(Stream(s.text, AfterRef(s.pos, ps[0]), true), ps[1..], ts[1..])
  }

  /** A non-empty sequence is its head followed by its tail. */
  lemma ConsTail<T>(xs: seq<T>)
    requires xs != []
    ensures [xs[0]] + xs[1..] == xs
  {
  }

  /** The reference loop collects what its passes read. */
  lemma {:induction false} ChainTriples(s: Stream, ps: seq<(string, string, string)>, ts: seq<(int, int, int)>)
    requires s.Wf() && RefsChain(s, ps, ts)
    ensures Triples(s) == ts
    decreases |ps|
  {
    if ps != [] {
      var next := Stream(s.text, AfterRef(s.pos, ps[0]), true);
      ChainTriples(next, ps[1..], ts[1..]);
      TriplesStep(s, ts[0], next.pos, ts[1..]);
      ConsTail(ts);
    }
  }

  /** The text after a blank and the first of the references `ps`, and what the first pass finds there. */
  lemma RefsStep(t: string, p: nat, ps: seq<(string, string, string)>, tail: string)
    requires Blanks(tail) && ps != []
    requires Ahead(t, p, RefsText(ps) + tail)
    ensures Ahead(t, p, " " + (ps[0].0 + "/" + ps[0].1 + "/" + ps[0].2) + (RefsText(ps[1..]) + tail))
    ensures RefsText(ps[1..]) + tail == [] || !IsDigit((RefsText(ps[1..]) + tail)[0])
    ensures Ahead(t, AfterRef(p, ps[0]), RefsText(ps[1..]) + tail)
  {
    var r, more := ps[0], RefsText(ps[1..]);
    AheadAssoc(t, p, " " + (r.0 + "/" + r.1 + "/" + r.2), more, tail);
    AheadAssoc(t, p, " ", r.0 + "/" + r.1 + "/" + r.2, more + tail);
    AheadSplit(t, p, " ", (r.0 + "/" + r.1 + "/" + r.2) + (more + tail));
    AheadSplit(t, p + |" "|, r.0 + "/" + r.1 + "/" + r.2, more + tail);
    assert AfterRef(p, r) == p + |" "| + |r.0 + "/" + r.1 + "/" + r.2|;
    NotDigitAfter(more, tail);
  }

  /** One pass of the reference loop over the reference `r`, after a blank. */
  lemma FirstRefRead(s: Stream, r: (string, string, string), v: (int, int, int), rest: string)
    requires s.Wf() && s.good && NumeralTriple(r, v)
    requires Ahead(s.text, s.pos, " " + (r.0 + "/" + r.1 + "/" + r.2) + rest)
    requires rest == [] || !IsDigit(rest[0])
    ensures AfterRef(s.pos, r) <= |s.text|
    ensures ExtractTriple(s) == Read(v, Stream(s.text, AfterRef(s.pos, r), true))
  {
    NumeralTripleRead(s, " ", r.0, r.1, r.2, v, rest);
  }

  /** The text of references that are decimal texts of `ts`, followed by blanks only, gives the passes of `ts`. */
  lemma {:induction false} NumeralRefsChain(s: Stream, ps: seq<(string, string, string)>, ts: seq<(int, int, int)>, tail: string)
    requires s.Wf() && s.good && Blanks(tail) && NumeralRefs(ps, ts)
    requires Ahead(s.text, s.pos, RefsText(ps) + tail)
    ensures RefsChain(s, ps, ts)
    decreases |ps|
  {
    if ps == [] {
      NoTripleInBlanks(s, tail);
    } else {
      RefsStep(s.text, s.pos, ps, tail);
      FirstRefRead(s, ps[0], ts[0], RefsText(ps[1..]) + tail);
      NumeralRefsChain(Stream(s.text, AfterRef(s.pos, ps[0]), true), ps[1..], ts[1..], tail);
    }
  }

  /**
    Reading back a run of references: the loop
    `while (iss >> idx >> trash >> tidx >> trash >> nidx)` on references whose
    parts are decimal texts of `ts`, followed by blanks only, reads exactly `ts`.
   */
  lemma NumeralRefsRead(s: Stream, ps: seq<(string, string, string)>, ts: seq<(int, int, int)>, tail: string)
    requires s.Wf() && s.good && Blanks(tail) && NumeralRefs(ps, ts)
    requires Ahead(s.text, s.pos, RefsText(ps) + tail)
    ensures Triples(s) == ts
  {
    NumeralRefsChain(s, ps, ts, tail);
    ChainTriples(s, ps, ts);
  }

  /** Reading back printed references: the loop over the text of `ts`, followed by blanks only, reads exactly `ts`. */
  lemma TriplesRoundTrip(s: Stream, ts: seq<(int, int, int)>, tail: string)
    requires s.Wf() && s.good && Blanks(tail)
    requires Ahead(s.text, s.pos, TriplesText(ts) + tail)
    ensures Triples(s) == ts
  {
    PrintedRefsNumeral(ts);
    NumeralRefsRead(s, PrintedRefs(ts), ts, tail);
  }

  /** The numerals `xs` written one after another, each after a blank. */
  function NumeralsText(xs: seq<string>): (t: string)
    ensures xs != [] ==> |t| > 0 && t[0] == ' '
  {
    if xs == [] then "" else " " + xs[0] + NumeralsText(xs[1..])
  }

  /** Each text in `xs` is a decimal text of the matching integer in `ns`. */
  predicate Numerals(xs: seq<string>, ns: seq<int>) {
    |xs| == |ns| && (xs != [] ==> Numeral(xs[0], ns[0]) && Numerals(xs[1..], ns[1..]))
  }

  /** The printed integers `ns`. */
  function PrintedInts(ns: seq<int>): (xs: seq<string>)
    ensures |xs| == |ns|
  {
    if ns == [] then [] else [IntText(ns[0])] + PrintedInts(ns[1..])
  }

  /** The integers `ns` printed one after another, each after a blank, as a `v` line may have them. */
  function IntsText(ns: seq<int>): string {
    NumeralsText(PrintedInts(ns))
  }

  /** The integers `ns` as floats. */
  function AsReals(ns: seq<int>): (r: seq<real>)
    ensures |r| == |ns| && forall k | 0 <= k < |ns| :: r[k] == ns[k] as real
  {
    if ns == [] then [] else [ns[0] as real] + AsReals(ns[1..])
  }

  /** Printed integers are decimal texts of themselves. */
  lemma {:induction false} PrintedIntsNumerals(ns: seq<int>)
    ensures Numerals(PrintedInts(ns), ns)
    decreases |ns|
  {
    if ns != [] {
      IntTextNumeral(ns[0]);
      PrintedIntsNumerals(ns[1..]);
      assert PrintedInts(ns)[1..] == PrintedInts(ns[1..]);
    }
  }

  /** Where the float reads stand after the numeral `x` that starts with a blank at `p`. */
  function AfterNumeral(p: nat, x: string): nat {
    p + 1 + |x|
  }

  /** The float reads from `s`: one value of `ns` per numeral of `xs`, each ending where the next starts. */
  predicate RealsChain(s: Stream, xs: seq<string>, ns: seq<int>)
    requires s.Wf()
    decreases |xs|
  {
    |xs| == |ns| &&
    (xs != [] ==>
      AfterNumeral(s.pos, xs[0]) <= |s.text| &&
      ExtractReal(s) == Read(ns[0] as real, Stream(s.text, AfterNumeral(s.pos, xs[0]), true)) &&
      RealsChain(Stream(s.text, AfterNumeral(s.pos, xs[0]), true), xs[1..], ns[1..]))
  }

  /** One float read that stores `v` and leaves the stream good at `e`, then the reads after it. */
  lemma RealsStep(s: Stream, n: nat, v: real, e: nat, more: seq<real>)
    requires s.Wf() && e <= |s.text| && n > 0
    requires ExtractReal(s) == Read(v, Stream(s.text, e, true))
    requires Reals(Stream(s.text, e, true), n - 1) == more
    ensures Reals(s, n) == [v] + more
  {
  }

  /** The `for` loop of float reads collects what its reads store. */
  lemma {:induction false} ChainReals(s: Stream, xs: seq<string>, ns: seq<int>)
    requires s.Wf() && RealsChain(s, xs, ns)
    ensures Reals(s, |xs|) == AsReals(ns)
    decreases |xs|
  {
    if xs != [] {
      var next := Stream(s.text, AfterNumeral(s.pos, xs[0]), true);
      ChainReals(next, xs[1..], ns[1..]);
      RealsStep(s, |xs|, ns[0] as real, next.pos, AsReals(ns[1..]));
    }
  }

  /** The text after a blank and the first of the numerals `xs`. */
  lemma NumeralsStep(t: string, p: nat, xs: seq<string>, tail: string)
    requires (tail == [] || IsSpace(tail[0])) && xs != []
    requires Ahead(t, p, NumeralsText(xs) + tail)
    ensures Ahead(t, p, " " + xs[0] + (NumeralsText(xs[1..]) + tail))
    ensures var rest := NumeralsText(xs[1..]) + tail;
      rest == [] || !(IsDigit(rest[0]) || rest[0] == '.' || rest[0] == 'e' || rest[0] == 'E')
    ensures Ahead(t, AfterNumeral(p, xs[0]), NumeralsText(xs[1..]) + tail)
  {
    var more := NumeralsText(xs[1..]);
    AheadAssoc(t, p, " " + xs[0], more, tail);
    AheadSplit(t, p, " " + xs[0], more + tail);
    if more == [] {
      assert more + tail == tail;
    } else {
      assert (more + tail)[0] == ' ';
    }
  }

  /** One float read over the numeral `x`, after a blank. */
  lemma FirstNumeralRead(s: Stream, x: string, n: int, rest: string)
    requires s.Wf() && s.good && Numeral(x, n)
    requires Ahead(s.text, s.pos, " " + x + rest)
    requires rest == [] || !(IsDigit(rest[0]) || rest[0] == '.' || rest[0] == 'e' || rest[0] == 'E')
    ensures AfterNumeral(s.pos, x) <= |s.text|
    ensures ExtractReal(s) == Read(n as real, Stream(s.text, AfterNumeral(s.pos, x), true))
  {
    NumeralReadAsReal(s, " ", x, n, rest);
  }

  /** Numerals of `ns` after blanks give the float reads of `ns`. */
  lemma {:induction false} NumeralsChain(s: Stream, xs: seq<string>, ns: seq<int>, tail: string)
    requires s.Wf() && s.good && (tail == [] || IsSpace(tail[0])) && Numerals(xs, ns)
    requires Ahead(s.text, s.pos, NumeralsText(xs) + tail)
    ensures RealsChain(s, xs, ns)
    decreases |xs|
  {
    if xs != [] {
      NumeralsStep(s.text, s.pos, xs, tail);
      FirstNumeralRead(s, xs[0], ns[0], NumeralsText(xs[1..]) + tail);
      NumeralsChain(Stream(s.text, AfterNumeral(s.pos, xs[0]), true), xs[1..], ns[1..], tail);
    }
  }

  /**
    Reading back printed integers as floats: `n` reads of `iss >> x` over
    the printed `ns`, followed by nothing or by a blank, store exactly `ns`.
   */
  lemma IntsReadAsReals(s: Stream, ns: seq<int>, tail: string)
    requires s.Wf() && s.good && (tail == [] || IsSpace(tail[0]))
    requires Ahead(s.text, s.pos, IntsText(ns) + tail)
    ensures Reals(s, |ns|) == AsReals(ns)
  {
    PrintedIntsNumerals(ns);
    NumeralsChain(s, PrintedInts(ns), ns, tail);
    ChainReals(s, PrintedInts(ns), ns);
  }
}
