/** The parts of Go's runtime and standard library whose behaviour the
    metric store depends on, stated exactly where the store's contracts need
    them: int64 wrap-around, `time.Duration` scaling, base-10 integer text
    (`strconv.ParseInt`, `strconv.ParseUint`, `strconv.FormatInt`), Go's
    string ordering and `strings.Split`. Floating point is not computed on:
    a float64 is carried as its bit pattern, and parsing or formatting one is
    a parameter (`FloatCodec`). */
module GoLib {
  import opened Wrappers

  // ---------------------------------------------------------------- int64

  const TwoTo63: int := 0x8000_0000_0000_0000
  const TwoTo64: int := 0x1_0000_0000_0000_0000

  /** Go's int64. */
  type Int64 = x: int | -0x8000_0000_0000_0000 <= x < 0x8000_0000_0000_0000

  /** What Go's unchecked int64 arithmetic keeps of an exact result:
      the two's-complement wrap-around into [-2^63, 2^63). */
  function Wrap(x: int): (r: Int64)
    ensures (r - x) % TwoTo64 == 0
    ensures -TwoTo63 <= x < TwoTo63 ==> r == x
  {
    (x + TwoTo63) % TwoTo64 - TwoTo63
  }

  /** `a + b` on Go int64 values. */
  function AddWrap(a: Int64, b: Int64): Int64 {
    Wrap(a + b)
  }

  /** Wrapping once per step or once at the end gives the same int64. */
  lemma WrapAddWrap(x: int, y: int)
    ensures Wrap(Wrap(x) + y) == Wrap(x + y)
  {
    var k := (x + TwoTo63) / TwoTo64;
    assert Wrap(x) == x - k * TwoTo64;
    assert Wrap(x) + y + TwoTo63 == (x + y + TwoTo63) + (-k) * TwoTo64;
    ModShift(x + y + TwoTo63, -k);
  }

  /** Adding 1 always changes an int64, even at the wrap-around. */
  lemma WrapDifferent(x: Int64)
    ensures AddWrap(x, 1) != x
  {
    if x == TwoTo63 - 1 {
      assert AddWrap(x, 1) == -TwoTo63;
    }
  }

  lemma ModShift(a: int, k: int)
    ensures (a + k * TwoTo64) % TwoTo64 == a % TwoTo64
  {
    var q := a / TwoTo64;
    var r := a % TwoTo64;
    assert a + k * TwoTo64 == (q + k) * TwoTo64 + r;
  }

  /** `time.Second`, in nanoseconds. */
  const Second: int := 1_000_000_000

  /** `time.Duration(n) * time.Second`: nanoseconds, wrapped to int64. */
  function Seconds(n: Int64): Int64 {
    Wrap(n * Second)
  }

  /** A whole number of seconds is always an even number of nanoseconds,
      even after wrap-around, so it can never equal an odd duration. */
  lemma {:induction false} SecondsIsEven(n: Int64)
    ensures Seconds(n) % 2 == 0
  {
    var x := n * Second;
    assert x == (n * 500_000_000) * 2;
    var r := Seconds(n);
    var k := (x + TwoTo63) / TwoTo64;
    assert r == x - k * TwoTo64;
    assert r == (n * 500_000_000 - k * 0x8000_0000_0000_0000) * 2;
  }

  // --------------------------------------------------------- decimal text

  predicate IsDigit(c: char) {
    '0' <= c <= '9'
  }

  predicate AllDigits(s: string) {
    forall i :: 0 <= i < |s| ==> IsDigit(s[i])
  }

  function DigitValue(c: char): nat
    requires IsDigit(c)
  {
    c as int - '0' as int
  }

  function DigitChar(d: nat): (c: char)
    requires d < 10
    ensures IsDigit(c) && DigitValue(c) == d
  {
    ('0' as int + d) as char
  }

  /** The number a string of decimal digits denotes (leading zeros allowed). */
  function DigitsValue(s: string): nat
    requires AllDigits(s)
  {
    if |s| == 0 then 0 else DigitsValue(s[..|s| - 1]) * 10 + DigitValue(s[|s| - 1])
  }

  /** The shortest decimal spelling of a natural number. */
  function FormatNat(n: nat): (s: string)
    ensures |s| > 0 && AllDigits(s)
    ensures |s| > 1 ==> s[0] != '0'
  {
    if n < 10 then [DigitChar(n)] else FormatNat(n / 10) + [DigitChar(n % 10)]
  }

  /** `strconv.FormatInt(n, 10)`. */
  function FormatInt(n: int): string {
    if n < 0 then "-" + FormatNat(-n) else FormatNat(n)
  }

  /** `strconv.ParseUint(s, 10, 64)`: one or more ASCII digits (no sign, no
      underscores: those are accepted only with base 0) whose value fits in
      64 bits. */
  function ParseUint(s: string): Option<nat> {
    if |s| > 0 && AllDigits(s) && DigitsValue(s) < TwoTo64 then Some(DigitsValue(s)) else None
  }

  /** `strconv.ParseInt(s, 10, 64)`: an optional sign followed by what
      ParseUint accepts, with the magnitude in int64 range. */
  function ParseInt(s: string): Option<Int64> {
    if |s| == 0 then None
    else
      var neg := s[0] == '-';
      var body := if s[0] == '+' || s[0] == '-' then s[1..] else s;
      match ParseUint(body)
      case None => None
      case Some(un) =>
        if !neg && un >= TwoTo63 then None
        else if neg && un > TwoTo63 then None
        else
          var v: int := if neg then -(un as int) else un;
          Some(v)
  }

  lemma {:induction false} FormatNatValue(n: nat)
    ensures DigitsValue(FormatNat(n)) == n
  {
    if n >= 10 {
      var s := FormatNat(n);
      FormatNatValue(n / 10);
      assert s[..|s| - 1] == FormatNat(n / 10);
    }
  }

  lemma ParseUintFormatNat(m: nat)
    requires m < TwoTo64
    ensures ParseUint(FormatNat(m)) == Some(m)
  {
    FormatNatValue(m);
  }

  /** Everything FormatInt prints for an int64, ParseInt reads back. */
  lemma ParseFormatInt(n: Int64)
    ensures ParseInt(FormatInt(n)) == Some(n)
  {
    if n < 0 {
      var m: nat := -(n as int);
      var s := FormatInt(n);
      assert s == "-" + FormatNat(m);
      assert s[0] == '-' && s[1..] == FormatNat(m);
      ParseUintFormatNat(m);
    } else {
      var s := FormatNat(n);
      ParseUintFormatNat(n);
      assert s[0] != '-' && s[0] != '+' by {
        assert IsDigit(s[0]);
      }
    }
  }

  /** Decimal text as FormatInt prints it: no '+', no leading zero, no "-0". */
  predicate CanonicalDecimal(s: string) {
    || s == "0"
    || (|s| > 0 && '1' <= s[0] <= '9' && AllDigits(s))
    || (|s| > 1 && s[0] == '-' && '1' <= s[1] <= '9' && AllDigits(s[1..]))
  }

  lemma {:induction false} LeadingDigitPositive(s: string)
    requires |s| > 0 && AllDigits(s) && s[0] != '0'
    ensures DigitsValue(s) >= 1
  {
    if |s| > 1 {
      LeadingDigitPositive(s[..|s| - 1]);
    }
  }

  lemma {:induction false} FormatDigitsValue(s: string)
    requires |s| > 0 && AllDigits(s) && (|s| > 1 ==> s[0] != '0')
    ensures FormatNat(DigitsValue(s)) == s
  {
    if |s| > 1 {
      var init := s[..|s| - 1];
      LeadingDigitPositive(init);
      FormatDigitsValue(init);
      var n := DigitsValue(s);
      assert n / 10 == DigitsValue(init) && n % 10 == DigitValue(s[|s| - 1]);
      assert s == init + [s[|s| - 1]];
    }
  }

  /** Canonical decimal text survives ParseInt followed by FormatInt. */
  lemma FormatParseInt(s: string)
    requires CanonicalDecimal(s) && ParseInt(s).Some?
    ensures FormatInt(ParseInt(s).value) == s
  {
    if s[0] == '-' {
      var body := s[1..];
      LeadingDigitPositive(body);
      FormatDigitsValue(body);
      assert s == "-" + body;
    } else {
      FormatDigitsValue(s);
    }
  }

  // ---------------------------------------------------- strconv errors

  /** Why a `strconv` parse failed: `strconv.ErrSyntax` or `strconv.ErrRange`. */
  datatype NumFailure = SyntaxFailure | RangeFailure

  /** What one of strconv's base-10 integer parsers computes: a value, or
      the reason it gives up. */
  datatype NumOutcome = Parsed(n: int) | Failed(why: NumFailure)

  /** ParseUint's digit loop from the value `acc` read so far: a non-digit
      is a syntax error, and a value past 2^64 - 1 is a range error at the
      digit where it happens, before any non-digit later in the text is
      seen. */
  function UintScan(s: string, acc: nat): NumOutcome
    requires acc < TwoTo64
    decreases |s|
  {
    if |s| == 0 then Parsed(acc)
    else if !IsDigit(s[0]) then Failed(SyntaxFailure)
    else if acc * 10 + DigitValue(s[0]) >= TwoTo64 then Failed(RangeFailure)
    else UintScan(s[1..], acc * 10 + DigitValue(s[0]))
  }

  /** `strconv.ParseInt(s, 10, 64)` step by step as strconv does it: the
      empty text is a syntax error; one sign is taken off; the rest goes
      through ParseUint's loop (an empty rest is a syntax error); a magnitude
      beyond the int64 bounds is a range error. */
  function ParseIntScan(s: string): NumOutcome {
    if |s| == 0 then Failed(SyntaxFailure)
    else
      var neg := s[0] == '-';
      var body := if s[0] == '+' || s[0] == '-' then s[1..] else s;
      if |body| == 0 then Failed(SyntaxFailure)
      else match UintScan(body, 0)
        case Failed(why) => Failed(why)
        case Parsed(un) =>
          if (!neg && un >= TwoTo63) || (neg && un > TwoTo63) then Failed(RangeFailure)
          else Parsed(if neg then -un else un)
  }

  /** Reading more digits never makes the number smaller. */
  lemma {:induction false} DigitsValueGrows(a: string, b: string)
    requires AllDigits(a + b)
    ensures AllDigits(a) && DigitsValue(a) <= DigitsValue(a + b)
  {
    assert forall i | 0 <= i < |a| :: (a + b)[i] == a[i];
    if |b| > 0 {
      var b' := b[..|b| - 1];
      assert (a + b)[..|a + b| - 1] == a + b';
      assert forall i | 0 <= i < |a + b'| :: (a + b')[i] == (a + b)[i];
      assert DigitsValue(a + b) == DigitsValue(a + b') * 10 + DigitValue((a + b)[|a + b| - 1]);
      DigitsValueGrows(a, b');
      assert DigitsValue(a + b') <= DigitsValue(a + b') * 10;
    } else {
      assert a + b == a;
    }
  }

  /** The loop from the value of the digits `p` already read accepts `s`
      exactly when `s` is all digits and `p + s` fits in 64 bits, and then
      yields the value of `p + s`. */
  lemma {:induction false} UintScanValue(p: string, s: string)
    requires AllDigits(p) && DigitsValue(p) < TwoTo64
    ensures UintScan(s, DigitsValue(p)).Parsed? <==> AllDigits(p + s) && DigitsValue(p + s) < TwoTo64
    ensures UintScan(s, DigitsValue(p)).Parsed? ==> UintScan(s, DigitsValue(p)).n == DigitsValue(p + s)
    ensures AllDigits(s) ==> UintScan(s, DigitsValue(p)) != Failed(SyntaxFailure)
    decreases |s|
  {
    if |s| == 0 {
      assert p + s == p;
    } else if !IsDigit(s[0]) {
      assert (p + s)[|p|] == s[0];
    } else {
      var p' := p + [s[0]];
      assert p'[..|p'| - 1] == p;
      assert DigitsValue(p') == DigitsValue(p) * 10 + DigitValue(s[0]);
      assert p + s == p' + s[1..];
      assert AllDigits(s) ==> AllDigits(s[1..]) by {
        assert forall i | 0 <= i < |s[1..]| :: s[1..][i] == s[i + 1];
      }
      if DigitsValue(p') >= TwoTo64 {
        if AllDigits(p + s) {
          DigitsValueGrows(p', s[1..]);
        }
      } else {
        UintScanValue(p', s[1..]);
      }
    }
  }

  /** The step-by-step parse agrees with `ParseInt`: it succeeds exactly
      when ParseInt does, with the same value. */
  lemma ParseIntScanAgrees(s: string)
    ensures ParseIntScan(s).Parsed? <==> ParseInt(s).Some?
    ensures ParseInt(s).Some? ==> ParseIntScan(s).n == ParseInt(s).value
  {
    if |s| > 0 {
      var body := if s[0] == '+' || s[0] == '-' then s[1..] else s;
      assert "" + body == body;
      UintScanValue("", body);
    }
  }

  /** Well-formed decimal text that ParseInt still rejects is out of range,
      not malformed. */
  lemma ParseIntRangeFailure(s: string)
    requires |s| > 0 && ParseInt(s).None?
    requires var body := if s[0] == '+' || s[0] == '-' then s[1..] else s;
      |body| > 0 && AllDigits(body)
    ensures ParseIntScan(s) == Failed(RangeFailure)
  {
    var body := if s[0] == '+' || s[0] == '-' then s[1..] else s;
    assert "" + body == body;
    assert DigitsValue("") == 0;
    UintScanValue("", body);
    assert UintScan(body, 0) != Failed(SyntaxFailure);
    ParseIntScanAgrees(s);
    assert !ParseIntScan(s).Parsed?;
    match UintScan(body, 0)
    case Failed(why) =>
      assert why == RangeFailure;
    case Parsed(un) =>
      assert ParseIntScan(s) == Failed(RangeFailure);
  }

  /** Text whose digits after the optional sign run, still within 64 bits,
      into a non-digit (or that has no digits at all) is malformed. */
  lemma ParseIntSyntaxFailure(s: string, i: nat)
    requires var body := if |s| > 0 && (s[0] == '+' || s[0] == '-') then s[1..] else s;
      |body| == 0 || (i < |body| && !IsDigit(body[i]) && AllDigits(body[..i]) && DigitsValue(body[..i]) < TwoTo64)
    ensures ParseIntScan(s) == Failed(SyntaxFailure)
  {
    if |s| > 0 {
      var body := if s[0] == '+' || s[0] == '-' then s[1..] else s;
      if |body| > 0 {
        assert "" + body[..i] == body[..i];
        UintScanSyntax("", body, i);
      }
    }
  }

  /** The loop stops with a syntax error at a non-digit reached before the
      value passes 2^64 - 1. */
  lemma {:induction false} UintScanSyntax(p: string, s: string, i: nat)
    requires AllDigits(p) && DigitsValue(p) < TwoTo64
    requires i < |s| && !IsDigit(s[i]) && AllDigits(p + s[..i]) && DigitsValue(p + s[..i]) < TwoTo64
    ensures UintScan(s, DigitsValue(p)) == Failed(SyntaxFailure)
    decreases i
  {
    if i > 0 {
      assert s[0] == (p + s[..i])[|p|];
      var p' := p + [s[0]];
      assert p'[..|p'| - 1] == p;
      assert DigitsValue(p') == DigitsValue(p) * 10 + DigitValue(s[0]);
      var t := s[1..][..i - 1];
      assert s[..i] == [s[0]] + t;
      assert p + ([s[0]] + t) == p' + t;
      DigitsValueGrows(p', t);
      UintScanSyntax(p', s[1..], i - 1);
    }
  }

  function HexDigit(d: nat): char
    requires d < 16
  {
    "0123456789abcdef"[d]
  }

  /** One character as `strconv.Quote` writes it: the quote and the
      backslash are escaped, printable ASCII stays, the seven C control
      characters take their short escapes and the other ASCII control
      characters `\x` and two lower-case hex digits. Characters beyond
      ASCII are kept as they are. */
  function QuoteChar(c: char): string {
    var n := c as int;
    if c == '"' || c == '\\' then ['\\', c]
    else if 0x20 <= n < 0x7f then [c]
    else if n == 7 then "\\a"
    else if n == 8 then "\\b"
    else if n == 12 then "\\f"
    else if n == 10 then "\\n"
    else if n == 13 then "\\r"
    else if n == 9 then "\\t"
    else if n == 11 then "\\v"
    else if n < 0x80 then "\\x" + [HexDigit(n / 16), HexDigit(n % 16)]
    else [c]
  }

  function QuoteBody(s: string): string {
    if |s| == 0 then "" else QuoteChar(s[0]) + QuoteBody(s[1..])
  }

  /** `strconv.Quote(s)`: the text between double quotes, escaped. */
  function Quote(s: string): string {
    "\"" + QuoteBody(s) + "\""
  }

  /** Printable ASCII without a quote or a backslash is quoted verbatim. */
  lemma {:induction false} QuotePlain(s: string)
    requires forall i :: 0 <= i < |s| ==> ' ' <= s[i] <= '~' && s[i] != '"' && s[i] != '\\'
    ensures Quote(s) == "\"" + s + "\""
  {
    QuotePlainBody(s);
  }

  lemma {:induction false} QuotePlainBody(s: string)
    requires forall i :: 0 <= i < |s| ==> ' ' <= s[i] <= '~' && s[i] != '"' && s[i] != '\\'
    ensures QuoteBody(s) == s
  {
    if |s| > 0 {
      assert forall i :: 0 <= i < |s[1..]| ==> s[1..][i] == s[i + 1];
      QuotePlainBody(s[1..]);
      assert s == [s[0]] + s[1..];
    }
  }

  /** The text of a `*strconv.NumError`: for example
      `strconv.ParseInt: parsing "x": invalid syntax`. */
  function NumErrorText(fn: string, s: string, why: NumFailure): string {
    "strconv." + fn + ": parsing " + Quote(s) + ": "
      + (match why case SyntaxFailure => "invalid syntax" case RangeFailure => "value out of range")
  }

  /** The error text of a failed `strconv.ParseInt(s, 10, 64)`. */
  function ParseIntError(s: string): (e: string)
    requires ParseInt(s).None?
    ensures ParseIntScan(s).Failed? && e == NumErrorText("ParseInt", s, ParseIntScan(s).why)
  {
    ParseIntScanAgrees(s);
    NumErrorText("ParseInt", s, ParseIntScan(s).why)
  }

  // -------------------------------------------------------------- float64

  /** A 64-bit pattern, as an unsigned number. */
  type Bits64 = x: int | 0 <= x < 0x1_0000_0000_0000_0000

  /** A Go float64, carried as its IEEE-754 bit pattern and never computed on. */
  datatype Float64 = Float64(bits: Bits64)

  /** A Go `byte`. */
  type Byte = bv8

  /** `0.0`, the value `new(float64)` points to. */
  const PositiveZero: Float64 := Float64(0)

  /** `f == 0` in Go: true of +0 and -0 only (NaN compares unequal). */
  predicate IsZero(f: Float64) {
    f.bits == 0 || f.bits == 0x8000_0000_0000_0000
  }

  /** The float conversions the code calls, which the model does not implement:
      `parse` is `strconv.ParseFloat(s, 64)` (None on error),
      `outOfRange` says of text `parse` rejects whether ParseFloat's error
      is `strconv.ErrRange` (text too large in magnitude) rather than
      `strconv.ErrSyntax`,
      `formatShortest` is `strconv.FormatFloat(f, 'f', -1, 64)`,
      `formatFixed10` is `strconv.FormatFloat(f, 'f', 10, 64)`. */
  datatype FloatCodec = FloatCodec(
    parse: string -> Option<Float64>,
    outOfRange: string -> bool,
    formatShortest: Float64 -> string,
    formatFixed10: Float64 -> string)

  /** The error text of a failed `strconv.ParseFloat(s, 64)`. */
  function ParseFloatError(codec: FloatCodec, s: string): string {
    NumErrorText("ParseFloat", s, if codec.outOfRange(s) then RangeFailure else SyntaxFailure)
  }

  // -------------------------------------------------------------- strings

  /** Go's `a < b` on strings: bytewise on the UTF-8 encodings, which orders
      strings exactly as comparing their code points lexicographically. */
  predicate StrLess(a: string, b: string) {
    if |a| == 0 then |b| > 0
    else if |b| == 0 then false
    else if a[0] != b[0] then a[0] < b[0]
    else StrLess(a[1..], b[1..])
  }

  lemma {:induction false} StrLessIrreflexive(a: string)
    ensures !StrLess(a, a)
  {
    if |a| > 0 {
      StrLessIrreflexive(a[1..]);
    }
  }

  lemma {:induction false} StrLessAsymmetric(a: string, b: string)
    requires StrLess(a, b)
    ensures !StrLess(b, a)
  {
    if |a| > 0 && |b| > 0 && a[0] == b[0] {
      StrLessAsymmetric(a[1..], b[1..]);
    }
  }

  lemma {:induction false} StrLessTransitive(a: string, b: string, c: string)
    requires StrLess(a, b) && StrLess(b, c)
    ensures StrLess(a, c)
  {
    if |a| > 0 && a[0] == b[0] && b[0] == c[0] {
      StrLessTransitive(a[1..], b[1..], c[1..]);
    }
  }

  lemma {:induction false} StrLessTotal(a: string, b: string)
    requires a != b
    ensures StrLess(a, b) || StrLess(b, a)
  {
    if |a| > 0 && |b| > 0 && a[0] == b[0] {
      assert a == [a[0]] + a[1..] && b == [b[0]] + b[1..];
      StrLessTotal(a[1..], b[1..]);
    }
  }

  /** `strings.Split(s, sep)` for a one-character separator (also used for
      splitting bytes on one byte value): the pieces
      between separators, in order; an empty string gives one empty piece. */
  function Split<T(==)>(s: seq<T>, sep: T): (pieces: seq<seq<T>>)
    ensures |pieces| >= 1
  {
    if |s| == 0 then [[]]
    else
      var rest := Split(s[1..], sep);
      if s[0] == sep then [[]] + rest else [[s[0]] + rest[0]] + rest[1..]
  }

  /** `strings.Join(pieces, sep)`. */
  function Join<T>(pieces: seq<seq<T>>, sep: T): seq<T>
    requires |pieces| >= 1
  {
    if |pieces| == 1 then pieces[0] else pieces[0] + [sep] + Join(pieces[1..], sep)
  }

  /** Split loses nothing: joining the pieces gives the string back, and no
      piece contains the separator. */
  lemma {:induction false} SplitJoin<T>(s: seq<T>, sep: T)
    ensures Join(Split(s, sep), sep) == s
    ensures forall i :: 0 <= i < |Split(s, sep)| ==> sep !in Split(s, sep)[i]
  {
    if |s| > 0 {
      var rest := Split(s[1..], sep);
      SplitJoin(s[1..], sep);
      if s[0] == sep {
        assert ([[]] + rest)[1..] == rest;
      } else {
        var pieces := [[s[0]] + rest[0]] + rest[1..];
        if |rest| == 1 {
          assert pieces == [[s[0]] + rest[0]];
        } else {
          assert pieces[1..] == rest[1..];
          assert Join(rest, sep) == rest[0] + [sep] + Join(rest[1..], sep);
        }
        assert s == [s[0]] + s[1..];
        forall i | 0 <= i < |pieces| ensures sep !in pieces[i] {
          if i == 0 {
            assert sep !in rest[0];
          } else {
            assert pieces[i] == rest[i];
          }
        }
      }
    }
  }

  /** The first piece of a split is the text before the first separator. */
  lemma {:induction false} SplitFirst<T>(s: seq<T>, sep: T, k: nat)
    requires k <= |s| && sep !in s[..k] && (k == |s| || s[k] == sep)
    ensures Split(s, sep)[0] == s[..k]
  {
    if k > 0 {
      SplitFirst(s[1..], sep, k - 1);
      assert s[..k] == [s[0]] + s[1..][..k - 1];
    }
  }

  /** Split of a string by its first element. */
  lemma SplitCons<T>(x: T, s: seq<T>, sep: T)
    ensures Split([x] + s, sep) ==
      if x == sep then [[]] + Split(s, sep) else [[x] + Split(s, sep)[0]] + Split(s, sep)[1..]
  {
    assert ([x] + s)[1..] == s;
  }

  lemma JoinFirstPiece<T>(x: T, r: seq<seq<T>>, t: seq<seq<T>>)
    requires |r| >= 1
    ensures [[x] + (r + t)[0]] + (r + t)[1..] == ([[x] + r[0]] + r[1..]) + t
  {
    assert (r + t)[0] == r[0];
    assert (r + t)[1..] == r[1..] + t;
  }

  /** `strings.Split` distributes over a separator. */
  lemma {:induction false} SplitAppend<T>(a: seq<T>, sep: T, b: seq<T>)
    ensures Split(a + [sep] + b, sep) == Split(a, sep) + Split(b, sep)
  {
    if |a| > 0 {
      var x, a' := a[0], a[1..];
      assert a + [sep] + b == [x] + (a' + [sep] + b);
      assert a == [x] + a';
      SplitAppend(a', sep, b);
      SplitCons(x, a' + [sep] + b, sep);
      SplitCons(x, a', sep);
      if x != sep {
        JoinFirstPiece(x, Split(a', sep), Split(b, sep));
      }
    } else {
      assert a + [sep] + b == [sep] + b;
      SplitCons(sep, b, sep);
    }
  }

  /** A text without the separator is a single piece. */
  lemma {:induction false} SplitNoSeparator<T>(a: seq<T>, sep: T)
    requires sep !in a
    ensures Split(a, sep) == [a]
  {
    if |a| > 0 {
      SplitNoSeparator(a[1..], sep);
      assert a == [a[0]] + a[1..];
    }
  }

  // ---------------------------------------------------------------- bufio

  const NewLine: Byte := 10
  const CarriageReturn: Byte := 13

  /** The data of a file written line by line: each line followed by '\n'. */
  function Terminated(lines: seq<seq<Byte>>): seq<Byte> {
    if lines == [] then []
    else Terminated(lines[..|lines| - 1]) + lines[|lines| - 1] + [NewLine]
  }

  function DropCR(line: seq<Byte>): seq<Byte> {
    if |line| > 0 && line[|line| - 1] == CarriageReturn then line[..|line| - 1] else line
  }

  /** `bufio.MaxScanTokenSize`: the scanner's buffer never grows past
      64 KiB, so a line and its newline must fit in that many bytes. */
  const MaxScanTokenSize: int := 64 * 1024

  /** The pieces before the first one too long for the scanner's buffer:
      on that one `Scan` fails with `bufio.ErrTooLong`, and the loop ends. */
  function UntilTooLong(pieces: seq<seq<Byte>>): (r: seq<seq<Byte>>)
    ensures |r| <= |pieces| && r == pieces[..|r|]
    ensures forall i :: 0 <= i < |r| ==> |r[i]| < MaxScanTokenSize
    ensures |r| < |pieces| ==> |pieces[|r|]| >= MaxScanTokenSize
  {
    if pieces == [] || |pieces[0]| >= MaxScanTokenSize then []
    else [pieces[0]] + UntilTooLong(pieces[1..])
  }

  /** The tokens a `for scanner.Scan()` loop over a `bufio.Scanner` with
      `ScanLines` sees: the text between newlines, without a trailing
      carriage return, and no empty token after a final newline, up to the
      first line of 64 KiB or more (newline excluded), where `Scan` returns
      false and the rest of the data is never read. */
  function ScanLines(data: seq<Byte>): seq<seq<Byte>> {
    var pieces := Split(data, NewLine);
    var kept := if pieces[|pieces| - 1] == [] then pieces[..|pieces| - 1] else pieces;
    var fitting := UntilTooLong(kept);
    seq(|fitting|, i requires 0 <= i < |fitting| => DropCR(fitting[i]))
  }

  /** A line without newline and carriage return, short enough for the
      scanner's buffer, survives the scanner. */
  predicate PlainLine(line: seq<Byte>) {
    && NewLine !in line
    && (|line| > 0 ==> line[|line| - 1] != CarriageReturn)
    && |line| < MaxScanTokenSize
  }

  /** Pieces that all fit are kept, up to the first that does not. */
  lemma {:induction false} UntilTooLongPrefix(pieces: seq<seq<Byte>>, k: nat)
    requires k <= |pieces| && forall i :: 0 <= i < k ==> |pieces[i]| < MaxScanTokenSize
    requires k < |pieces| ==> |pieces[k]| >= MaxScanTokenSize
    ensures UntilTooLong(pieces) == pieces[..k]
  {
    if k > 0 {
      UntilTooLongPrefix(pieces[1..], k - 1);
      assert pieces[..k] == [pieces[0]] + pieces[1..][..k - 1];
    }
  }

  /** Splitting what was written line by line gives the lines, then the
      pieces of what follows. */
  lemma {:induction false} SplitTerminated(lines: seq<seq<Byte>>, rest: seq<Byte>)
    requires forall i :: 0 <= i < |lines| ==> NewLine !in lines[i]
    ensures Split(Terminated(lines) + rest, NewLine) == lines + Split(rest, NewLine)
    decreases |lines|
  {
    if lines != [] {
      var n := |lines| - 1;
      var front, p := lines[..n], lines[n];
      assert forall i :: 0 <= i < |front| ==> front[i] == lines[i];
      var q := p + [NewLine] + rest;
      var r := Split(rest, NewLine);
      TerminatedRest(lines, rest);
      SplitTerminated(front, q);
      SplitLine(p, rest);
      LastSplit(lines, r);
    } else {
      assert Terminated(lines) + rest == rest;
    }
  }

  /** What follows the written lines, after the last line. */
  lemma TerminatedRest(lines: seq<seq<Byte>>, rest: seq<Byte>)
    requires lines != []
    ensures Terminated(lines) + rest ==
      Terminated(lines[..|lines| - 1]) + (lines[|lines| - 1] + [NewLine] + rest)
  {
    var t, p := Terminated(lines[..|lines| - 1]), lines[|lines| - 1];
    assert Terminated(lines) == t + p + [NewLine];
    Regroup(t, p, [NewLine], rest);
  }

  /** A line without newline, a newline, then more text. */
  lemma SplitLine(p: seq<Byte>, rest: seq<Byte>)
    requires NewLine !in p
    ensures Split(p + [NewLine] + rest, NewLine) == [p] + Split(rest, NewLine)
  {
    SplitAppend(p, NewLine, rest);
    SplitNoSeparator(p, NewLine);
  }

  lemma LastSplit<T>(lines: seq<T>, r: seq<T>)
    requires lines != []
    ensures lines + r == lines[..|lines| - 1] + ([lines[|lines| - 1]] + r)
  {
    assert lines == lines[..|lines| - 1] + [lines[|lines| - 1]];
  }

  lemma Regroup<T>(a: seq<T>, b: seq<T>, c: seq<T>, d: seq<T>)
    ensures a + b + c + d == a + (b + c + d)
  {
  }

  lemma ScanPieces(data: seq<Byte>, lines: seq<seq<Byte>>)
    requires Split(data, NewLine) == lines + [[]]
    requires forall i :: 0 <= i < |lines| ==> PlainLine(lines[i])
    ensures ScanLines(data) == lines
  {
    var pieces := lines + [[]];
    assert pieces[|pieces| - 1] == [];
    assert pieces[..|pieces| - 1] == lines;
    UntilTooLongPrefix(lines, |lines|);
    var scanned := ScanLines(data);
    assert |scanned| == |lines|;
    forall i | 0 <= i < |lines| ensures scanned[i] == lines[i] {
      assert scanned[i] == DropCR(lines[i]);
    }
  }

  /** Reading back what was written line by line gives the lines. */
  lemma ScanTerminated(lines: seq<seq<Byte>>)
    requires forall i :: 0 <= i < |lines| ==> PlainLine(lines[i])
    ensures ScanLines(Terminated(lines)) == lines
  {
    var data := Terminated(lines);
    SplitTerminated(lines, []);
    assert data + [] == data;
    ScanPieces(data, lines);
  }

  /** A line of 64 KiB or more ends the reading silently: whatever follows
      it is lost, and only the lines before it are read. */
  lemma ScanStopsAtLongLine(lines: seq<seq<Byte>>, long: seq<Byte>, rest: seq<Byte>)
    requires forall i :: 0 <= i < |lines| ==> PlainLine(lines[i])
    requires NewLine !in long && |long| >= MaxScanTokenSize
    ensures ScanLines(Terminated(lines) + (long + [NewLine] + rest)) == lines
  {
    assert forall i :: 0 <= i < |lines| ==> NewLine !in lines[i];
    SplitTerminated(lines, long + [NewLine] + rest);
    SplitLine(long, rest);
    ScanPiecesLong(Terminated(lines) + (long + [NewLine] + rest), lines, long, Split(rest, NewLine));
  }

  lemma ScanPiecesLong(data: seq<Byte>, lines: seq<seq<Byte>>, long: seq<Byte>, tail: seq<seq<Byte>>)
    requires Split(data, NewLine) == lines + ([long] + tail)
    requires forall i :: 0 <= i < |lines| ==> PlainLine(lines[i])
    requires |long| >= MaxScanTokenSize
    ensures ScanLines(data) == lines
  {
    var pieces := lines + ([long] + tail);
    var kept := if pieces[|pieces| - 1] == [] then pieces[..|pieces| - 1] else pieces;
    assert |kept| > |lines|;
    assert forall i :: 0 <= i < |lines| ==> kept[i] == lines[i];
    assert kept[|lines|] == long;
    UntilTooLongPrefix(kept, |lines|);
    assert kept[..|lines|] == lines;
    var scanned := ScanLines(data);
    assert |scanned| == |lines|;
    forall i | 0 <= i < |lines| ensures scanned[i] == lines[i] {
      assert scanned[i] == DropCR(kept[i]);
    }
  }

  // ----------------------------------------------------------- schedulers

  /** What a `select` over a ticker channel and `ctx.Done()` receives. */
  datatype Event = Tick | Cancel

  /** How many events a ticker loop handles: every event up to and
      including the first Cancel, after which it returns. */
  function Handled(events: seq<Event>): nat {
    if events == [] then 0
    else if events[0] == Cancel then 1
    else 1 + Handled(events[1..])
  }

  /** The loop handles exactly the events before the first Cancel and that
      Cancel; without a Cancel it handles them all. */
  lemma {:induction false} HandledFirstCancel(events: seq<Event>, i: nat)
    requires i <= |events| && Cancel !in events[..i]
    ensures i < |events| && events[i] == Cancel ==> Handled(events) == i + 1
    ensures i == |events| ==> Handled(events) == |events|
  {
    if i > 0 {
      assert events[..i][0] == events[0];
      assert events[1..][..i - 1] == events[..i][1..];
      HandledFirstCancel(events[1..], i - 1);
    }
  }

  /** How many ticks a loop acts on when it returns on the first Cancel
      without acting. */
  function TicksBeforeCancel(events: seq<Event>): (n: nat)
    ensures n <= |events|
  {
    if events == [] || events[0] == Cancel then 0
    else 1 + TicksBeforeCancel(events[1..])
  }

  /** Such a loop acts on every event before the first Cancel. */
  lemma {:induction false} TicksFirstCancel(events: seq<Event>, i: nat)
    requires i <= |events| && Cancel !in events[..i]
    ensures i < |events| && events[i] == Cancel ==> TicksBeforeCancel(events) == i
    ensures i < |events| && events[i] == Tick ==> TicksBeforeCancel(events) > i
    ensures i == |events| ==> TicksBeforeCancel(events) == |events|
  {
    if i > 0 {
      assert events[..i][0] == events[0];
      assert events[1..][..i - 1] == events[..i][1..];
      TicksFirstCancel(events[1..], i - 1);
    }
  }
}
