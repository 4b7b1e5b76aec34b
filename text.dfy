/**
 * Character-level helpers that model the parts of Python's `str` and
 * number parsing the scorer relies on: `int(s)` and `float(s)` for a
 * string `s`, `str.split(sep)`, and the zero padding of `date.isoformat()`.
 */
module Text {
  import opened Wrappers

  predicate IsDigit(c: char) {
    '0' <= c <= '9'
  }

  predicate AllDigits(s: string) {
    forall i :: 0 <= i < |s| ==> IsDigit(s[i])
  }

  function DigitValue(c: char): (v: nat)
    requires IsDigit(c)
    ensures v < 10
  {
    c as int - '0' as int
  }

  function DigitChar(d: nat): (c: char)
    requires d < 10
    ensures IsDigit(c) && DigitValue(c) == d
  {
    ('0' as int + d) as char
  }

  /** The number a string of decimal digits denotes (most significant first). */
  function DigitsValue(s: string): nat
    requires AllDigits(s)
  {
    if s == [] then 0 else DigitsValue(s[..|s| - 1]) * 10 + DigitValue(s[|s| - 1])
  }

  /** Decimal notation of a natural number, without leading zeros. */
  function NatToDigits(n: nat): (s: string)
    ensures |s| > 0 && AllDigits(s)
    ensures n > 0 ==> s[0] != '0'
  {
    if n < 10 then [DigitChar(n)] else NatToDigits(n / 10) + [DigitChar(n % 10)]
  }

  lemma {:induction false} DigitsRoundTrip(n: nat)
    ensures DigitsValue(NatToDigits(n)) == n
  {
    if n >= 10 {
      var s := NatToDigits(n);
      assert s[..|s| - 1] == NatToDigits(n / 10);
      DigitsRoundTrip(n / 10);
    }
  }

  function Zeros(k: nat): (s: string)
    ensures |s| == k && AllDigits(s)
    ensures forall i :: 0 <= i < k ==> s[i] == '0'
  {
    if k == 0 then [] else Zeros(k - 1) + ['0']
  }

  /** Leading zeros do not change the value of a digit string. */
  lemma {:induction false} LeadingZeros(k: nat, s: string)
    requires AllDigits(s)
    ensures AllDigits(Zeros(k) + s)
    ensures DigitsValue(Zeros(k) + s) == DigitsValue(s)
  {
    if s == [] {
      assert Zeros(k) + s == Zeros(k);
      ZerosValue(k);
    } else {
      var t := Zeros(k) + s;
      assert t[..|t| - 1] == Zeros(k) + s[..|s| - 1];
      LeadingZeros(k, s[..|s| - 1]);
    }
  }

  lemma {:induction false} ZerosValue(k: nat)
    ensures DigitsValue(Zeros(k)) == 0
  {
    if k > 0 {
      assert Zeros(k)[..k - 1] == Zeros(k - 1);
      ZerosValue(k - 1);
    }
  }

  /** `"%0<width>d" % n`: the digits of `n`, left-padded with zeros to `width`. */
  function ZeroPad(n: nat, width: nat): (s: string)
    ensures AllDigits(s) && |s| > 0
    ensures |s| == if |NatToDigits(n)| < width then width else |NatToDigits(n)|
    ensures DigitsValue(s) == n
  {
    var digits := NatToDigits(n);
    DigitsRoundTrip(n);
    if |digits| < width then
      LeadingZeros(width - |digits|, digits);
      Zeros(width - |digits|) + digits
    else
      digits
  }

  /**
   * `int(s)` for a string: an optional sign followed by one or more ASCII
   * digits; anything else raises, which is `None` here.
   */
  function ParseInt(s: string): (r: Option<int>)
    ensures r.Some? <==>
      || (|s| > 0 && AllDigits(s))
      || (|s| > 1 && (s[0] == '+' || s[0] == '-') && AllDigits(s[1..]))
    ensures |s| > 0 && AllDigits(s) ==> r == Some(DigitsValue(s) as int)
    ensures |s| > 1 && (s[0] == '+' || s[0] == '-') && AllDigits(s[1..]) ==>
      r == Some(if s[0] == '-' then -(DigitsValue(s[1..]) as int) else DigitsValue(s[1..]) as int)
    ensures r.Some? && r.value < 0 ==> s[0] == '-'
  {
    if |s| > 0 && (s[0] == '+' || s[0] == '-') then
      var body := s[1..];
      if |body| > 0 && AllDigits(body) then
        Some(if s[0] == '-' then -(DigitsValue(body) as int) else DigitsValue(body) as int)
      else
        None
    else if |s| > 0 && AllDigits(s) then
      Some(DigitsValue(s))
    else
      None
  }

  /** `str(n)` for an integer. */
  function ShowInt(n: int): (s: string)
    ensures |s| > 0
  {
    if n < 0 then "-" + NatToDigits(-n) else NatToDigits(n)
  }

  lemma ParseShowInt(n: int)
    ensures ParseInt(ShowInt(n)) == Some(n)
  {
    if n < 0 {
      ParseNegativeDigits(NatToDigits(-n));
      DigitsRoundTrip(-n);
    } else {
      ParseIntOfDigits(NatToDigits(n));
      DigitsRoundTrip(n);
    }
  }

  lemma ParseIntOfDigits(s: string)
    requires |s| > 0 && AllDigits(s)
    ensures ParseInt(s) == Some(DigitsValue(s) as int)
  {
    assert IsDigit(s[0]);
  }

  lemma ParseNegativeDigits(s: string)
    requires |s| > 0 && AllDigits(s)
    ensures ParseInt("-" + s) == Some(-(DigitsValue(s) as int))
  {
    assert ("-" + s)[1..] == s;
  }

  function Pow10(k: nat): (p: nat)
    ensures p >= 1
  {
    if k == 0 then 1 else 10 * Pow10(k - 1)
  }

  /** A number below `10^k` has at most `k` digits. */
  lemma {:induction false} DigitsFitWidth(n: nat, k: nat)
    requires 1 <= k && n < Pow10(k)
    ensures |NatToDigits(n)| <= k
  {
    if n >= 10 {
      assert Pow10(k) == 10 * Pow10(k - 1);
      assert n / 10 < Pow10(k - 1);
      DigitsFitWidth(n / 10, k - 1);
    }
  }

  function IndexOf(s: string, c: char): (r: Option<nat>)
    ensures r.Some? ==> r.value < |s| && s[r.value] == c && c !in s[..r.value]
    ensures r.None? ==> c !in s
  {
    if s == [] then None
    else if s[0] == c then Some(0)
    else match IndexOf(s[1..], c)
      case None => None
      case Some(i) => Some(i + 1)
  }

  /** The value of the digits after a decimal point: `0.d1d2…` */
  function FractionValue(fraction: string): real
    requires AllDigits(fraction)
  {
    DigitsValue(fraction) as real / Pow10(|fraction|) as real
  }

  /** Unsigned plain decimal text: digits and at most one point, with at least one digit. */
  predicate PlainDecimal(b: string) {
    && (forall i :: 0 <= i < |b| ==> IsDigit(b[i]) || b[i] == '.')
    && (forall i, j :: 0 <= i < j < |b| && b[i] == '.' ==> b[j] != '.')
    && (exists i :: 0 <= i < |b| && IsDigit(b[i]))
  }

  /** Plain decimal text with an optional leading sign. */
  predicate DecimalLiteral(s: string) {
    PlainDecimal(s) || (|s| > 0 && (s[0] == '+' || s[0] == '-') && PlainDecimal(s[1..]))
  }

  /** The digits before and after the point of an unsigned decimal literal. */
  function UnsignedDecimal(b: string): (r: Option<real>)
    ensures r.Some? <==> PlainDecimal(b)
    ensures r.Some? ==> r.value >= 0.0
  {
    UnsignedDecimalAccepts(b);
    match IndexOf(b, '.')
    case None =>
      if |b| > 0 && AllDigits(b) then Some(DigitsValue(b) as real) else None
    case Some(k) =>
      var whole, fraction := b[..k], b[k + 1..];
      if AllDigits(whole) && AllDigits(fraction) && |whole| + |fraction| > 0 then
        Some(DigitsValue(whole) as real + FractionValue(fraction))
      else
        None
  }

  /**
   * `float(s)` for a string written in plain decimal notation: an optional
   * sign, then digits with at most one point and at least one digit
   * (`"2"`, `"2.5"`, `"2."`, `".5"`). Anything else raises, which is `None`.
   */
  function ParseDecimal(s: string): (r: Option<real>)
    ensures r.Some? <==> DecimalLiteral(s)
    ensures ParseInt(s).Some? ==> r == Some(ParseInt(s).value as real)
    ensures r.Some? && r.value < 0.0 ==> |s| > 0 && s[0] == '-'
  {
    NoPointInDigits(s);
    NoPointInDigits(if |s| > 0 then s[1..] else s);
    if |s| > 0 && (s[0] == '+' || s[0] == '-') then
      match UnsignedDecimal(s[1..])
      case None => None
      case Some(x) => Some(if s[0] == '-' then -x else x)
    else
      UnsignedDecimal(s)
  }

  /** `float()` of digits around one point: the whole part plus the scaled fraction. */
  lemma {:induction false} ParseDecimalPoint(w: string, f: string)
    requires AllDigits(w) && AllDigits(f) && |w| + |f| > 0
    ensures ParseDecimal(w + "." + f) == Some(DigitsValue(w) as real + FractionValue(f))
  {
    var s := w + "." + f;
    PointAfterDigits(w, f);
    var whole, fraction := s[..|w|], s[|w| + 1..];
    assert whole == w;
    assert fraction == f;
    assert AllDigits(whole) && AllDigits(fraction) && |whole| + |fraction| > 0;
    assert UnsignedDecimal(s) == Some(DigitsValue(w) as real + FractionValue(f));
    assert s[0] != '+' && s[0] != '-' by {
      if |w| > 0 {
        assert s[0] == w[0] && IsDigit(w[0]);
      }
    }
    assert ParseDecimal(s) == UnsignedDecimal(s);
  }

  /** A sign before unsigned text: `+` keeps the value `float()` reads and `-` negates it. */
  lemma {:induction false} ParseDecimalSign(c: char, b: string)
    requires c == '+' || c == '-'
    requires |b| == 0 || (b[0] != '+' && b[0] != '-')
    ensures ParseDecimal([c] + b) ==
      match ParseDecimal(b)
      case None => None
      case Some(x) => Some(if c == '-' then -x else x)
  {
    assert ([c] + b)[1..] == b;
  }

  /** `float()` of a signed point literal such as `"+2.5"` or `"-.5"`. */
  lemma {:induction false} ParseDecimalSignedPoint(c: char, w: string, f: string)
    requires c == '+' || c == '-'
    requires AllDigits(w) && AllDigits(f) && |w| + |f| > 0
    ensures ParseDecimal([c] + w + "." + f) ==
      var v := DigitsValue(w) as real + FractionValue(f);
      Some(if c == '-' then -v else v)
  {
    var b := w + "." + f;
    assert [c] + w + "." + f == [c] + b;
    PointLiteralUnsigned(w, f);
    ParseDecimalPoint(w, f);
    SignedValue(c, b, DigitsValue(w) as real + FractionValue(f));
  }

  /** The signed form of a value `float()` reads from unsigned text. */
  lemma SignedValue(c: char, b: string, v: real)
    requires c == '+' || c == '-'
    requires |b| > 0 && b[0] != '+' && b[0] != '-'
    requires ParseDecimal(b) == Some(v)
    ensures ParseDecimal([c] + b) == Some(if c == '-' then -v else v)
  {
    ParseDecimalSign(c, b);
  }

  /** Digits around a point do not start with a sign. */
  lemma PointLiteralUnsigned(w: string, f: string)
    requires AllDigits(w)
    ensures (w + "." + f)[0] != '+' && (w + "." + f)[0] != '-'
  {
    if |w| > 0 {
      assert (w + "." + f)[0] == w[0];
    }
  }

  /** The two cases `UnsignedDecimal` accepts are exactly the plain decimal text. */
  lemma {:induction false} UnsignedDecimalAccepts(b: string)
    ensures (match IndexOf(b, '.')
             case None => |b| > 0 && AllDigits(b)
             case Some(k) => AllDigits(b[..k]) && AllDigits(b[k + 1..]) && |b| > 1)
        <==> PlainDecimal(b)
  {
    match IndexOf(b, '.')
    case None =>
      if PlainDecimal(b) {
        var d :| 0 <= d < |b| && IsDigit(b[d]);
      }
      if |b| > 0 && AllDigits(b) {
        assert IsDigit(b[0]);
      }
    case Some(k) =>
      var whole, fraction := b[..k], b[k + 1..];
      if AllDigits(whole) && AllDigits(fraction) && |whole| + |fraction| > 0 {
        forall i | 0 <= i < |b|
          ensures IsDigit(b[i]) || b[i] == '.'
        {
          if i < k {
            assert b[i] == whole[i];
          } else if i > k {
            assert b[i] == fraction[i - k - 1];
          }
        }
        forall i, j | 0 <= i < j < |b| && b[i] == '.'
          ensures b[j] != '.'
        {
          assert k <= i by {
            forall m | 0 <= m < k
              ensures b[m] != '.'
            {
              assert b[m] == whole[m];
            }
          }
          assert b[j] == fraction[j - k - 1];
        }
        if |whole| > 0 {
          assert b[0] == whole[0];
        } else {
          assert b[k + 1] == fraction[0];
        }
      }
      if PlainDecimal(b) {
        forall i | 0 <= i < |whole|
          ensures IsDigit(whole[i])
        {
          assert whole[i] == b[i] && b[i] != '.';
        }
        forall i | 0 <= i < |fraction|
          ensures IsDigit(fraction[i])
        {
          assert fraction[i] == b[k + 1 + i];
        }
        var d :| 0 <= d < |b| && IsDigit(b[d]);
        assert d != k;
      }
  }

  /** The first point of `w + "." + f`, for digits `w`, is the one after `w`. */
  lemma {:induction false} PointAfterDigits(w: string, f: string)
    requires AllDigits(w)
    ensures IndexOf(w + "." + f, '.') == Some(|w|)
  {
    if w != [] {
      var s := w + "." + f;
      assert IsDigit(w[0]) && s[0] == w[0];
      assert s[1..] == w[1..] + "." + f;
      PointAfterDigits(w[1..], f);
    }
  }

  lemma NoPointInDigits(s: string)
    ensures AllDigits(s) ==> IndexOf(s, '.') == None
  {
    if AllDigits(s) {
      assert forall i :: 0 <= i < |s| ==> s[i] != '.';
    }
  }

  /** `s.split(sep)`: the maximal runs between separators, empty runs included. */
  function Split(s: string, sep: char): (parts: seq<string>)
    ensures |parts| >= 1
    ensures forall i :: 0 <= i < |parts| ==> sep !in parts[i]
  {
    if s == [] then [""]
    else
      var rest := Split(s[1..], sep);
      if s[0] == sep then [""] + rest
      else [[s[0]] + rest[0]] + rest[1..]
  }

  /** `sep.join(parts)`. */
  function Join(parts: seq<string>, sep: char): string
    requires |parts| >= 1
  {
    if |parts| == 1 then parts[0] else parts[0] + [sep] + Join(parts[1..], sep)
  }

  lemma {:induction false} JoinSplit(s: string, sep: char)
    ensures Join(Split(s, sep), sep) == s
  {
    if s != [] {
      JoinSplit(s[1..], sep);
      var rest := Split(s[1..], sep);
      if s[0] != sep {
        if |rest| == 1 {
          assert Join(rest, sep) == rest[0];
        } else {
          assert Join(rest, sep) == rest[0] + [sep] + Join(rest[1..], sep);
          assert ([s[0]] + rest[0]) + [sep] + Join(rest[1..], sep) == [s[0]] + Join(rest, sep);
        }
      }
    }
  }

  lemma {:induction false} SplitJoin(parts: seq<string>, sep: char)
    requires |parts| >= 1
    requires forall i :: 0 <= i < |parts| ==> sep !in parts[i]
    ensures Split(Join(parts, sep), sep) == parts
  {
    if |parts| == 1 {
      SplitNoSep(parts[0], sep);
    } else {
      var tail := Join(parts[1..], sep);
      SplitJoin(parts[1..], sep);
      SplitPrefix(parts[0], tail, sep);
      assert [""] + parts[1..] == [""] + Split(tail, sep);
    }
  }

  lemma {:induction false} SplitNoSep(s: string, sep: char)
    requires sep !in s
    ensures Split(s, sep) == [s]
  {
    if s != [] {
      SplitNoSep(s[1..], sep);
      assert [s[0]] + s[1..] == s;
    }
  }

  /** Splitting `w + [sep] + t`, where `w` holds no separator, peels `w` off. */
  lemma {:induction false} SplitPrefix(w: string, t: string, sep: char)
    requires sep !in w
    ensures Split(w + [sep] + t, sep) == [w] + Split(t, sep)
  {
    if w == [] {
      assert w + [sep] + t == [sep] + t;
      assert ([sep] + t)[1..] == t;
    } else {
      var s := w + [sep] + t;
      assert s[0] == w[0] && s[1..] == w[1..] + [sep] + t;
      SplitPrefix(w[1..], t, sep);
      assert [w[0]] + w[1..] == w;
    }
  }
}
