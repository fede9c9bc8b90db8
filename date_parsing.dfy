/**
  `_to_datetime`, which both clients use to turn a date string of a response into
  a UTC-aware `datetime` (sxc_api_client/client.py and src/client.py): the string
  is split on `.`, the fraction after the first dot is cut to six characters and
  parsed with the `%Y-%m-%dT%H:%M:%S.%f` format; when that fails the whole string
  is parsed with `%Y-%m-%dT%H:%M:%S`.

  The model parses the fixed digit layout of those formats and checks field
  ranges; calendar validation (days per month) is not part of it.
*/
module DateParsing {

  import opened Wrappers
  import opened RegexSubset

  /** A `datetime`; `utc` tells whether it carries the UTC time zone. */
  datatype DateTime = DateTime(year: int, month: int, day: int, hour: int, minute: int, second: int,
                               microsecond: int, utc: bool)

  /** The `ValueError` that `strptime` raises. */
  datatype ParseError = ValueError

  const WholeSecondLength: nat := 19
  const MaxFractionDigits: nat := 6

  // ---------------------------------------------------------------------------
  // Splitting on a separator

  /** Python's `str.split(sep)` for a single-character separator. */
  function Split(s: string, sep: char): (parts: seq<string>)
    ensures |parts| >= 1
    ensures forall i :: 0 <= i < |parts| ==> sep !in parts[i]
    ensures Join(parts, sep) == s
    decreases |s|
  {
    if sep !in s then [s]
    else
      var i := IndexOf(s, sep);
      var rest := Split(s[i + 1..], sep);
      assert s == s[..i] + [sep] + s[i + 1..];
      [s[..i]] + rest
  }

  /** Python's `sep.join(parts)`. */
  function Join(parts: seq<string>, sep: char): string
    requires |parts| >= 1
  {
    if |parts| == 1 then parts[0] else parts[0] + [sep] + Join(parts[1..], sep)
  }

  /** The position of the first occurrence of `c` in `s`. */
  function IndexOf(s: string, c: char): (i: nat)
    requires c in s
    ensures i < |s| && s[i] == c && c !in s[..i]
  {
    if s[0] == c then 0
    else
      var j := IndexOf(s[1..], c);
      assert s[..j + 1] == [s[0]] + s[1..][..j];
      j + 1
  }

  /** Splitting undoes joining parts that do not contain the separator. */
  lemma {:induction false} SplitJoin(parts: seq<string>, sep: char)
    requires |parts| >= 1
    requires forall i :: 0 <= i < |parts| ==> sep !in parts[i]
    ensures Split(Join(parts, sep), sep) == parts
    decreases |parts|
  {
    if |parts| > 1 {
      var s := Join(parts, sep);
      var p := parts[0];
      assert s == p + [sep] + Join(parts[1..], sep);
      assert s[|p|] == sep;
      assert IndexOf(s, sep) == |p|;
      assert s[..|p|] == p;
      assert s[|p| + 1..] == Join(parts[1..], sep);
      SplitJoin(parts[1..], sep);
    }
  }

  // ---------------------------------------------------------------------------
  // Digits

  predicate AllDigits(s: string) {
    forall i :: 0 <= i < |s| ==> IsDigit(s[i])
  }

  function Pow10(n: nat): (p: nat)
    ensures p >= 1
  {
    if n == 0 then 1 else 10 * Pow10(n - 1)
  }

  /** The value of a string of decimal digits, most significant first (`int(s)`). */
  function Number(s: string): (n: nat)
    requires AllDigits(s)
    ensures n < Pow10(|s|)
  {
    if s == [] then 0
    else Number(s[..|s| - 1]) * 10 + (s[|s| - 1] as int - '0' as int)
  }

  /** `n` written with exactly `width` digits, zero-padded on the left. */
  function Pad(n: nat, width: nat): (s: string)
    ensures |s| == width && AllDigits(s)
  {
    if width == 0 then ""
    else Pad(n / 10, width - 1) + [('0' as int + n % 10) as char]
  }

  /** `str(n)` for an integer. */
  function Decimal(n: int): (s: string)
    ensures |s| >= 1
    decreases if n < 0 then -n + 1 else n
  {
    if n < 0 then "-" + Decimal(-n)
    else if n < 10 then [('0' as int + n) as char]
    else Decimal(n / 10) + [('0' as int + n % 10) as char]
  }

  /** Reading back a padded number gives the number, when it fits the width. */
  lemma {:induction false} NumberOfPad(n: nat, width: nat)
    requires n < Pow10(width)
    ensures Number(Pad(n, width)) == n
  {
    if width > 0 {
      var s := Pad(n, width);
      assert s[..|s| - 1] == Pad(n / 10, width - 1);
      NumberOfPad(n / 10, width - 1);
    }
  }

  // ---------------------------------------------------------------------------
  // The two formats

  /** The `%Y-%m-%dT%H:%M:%S` layout: four digits, then pairs of digits after
      `-`, `-`, `T`, `:`, `:`. */
  predicate WholeLayout(s: string) {
    |s| == WholeSecondLength &&
    AllDigits(s[0..4]) && s[4] == '-' && AllDigits(s[5..7]) && s[7] == '-' && AllDigits(s[8..10]) &&
    s[10] == 'T' && AllDigits(s[11..13]) && s[13] == ':' && AllDigits(s[14..16]) && s[16] == ':' &&
    AllDigits(s[17..19])
  }

  /** The field ranges a `datetime` accepts. */
  predicate InRange(dt: DateTime) {
    1 <= dt.year <= 9999 && 1 <= dt.month <= 12 && 1 <= dt.day <= 31 &&
    0 <= dt.hour <= 23 && 0 <= dt.minute <= 59 && 0 <= dt.second <= 59 &&
    0 <= dt.microsecond < Pow10(MaxFractionDigits)
  }

  /** The fields of a string in the whole-second layout, without time zone. */
  function Fields(s: string, microsecond: int): (dt: DateTime)
    requires WholeLayout(s)
  {
    DateTime(Number(s[0..4]), Number(s[5..7]), Number(s[8..10]), Number(s[11..13]),
             Number(s[14..16]), Number(s[17..19]), microsecond, false)
  }

  /** `datetime.strptime(s, "%Y-%m-%dT%H:%M:%S")`. */
  function ParseWhole(s: string): (r: Result<DateTime, ParseError>)
    ensures r.Ok? ==> |s| == WholeSecondLength && InRange(r.value) && !r.value.utc && r.value.microsecond == 0
  {
    if WholeLayout(s) && InRange(Fields(s, 0)) then Ok(Fields(s, 0)) else Err(ValueError)
  }

  /** `datetime.strptime(s, "%Y-%m-%dT%H:%M:%S.%f")`: the whole-second layout, a dot,
      then one to six digits read as a fraction of a second in microseconds. */
  function ParseWithFraction(s: string): (r: Result<DateTime, ParseError>)
    ensures r.Ok? ==> WholeSecondLength + 2 <= |s| <= WholeSecondLength + 1 + MaxFractionDigits
    ensures r.Ok? ==> InRange(r.value) && !r.value.utc
  {
    if |s| < WholeSecondLength + 2 || |s| > WholeSecondLength + 1 + MaxFractionDigits then Err(ValueError)
    else
      var whole, frac := s[..WholeSecondLength], s[WholeSecondLength + 1..];
      if s[WholeSecondLength] == '.' && WholeLayout(whole) && AllDigits(frac) then
        var dt := Fields(whole, Number(frac) * Pow10(MaxFractionDigits - |frac|));
        assert dt.microsecond < Pow10(MaxFractionDigits) by { FractionFits(frac); }
        if InRange(dt) then Ok(dt) else Err(ValueError)
      else Err(ValueError)
  }

  lemma {:induction false} FractionFits(frac: string)
    requires |frac| <= MaxFractionDigits && AllDigits(frac)
    ensures Number(frac) * Pow10(MaxFractionDigits - |frac|) < Pow10(MaxFractionDigits)
  {
    ScaledPower(|frac|, MaxFractionDigits - |frac|, Number(frac));
  }

  lemma {:induction false} ScaledPower(a: nat, b: nat, n: nat)
    requires n < Pow10(a)
    ensures n * Pow10(b) < Pow10(a + b)
    decreases b
  {
    if b > 0 {
      ScaledPower(a, b - 1, n);
      assert n * Pow10(b) == 10 * (n * Pow10(b - 1));
      assert Pow10(a + b) == 10 * Pow10(a + b - 1);
    }
  }

  /** The first six characters of a fraction, or all of it when shorter (`[:6]`). */
  function Truncated(frac: string): (t: string)
    ensures |t| <= MaxFractionDigits && t <= frac
    ensures |frac| >= MaxFractionDigits ==> |t| == MaxFractionDigits
  {
    if |frac| <= MaxFractionDigits then frac else frac[..MaxFractionDigits]
  }

  /** `_to_datetime`: the fraction path first; on `ValueError` or `IndexError` (no dot)
      the whole-second path; the parsed value is tagged UTC. */
  function ToDatetime(s: string): (r: Result<DateTime, ParseError>)
    ensures r.Ok? ==> r.value.utc && InRange(r.value)
  {
    var parts := Split(s, '.');
    var withFraction := if |parts| >= 2 then ParseWithFraction(parts[0] + "." + Truncated(parts[1]))
                        else Err(ValueError);
    var parsed := if withFraction.Ok? then withFraction else ParseWhole(s);
    match parsed
    case Ok(dt) => Ok(dt.(utc := true))
    case Err(e) => Err(e)
  }

  // ---------------------------------------------------------------------------
  // Properties of the normalisation

  /** No character of the whole-second layout is a dot. */
  lemma NoDotInWholeLayout(s: string)
    requires WholeLayout(s)
    ensures '.' !in s
  {
    forall k | 0 <= k < |s| ensures s[k] != '.' {
      if k < 4 { assert s[0..4][k] == s[k]; }
      else if 5 <= k < 7 { assert s[5..7][k - 5] == s[k]; }
      else if 8 <= k < 10 { assert s[8..10][k - 8] == s[k]; }
      else if 11 <= k < 13 { assert s[11..13][k - 11] == s[k]; }
      else if 14 <= k < 16 { assert s[14..16][k - 14] == s[k]; }
      else if 17 <= k < 19 { assert s[17..19][k - 17] == s[k]; }
    }
  }

  /** A string with a dot never takes the whole-second path successfully. */
  lemma WholeRejectsDot(s: string)
    requires '.' in s
    ensures ParseWhole(s).Err?
  {
    if WholeLayout(s) {
      NoDotInWholeLayout(s);
    }
  }

  /** A string without a dot is parsed by the whole-second format alone. */
  lemma NoDotTakesWholeSecondPath(s: string)
    requires '.' !in s
    ensures ToDatetime(s).Ok? <==> ParseWhole(s).Ok?
    ensures ToDatetime(s).Ok? ==> ToDatetime(s).value == ParseWhole(s).value.(utc := true)
    ensures ToDatetime(s).Ok? ==> ToDatetime(s).value.microsecond == 0
  {
    assert Split(s, '.') == [s];
  }

  /** Only the first six characters of the fraction count: a nine-digit (or longer)
      fraction normalises exactly like its six-digit truncation. */
  lemma LongFractionIsTruncated(whole: string, frac: string)
    requires '.' !in whole && '.' !in frac && |frac| >= MaxFractionDigits
    ensures ToDatetime(whole + "." + frac) == ToDatetime(whole + "." + frac[..MaxFractionDigits])
  {
    var short := frac[..MaxFractionDigits];
    assert '.' !in short by {
      forall k | 0 <= k < |short| ensures short[k] != '.' { assert short[k] == frac[k]; assert frac[k] in frac; }
    }
    SplitJoin([whole, frac], '.');
    SplitJoin([whole, short], '.');
    assert Join([whole, frac], '.') == whole + "." + frac;
    assert Join([whole, short], '.') == whole + "." + short;
    assert Truncated(frac) == Truncated(short);
    assert (whole + "." + frac)[|whole|] == '.';
    assert (whole + "." + short)[|whole|] == '.';
    WholeRejectsDot(whole + "." + frac);
    WholeRejectsDot(whole + "." + short);
  }

  // ---------------------------------------------------------------------------
  // Rendering, as the exchange writes its dates

  /** A date in the whole-second layout. */
  function RenderWhole(dt: DateTime): (s: string)
    requires 0 <= dt.year && 0 <= dt.month && 0 <= dt.day && 0 <= dt.hour && 0 <= dt.minute && 0 <= dt.second
    ensures |s| == WholeSecondLength
  {
    Pad(dt.year, 4) + "-" + Pad(dt.month, 2) + "-" + Pad(dt.day, 2) + "T" +
    Pad(dt.hour, 2) + ":" + Pad(dt.minute, 2) + ":" + Pad(dt.second, 2)
  }

  /** A date with a six-digit fraction of a second. */
  function RenderWithFraction(dt: DateTime): string
    requires InRange(dt)
  {
    RenderWhole(dt) + "." + Pad(dt.microsecond, MaxFractionDigits)
  }

  /** Where the three parts of `a sep b sep c` sit, for parts of widths w, 2 and 2. */
  lemma ThreeFields(a: string, b: string, c: string, sep: char)
    requires |b| == 2 && |c| == 2
    ensures var t := a + [sep] + b + [sep] + c;
            |t| == |a| + 6 && t[..|a|] == a && t[|a|] == sep && t[|a| + 1..|a| + 3] == b &&
            t[|a| + 3] == sep && t[|a| + 4..] == c
  {
  }

  /** Where each field of the whole-second layout sits, given the field widths. */
  lemma LayoutSlices(y: string, mo: string, d: string, h: string, mi: string, se: string)
    requires |y| == 4 && |mo| == 2 && |d| == 2 && |h| == 2 && |mi| == 2 && |se| == 2
    ensures var s := y + "-" + mo + "-" + d + "T" + h + ":" + mi + ":" + se;
            s[0..4] == y && s[4] == '-' && s[5..7] == mo && s[7] == '-' && s[8..10] == d && s[10] == 'T'
    ensures var s := y + "-" + mo + "-" + d + "T" + h + ":" + mi + ":" + se;
            s[11..13] == h && s[13] == ':' && s[14..16] == mi && s[16] == ':' && s[17..19] == se
  {
    var date := y + "-" + mo + "-" + d;
    var time := h + ":" + mi + ":" + se;
    ThreeFields(y, mo, d, '-');
    ThreeFields(h, mi, se, ':');
    var s := date + "T" + time;
    assert y + "-" + mo + "-" + d + "T" + h + ":" + mi + ":" + se == s;
    assert s[..10] == date && s[10] == 'T' && s[11..] == time;
    assert s[0..4] == date[..4] && s[5..7] == date[5..7] && s[8..10] == date[8..];
    assert s[11..13] == time[..2] && s[14..16] == time[3..5] && s[17..19] == time[6..];
  }

  lemma RenderWholeLayout(dt: DateTime)
    requires InRange(dt)
    ensures WholeLayout(RenderWhole(dt))
    ensures Fields(RenderWhole(dt), dt.microsecond) == dt.(utc := false)
  {
    LayoutSlices(Pad(dt.year, 4), Pad(dt.month, 2), Pad(dt.day, 2), Pad(dt.hour, 2), Pad(dt.minute, 2),
                 Pad(dt.second, 2));
    NumberOfPad(dt.year, 4);
    NumberOfPad(dt.month, 2);
    NumberOfPad(dt.day, 2);
    NumberOfPad(dt.hour, 2);
    NumberOfPad(dt.minute, 2);
    NumberOfPad(dt.second, 2);
  }

  /** A UTC date written in the whole-second layout normalises back to itself when it
      has no fraction of a second. */
  lemma WholeRoundTrip(dt: DateTime)
    requires InRange(dt) && dt.utc && dt.microsecond == 0
    ensures ToDatetime(RenderWhole(dt)) == Ok(dt)
  {
    RenderWholeLayout(dt);
    NoDotInWholeLayout(RenderWhole(dt));
    NoDotTakesWholeSecondPath(RenderWhole(dt));
  }

  /** The fraction format reads a rendered date with its six-digit fraction back. */
  lemma ParseRenderedFraction(dt: DateTime)
    requires InRange(dt)
    ensures ParseWithFraction(RenderWithFraction(dt)) == Ok(dt.(utc := false))
  {
    var w := RenderWhole(dt);
    var f := Pad(dt.microsecond, MaxFractionDigits);
    var s := w + "." + f;
    RenderWholeLayout(dt);
    NumberOfPad(dt.microsecond, MaxFractionDigits);
    assert s[..WholeSecondLength] == w && s[WholeSecondLength] == '.' && s[WholeSecondLength + 1..] == f;
    assert Number(f) * Pow10(MaxFractionDigits - |f|) == dt.microsecond;
  }

  /** A UTC date written with its six-digit fraction normalises back to itself. */
  lemma FractionRoundTrip(dt: DateTime)
    requires InRange(dt) && dt.utc
    ensures ToDatetime(RenderWithFraction(dt)) == Ok(dt)
  {
    var w := RenderWhole(dt);
    var f := Pad(dt.microsecond, MaxFractionDigits);
    RenderWholeLayout(dt);
    NoDotInWholeLayout(w);
    assert '.' !in f by {
      forall k | 0 <= k < |f| ensures f[k] != '.' { assert IsDigit(f[k]); }
    }
    SplitJoin([w, f], '.');
    assert Join([w, f], '.') == RenderWithFraction(dt);
    assert Truncated(f) == f;
    ParseRenderedFraction(dt);
  }
}
