/**
 * Configuration resolution: built-in defaults, then the caller's options, then the
 * `data-*` attributes of the carousel element.
 *
 * Attribute values are text. The numeric ones go through JavaScript's `parseInt`
 * (modelled by `ParseInt`) and then `|| fallback`, so a value that is not a number,
 * or is zero, leaves the option value in place.
 */
module Config {
  import opened Wrappers

  // ---------------------------------------------------------------------------
  // JavaScript parseInt(text), radix not given
  // ---------------------------------------------------------------------------

  /** The white space and line terminators that `parseInt` skips before the number. */
  predicate IsJsSpace(c: char): (r: bool)
    ensures r ==> !('0' <= c <= '9') && c != '-' && c != '+'
    ensures r ==> c == ' ' || c < ' ' || c >= '\U{A0}'
  {
    || c == ' ' || c == '\t' || c == '\n' || c == '\r' || c == '\U{B}' || c == '\U{C}'
    || c == '\U{A0}' || c == '\U{1680}' || ('\U{2000}' <= c <= '\U{200A}')
    || c == '\U{2028}' || c == '\U{2029}' || c == '\U{202F}' || c == '\U{205F}'
    || c == '\U{3000}' || c == '\U{FEFF}'
  }

  /** The text with its leading white space removed. */
  function TrimStart(s: string): (r: string)
    ensures |r| <= |s| && r == s[|s| - |r|..]
    ensures forall i :: 0 <= i < |s| - |r| ==> IsJsSpace(s[i])
    ensures r == [] || !IsJsSpace(r[0])
  {
    if s != [] && IsJsSpace(s[0]) then TrimStart(s[1..]) else s
  }

  /** Value of a hexadecimal or decimal digit character, -1 for anything else. */
  function DigitValue(c: char): int {
    if '0' <= c <= '9' then c as int - '0' as int
    else if 'a' <= c <= 'f' then c as int - 'a' as int + 10
    else if 'A' <= c <= 'F' then c as int - 'A' as int + 10
    else -1
  }

  predicate IsDigit(c: char, radix: int) {
    0 <= DigitValue(c) < radix
  }

  /** Length of the longest prefix of `s` made of digits of `radix`. */
  function DigitRun(s: string, radix: int): (k: nat)
    ensures k <= |s|
    ensures forall i :: 0 <= i < k ==> IsDigit(s[i], radix)
    ensures k < |s| ==> !IsDigit(s[k], radix)
  {
    if s != [] && IsDigit(s[0], radix) then 1 + DigitRun(s[1..], radix) else 0
  }

  /** The number written by the digits `s`, most significant first. */
  function DigitsValue(s: string, radix: int): int {
    if s == [] then 0 else DigitsValue(s[..|s| - 1], radix) * radix + DigitValue(s[|s| - 1])
  }

  /** Digits of `radix` have a value that is never negative. */
  lemma {:induction false} DigitsValueNonNegative(s: string, radix: int)
    requires radix > 0 && forall i :: 0 <= i < |s| ==> IsDigit(s[i], radix)
    ensures DigitsValue(s, radix) >= 0
  {
    if s != [] {
      DigitsValueNonNegative(s[..|s| - 1], radix);
    }
  }

  /**
   * The digits after the sign: a `0x`/`0X` prefix selects base 16; `None` when there is no
   * digit. What is read is never negative, and text that does not start with a decimal digit
   * reads as nothing.
   */
  function ReadUnsigned(u: string): (r: Option<int>)
    ensures r.Some? ==> r.value >= 0
    ensures u == [] || !IsDigit(u[0], 10) ==> r.None?
  {
    var hex := |u| >= 2 && u[0] == '0' && (u[1] == 'x' || u[1] == 'X');
    var radix := if hex then 16 else 10;
    var body := if hex then u[2..] else u;
    var k := DigitRun(body, radix);
    if k == 0 then None
    else
      DigitsValueNonNegative(body[..k], radix);
      Some(DigitsValue(body[..k], radix))
  }

  /**
   * `parseInt(text)`: skip leading white space, read an optional sign, read a `0x`/`0X`
   * prefix as base 16, then read as many digits as there are. `None` is NaN (no digit
   * at all); trailing text is ignored. Negative zero is folded into 0.
   */
  function ParseInt(text: string): (r: Option<int>)
    ensures var t := TrimStart(text);
      t == [] || !(t[0] == '-' || t[0] == '+' || IsDigit(t[0], 10)) ==> r.None?
    ensures r.Some? && r.value < 0 ==> TrimStart(text) != [] && TrimStart(text)[0] == '-'
  {
    var t := TrimStart(text);
    if t != [] && t[0] == '-' then
      (match ReadUnsigned(t[1..]) case None => None case Some(n) => Some(-n))
    else if t != [] && t[0] == '+' then ReadUnsigned(t[1..])
    else ReadUnsigned(t)
  }

  /** The decimal text `String(n)` of a non-negative integer. */
  function NatToDecimal(n: nat): (s: string)
    ensures |s| >= 1
    ensures forall i :: 0 <= i < |s| ==> IsDigit(s[i], 10)
  {
    var c := ('0' as int + n % 10) as char;
    if n < 10 then [c] else NatToDecimal(n / 10) + [c]
  }

  /** The decimal text `String(v)` of an integer, as an author writes it in an attribute. */
  function IntToDecimal(v: int): (r: string)
    ensures |r| >= 1 && (r[0] == '-' <==> v < 0)
    ensures forall i :: (if v < 0 then 1 else 0) <= i < |r| ==> IsDigit(r[i], 10)
  {
    if v < 0 then "-" + NatToDecimal(-v) else NatToDecimal(v)
  }

  lemma {:induction false} NatToDecimalValue(n: nat)
    ensures DigitsValue(NatToDecimal(n), 10) == n
  {
    var s := NatToDecimal(n);
    if n >= 10 {
      NatToDecimalValue(n / 10);
      assert s[..|s| - 1] == NatToDecimal(n / 10);
    }
  }

  lemma {:induction false} DigitRunOfDigits(s: string, radix: int)
    requires forall i :: 0 <= i < |s| ==> IsDigit(s[i], radix)
    ensures DigitRun(s, radix) == |s|
  {
    if s != [] {
      DigitRunOfDigits(s[1..], radix);
    }
  }

  lemma ReadUnsignedDecimal(m: nat)
    ensures ReadUnsigned(NatToDecimal(m)) == Some(m)
  {
    var digits := NatToDecimal(m);
    NatToDecimalValue(m);
    DigitRunOfDigits(digits, 10);
    assert digits[..|digits|] == digits;
  }

  lemma DecimalDigitIsPlain(c: char)
    requires IsDigit(c, 10)
    ensures '0' <= c <= '9' && !IsJsSpace(c)
  {
  }

  lemma TrimStartKeeps(s: string)
    requires s != [] && !IsJsSpace(s[0])
    ensures TrimStart(s) == s
  {
  }

  lemma ParseIntUnsigned(m: nat)
    ensures ParseInt(NatToDecimal(m)) == Some(m)
  {
    var digits := NatToDecimal(m);
    ReadUnsignedDecimal(m);
    DecimalDigitIsPlain(digits[0]);
    TrimStartKeeps(digits);
  }

  /** A leading `-` negates what follows it. */
  lemma ParseIntMinus(u: string)
    requires ReadUnsigned(u).Some?
    ensures ParseInt("-" + u) == Some(-ReadUnsigned(u).value)
  {
    var t := "-" + u;
    TrimStartKeeps(t);
    assert t[1..] == u;
  }

  lemma ParseIntNegative(v: int)
    requires v < 0
    ensures ParseInt(IntToDecimal(v)) == Some(v)
  {
    ReadUnsignedDecimal(-v);
    ParseIntMinus(NatToDecimal(-v));
  }

  /** Reading back the decimal text of any integer gives that integer. */
  lemma ParseIntReadsDecimal(v: int)
    ensures ParseInt(IntToDecimal(v)) == Some(v)
  {
    if v < 0 {
      ParseIntNegative(v);
    } else {
      assert IntToDecimal(v) == NatToDecimal(v);
      ParseIntUnsigned(v);
    }
  }

  /** 10^21: from this magnitude on, `String(n)` of a Number switches to exponent notation. */
  const ExponentFrom: int := 1_000_000_000_000_000_000_000

  /** The text with its trailing zeros removed. */
  function TrimTrailingZeros(s: string): (r: string)
    ensures |r| <= |s| && r == s[..|r|]
    ensures forall i :: |r| <= i < |s| ==> s[i] == '0'
    ensures r == [] || r[|r| - 1] != '0'
  {
    if s != [] && s[|s| - 1] == '0' then TrimTrailingZeros(s[..|s| - 1]) else s
  }

  /** The first digit of a positive number is not 0. */
  lemma {:induction false} LeadingDigitNonZero(m: nat)
    requires m >= 1
    ensures NatToDecimal(m)[0] != '0'
  {
    if m >= 10 {
      LeadingDigitNonZero(m / 10);
    }
  }

  /** The value of the first decimal digit of `m`. */
  function LeadingDigit(m: nat): int {
    DigitValue(NatToDecimal(m)[0])
  }

  /**
   * `String(v)` of an integer-valued Number: plain decimal below 10^21 in magnitude,
   * otherwise `d.ddde+N` (the first digit, the other digits without trailing zeros, the exponent).
   */
  function NumberToString(v: int): (r: string)
    ensures -ExponentFrom < v < ExponentFrom ==> r == IntToDecimal(v)
    ensures !(-ExponentFrom < v < ExponentFrom) ==>
      var m: nat := if v < 0 then -v else v;
      var o := if v < 0 then 1 else 0;
      |r| >= o + 2 && (v < 0 ==> r[0] == '-') && r[o] == NatToDecimal(m)[0] && (r[o + 1] == '.' || r[o + 1] == 'e')
  {
    var m: nat := if v < 0 then -v else v;
    if m < ExponentFrom then IntToDecimal(v)
    else
      var digits := NatToDecimal(m);
      var rest := TrimTrailingZeros(digits[1..]);
      var mantissa := [digits[0]] + (if rest == [] then "" else "." + rest);
      (if v < 0 then "-" else "") + mantissa + "e+" + NatToDecimal(|digits| - 1)
  }

  /** `parseInt` of text that starts with a non-zero digit followed by `.` or `e` reads that one digit. */
  lemma ReadsOneDigit(u: string)
    requires |u| >= 2 && IsDigit(u[0], 10) && u[0] != '0' && (u[1] == '.' || u[1] == 'e')
    ensures ReadUnsigned(u) == Some(DigitValue(u[0]))
  {
    assert DigitRun(u[1..], 10) == 0;
    assert DigitRun(u, 10) == 1;
    assert u[..1] == [u[0]];
    assert DigitsValue([u[0]], 10) == DigitsValue([], 10) * 10 + DigitValue(u[0]);
  }

  /**
   * `parseInt(n)` on a Number, which is turned into text first: below 10^21 in magnitude it
   * gives the number back; from there on it reads only the first digit of the exponent notation.
   */
  function ReparseInt(v: int): (r: Option<int>)
    ensures r.Some?
    ensures -ExponentFrom < v < ExponentFrom ==> r == Some(v)
    ensures v >= ExponentFrom ==> r == Some(LeadingDigit(v))
    ensures v <= -ExponentFrom ==> r == Some(-LeadingDigit(-v))
  {
    if -ExponentFrom < v < ExponentFrom then
      ParseIntReadsDecimal(v);
      ParseInt(NumberToString(v))
    else
      ReparseExponentNotation(v);
      ParseInt(NumberToString(v))
  }

  /** From 10^21 on, `parseInt` reads back only the first digit of the exponent notation, with its sign. */
  lemma ReparseExponentNotation(v: int)
    requires !(-ExponentFrom < v < ExponentFrom)
    ensures v > 0 ==> ParseInt(NumberToString(v)) == Some(LeadingDigit(v))
    ensures v < 0 ==> ParseInt(NumberToString(v)) == Some(-LeadingDigit(-v))
  {
    var t := NumberToString(v);
    var m: nat := if v < 0 then -v else v;
    var o := if v < 0 then 1 else 0;
    LeadingDigitNonZero(m);
    var u := t[o..];
    ReadsOneDigit(u);
    DecimalDigitIsPlain(u[0]);
    TrimStartKeeps(t);
  }

  function Pow10(e: nat): nat {
    if e == 0 then 1 else 10 * Pow10(e - 1)
  }

  lemma {:induction false} Pow10Sum(a: nat, b: nat)
    ensures Pow10(a + b) == Pow10(a) * Pow10(b)
  {
    if b > 0 {
      Pow10Sum(a, b - 1);
      assert Pow10(a + b) == 10 * Pow10(a + b - 1);
    }
  }

  /** A power of ten is written with a leading 1. */
  lemma {:induction false} PowerLeadsWithOne(e: nat)
    ensures NatToDecimal(Pow10(e))[0] == '1'
  {
    if e > 0 {
      PowerLeadsWithOne(e - 1);
      assert Pow10(e) / 10 == Pow10(e - 1);
    }
  }

  /** A start index of 10^21 is parsed as 10^21 from the attribute's text, then read back as 1. */
  lemma ReparseExponent()
    ensures ReparseInt(ExponentFrom) == Some(1)
  {
    assert Pow10(7) == 10_000_000;
    Pow10Sum(7, 7);
    Pow10Sum(14, 7);
    PowerLeadsWithOne(21);
  }

  /** `parseInt("0")` is 0, a number that `||` then treats as missing. */
  lemma ParseIntZero()
    ensures ParseInt("0") == Some(0)
  {
    assert NatToDecimal(0) == "0";
    ParseIntUnsigned(0);
  }

  /** `parseInt("fast")` and `parseInt("")` are NaN. */
  lemma ParseIntText()
    ensures ParseInt("fast") == None
    ensures ParseInt("") == None
  {
    assert |TrimStart("")| == 0;
    TrimStartKeeps("fast");
    assert DigitValue('f') == 15;
  }

  // ---------------------------------------------------------------------------
  // Settings
  // ---------------------------------------------------------------------------

  /**
   * The resolved settings. `onSlideChange` says whether a callback was given; its
   * calls are recorded by the carousels. Indicator size and colours are left out.
   */
  datatype Settings = Settings(
    interval: int,
    theme: string,
    generateIndicators: bool,
    enableLogging: bool,
    lazyLoad: bool,
    prefetchItems: int,
    startIndex: int,
    enableAnalytics: bool,
    onSlideChange: bool)

  /** The caller's options object: `None` is a key the caller did not give. */
  datatype Options = Options(
    interval: Option<int>,
    theme: Option<string>,
    generateIndicators: Option<bool>,
    enableLogging: Option<bool>,
    lazyLoad: Option<bool>,
    prefetchItems: Option<int>,
    startIndex: Option<int>,
    enableAnalytics: Option<bool>,
    onSlideChange: Option<bool>)

  const NoOptions := Options(None, None, None, None, None, None, None, None, None)

  /** Defaults of the ES6 class and of the UMD (vanilla) build. */
  const Es6Defaults := Settings(3000, "default", true, false, true, 1, 0, false, false)

  /** Defaults of the jQuery plugin: a prefetch window of 100 and no analytics. */
  const JQueryDefaults := Settings(3000, "default", true, false, true, 100, 0, false, false)

  /** Defaults of the TypeScript class, which has neither a theme nor analytics. */
  const TsDefaults := Settings(3000, "", true, false, true, 1, 0, false, false)

  /** `given` replaces `fallback` exactly when it is present. */
  predicate Overrides<T(==)>(given: Option<T>, fallback: T, result: T) {
    if given.Some? then result == given.value else result == fallback
  }

  /** `{...defaults, ...options}`, `Object.assign` and `$.extend`: options win key by key. */
  function Merge(d: Settings, o: Options): (r: Settings)
    ensures Overrides(o.interval, d.interval, r.interval)
    ensures Overrides(o.theme, d.theme, r.theme)
    ensures Overrides(o.generateIndicators, d.generateIndicators, r.generateIndicators)
    ensures Overrides(o.enableLogging, d.enableLogging, r.enableLogging)
    ensures Overrides(o.lazyLoad, d.lazyLoad, r.lazyLoad)
    ensures Overrides(o.prefetchItems, d.prefetchItems, r.prefetchItems)
    ensures Overrides(o.startIndex, d.startIndex, r.startIndex)
    ensures Overrides(o.enableAnalytics, d.enableAnalytics, r.enableAnalytics)
    ensures Overrides(o.onSlideChange, d.onSlideChange, r.onSlideChange)
  {
    Settings(
      o.interval.GetOr(d.interval), o.theme.GetOr(d.theme),
      o.generateIndicators.GetOr(d.generateIndicators), o.enableLogging.GetOr(d.enableLogging),
      o.lazyLoad.GetOr(d.lazyLoad), o.prefetchItems.GetOr(d.prefetchItems),
      o.startIndex.GetOr(d.startIndex), o.enableAnalytics.GetOr(d.enableAnalytics),
      o.onSlideChange.GetOr(d.onSlideChange))
  }

  // ---------------------------------------------------------------------------
  // data-* overrides of the ES6 class and the UMD build
  // ---------------------------------------------------------------------------

  /** `element.dataset`: `None` is an attribute that is not there. */
  datatype Dataset = Dataset(
    theme: Option<string>,
    interval: Option<string>,
    generateIndicators: Option<string>,
    enableLogging: Option<string>,
    startIndex: Option<string>,
    enableAnalytics: Option<string>)

  const NoDataset := Dataset(None, None, None, None, None, None)

  /** `parseInt(attribute)`; `parseInt(undefined)` is NaN. */
  function AttrInt(a: Option<string>): (r: Option<int>)
    ensures a.None? ==> r.None?
    ensures a.Some? ==> r == ParseInt(a.value)
    ensures r.Some? ==> a.Some? && TrimStart(a.value) != []
  {
    if a.Some? then ParseInt(a.value) else None
  }

  /** `parsed || fallback`: NaN and zero are falsy. */
  function OrElse(parsed: Option<int>, fallback: int): (r: int)
    ensures parsed.Some? && parsed.value != 0 ==> r == parsed.value
    ensures parsed.None? || parsed.value == 0 ==> r == fallback
  {
    if parsed.Some? && parsed.value != 0 then parsed.value else fallback
  }

  /** `attr !== undefined ? attr === "true" : fallback`. */
  function FlagAttr(a: Option<string>, fallback: bool): (r: bool)
    ensures a.None? ==> r == fallback
    ensures a.Some? ==> (r <==> a.value == "true")
  {
    if a.Some? then a.value == "true" else fallback
  }

  /** `attr || fallback` for a text attribute: the empty string is falsy. */
  function TextAttr(a: Option<string>, fallback: string): (r: string)
    ensures a.Some? && a.value != "" ==> r == a.value
    ensures a.None? || a.value == "" ==> r == fallback
  {
    if a.Some? && a.value != "" then a.value else fallback
  }

  /** The attribute overrides applied after the merge (the same code in the ES6 and UMD builds). */
  function ResolveDataset(s: Settings, ds: Dataset): (r: Settings)
    ensures r.theme == TextAttr(ds.theme, s.theme)
    ensures r.interval == OrElse(AttrInt(ds.interval), s.interval)
    ensures r.generateIndicators == FlagAttr(ds.generateIndicators, s.generateIndicators)
    ensures r.enableLogging == FlagAttr(ds.enableLogging, s.enableLogging)
    ensures r.startIndex == OrElse(AttrInt(ds.startIndex), s.startIndex)
    ensures r.enableAnalytics == FlagAttr(ds.enableAnalytics, s.enableAnalytics)
    ensures r.lazyLoad == s.lazyLoad && r.prefetchItems == s.prefetchItems
    ensures r.onSlideChange == s.onSlideChange
  {
    s.(theme := TextAttr(ds.theme, s.theme),
       interval := OrElse(AttrInt(ds.interval), s.interval),
       generateIndicators := FlagAttr(ds.generateIndicators, s.generateIndicators),
       enableLogging := FlagAttr(ds.enableLogging, s.enableLogging),
       startIndex := OrElse(AttrInt(ds.startIndex), s.startIndex),
       enableAnalytics := FlagAttr(ds.enableAnalytics, s.enableAnalytics))
  }

  /** Without attributes the merged settings stand. */
  lemma ResolveWithoutAttributes(s: Settings)
    ensures ResolveDataset(s, NoDataset) == s
  {
  }

  /** A `data-interval` holding the decimal text of a non-zero integer sets the interval to it. */
  lemma DecimalIntervalOverrides(s: Settings, ds: Dataset, v: int)
    requires v != 0 && ds.interval == Some(IntToDecimal(v))
    ensures ResolveDataset(s, ds).interval == v
  {
    ParseIntReadsDecimal(v);
  }

  /** A `data-start-index` holding the decimal text of a non-zero integer sets the start index to it. */
  lemma DecimalStartIndexOverrides(s: Settings, ds: Dataset, v: int)
    requires v != 0 && ds.startIndex == Some(IntToDecimal(v))
    ensures ResolveDataset(s, ds).startIndex == v
  {
    ParseIntReadsDecimal(v);
  }

  /** "0" and text with no leading number leave the option value in place. */
  lemma ZeroOrTextFallsBack(s: Settings, ds: Dataset)
    requires ds.interval == Some("0") || ds.interval == Some("fast")
    ensures ResolveDataset(s, ds).interval == s.interval
  {
    ParseIntZero();
    ParseIntText();
  }

  /** A flag attribute changes a setting only when present, and only the exact text "true" enables. */
  lemma FlagOverrideOnlyWhenPresent(s: Settings, ds: Dataset)
    ensures ResolveDataset(s, ds).generateIndicators != s.generateIndicators ==> ds.generateIndicators.Some?
    ensures ds.generateIndicators == Some("1") ==> !ResolveDataset(s, ds).generateIndicators
    ensures ds.generateIndicators == Some("TRUE") ==> !ResolveDataset(s, ds).generateIndicators
  {
  }

  // ---------------------------------------------------------------------------
  // data-* overrides of the jQuery plugin
  // ---------------------------------------------------------------------------

  /** The attributes the jQuery plugin reads with `.data(...)`. */
  datatype JqDataset = JqDataset(
    theme: Option<string>,
    enableLogging: Option<string>,
    interval: Option<string>,
    indicator: Option<string>,
    currentIndex: Option<string>)

  const NoJqDataset := JqDataset(None, None, None, None, None)

  /**
   * Truthiness of what jQuery's `.data()` makes of attribute text: "false", "null", the
   * canonical numbers 0 and NaN, and the empty string are falsy; every other text,
   * "0.0" and "-0" included, stays truthy.
   */
  predicate JqTruthy(v: string): (r: bool)
    ensures v == "true" ==> r
    ensures |v| > 0 && '1' <= v[0] <= '9' ==> r
    ensures !r ==> |v| <= 5
  {
    v != "false" && v != "null" && v != "0" && v != "NaN" && v != ""
  }

  /** `data(attr) !== undefined ? <truthiness of data(attr)> : fallback`. */
  function JqFlag(a: Option<string>, fallback: bool): (r: bool)
    ensures a.None? ==> r == fallback
    ensures a.Some? ==> (r <==> JqTruthy(a.value))
  {
    if a.Some? then JqTruthy(a.value) else fallback
  }

  /** The jQuery plugin's overrides; the start index comes from `data-current-index`. */
  function ResolveJQuery(s: Settings, ds: JqDataset): (r: Settings)
    ensures r.theme == (if ds.theme.Some? && JqTruthy(ds.theme.value) then ds.theme.value else s.theme)
    ensures r.enableLogging == JqFlag(ds.enableLogging, s.enableLogging)
    ensures r.interval == OrElse(AttrInt(ds.interval), s.interval)
    ensures r.generateIndicators == JqFlag(ds.indicator, s.generateIndicators)
    ensures r.startIndex == OrElse(AttrInt(ds.currentIndex), s.startIndex)
    ensures r.lazyLoad == s.lazyLoad && r.prefetchItems == s.prefetchItems
    ensures r.onSlideChange == s.onSlideChange && r.enableAnalytics == s.enableAnalytics
  {
    s.(theme := if ds.theme.Some? && JqTruthy(ds.theme.value) then ds.theme.value else s.theme,
       enableLogging := JqFlag(ds.enableLogging, s.enableLogging),
       interval := OrElse(AttrInt(ds.interval), s.interval),
       generateIndicators := JqFlag(ds.indicator, s.generateIndicators),
       startIndex := OrElse(AttrInt(ds.currentIndex), s.startIndex))
  }

  /** A `data-current-index` holding the decimal text of a non-zero integer sets the plugin's start index to it. */
  lemma DecimalCurrentIndexOverrides(s: Settings, ds: JqDataset, v: int)
    requires v != 0 && ds.currentIndex == Some(IntToDecimal(v))
    ensures ResolveJQuery(s, ds).startIndex == v
  {
    ParseIntReadsDecimal(v);
  }

  /** The same attribute text can mean opposite things in the two attribute readers. */
  lemma FlagReadersDisagree()
    ensures !FlagAttr(Some("1"), false) && JqFlag(Some("1"), false)
    ensures !FlagAttr(Some("yes"), true) && JqFlag(Some("yes"), false)
    ensures FlagAttr(Some("true"), false) && JqFlag(Some("true"), false)
  {
  }

  /** The jQuery plugin's start index: anything outside `[0, n)` becomes 0. */
  function ClampStart(i: int, n: int): (r: int)
    requires n > 0
    ensures 0 <= r < n
    ensures 0 <= i < n ==> r == i
    ensures !(0 <= i < n) ==> r == 0
  {
    if i >= n || i < 0 then 0 else i
  }
}
