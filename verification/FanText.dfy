/**
 The text form of the fan curves: number printing and scanning, the line grammar, and the
 line-list parser that the cursor-based reader is proved against.
 */
module FanText {
  import opened FanSpline
  import opened Options

  const LINE_CAPACITY: nat := 128

  // ------------------------------------------------------------------ numbers

  predicate IsDigit(c: char) { '0' <= c <= '9' }

  predicate IsSpace(c: char) { c == ' ' || ('\t' <= c <= '\r') }

  function DigitChar(d: nat): (c: char)
    requires d < 10
    ensures IsDigit(c)
  {
    '0' + d as char
  }

  function DigitValue(c: char): nat
    requires IsDigit(c)
  {
    (c - '0') as nat
  }

  /** Decimal digits, most significant first, as %d and %u print a natural number. */
  function Digits(n: nat): (s: string)
    ensures |s| > 0 && forall c :: c in s ==> IsDigit(c)
  {
    if n < 10 then [DigitChar(n)] else Digits(n / 10) + [DigitChar(n % 10)]
  }

  /** One fractional digit, as %.1f prints a value given in tenths, then the rest of the line. */
  function Fixed1(tenths: nat, rest: string): string {
    Digits(tenths / 10) + (['.'] + (Digits(tenths % 10) + rest))
  }

  /** How many leading characters are digits. */
  function DigitRun(s: string): (k: nat)
    ensures k <= |s| && forall i :: 0 <= i < k ==> IsDigit(s[i])
    ensures k < |s| ==> !IsDigit(s[k])
  {
    if s == "" || !IsDigit(s[0]) then 0 else 1 + DigitRun(s[1..])
  }

  function NumberOf(s: string): nat
    requires forall c :: c in s ==> IsDigit(c)
  {
    if s == "" then 0 else 10 * NumberOf(s[..|s| - 1]) + DigitValue(s[|s| - 1])
  }

  function PowerOfTen(k: nat): (r: real)
    ensures r > 0.0
  {
    if k == 0 then 1.0 else 10.0 * PowerOfTen(k - 1)
  }

  function SkipSpace(s: string): string {
    if s != "" && IsSpace(s[0]) then SkipSpace(s[1..]) else s
  }

  function SignOf(s: string): (int, string) {
    if s != "" && s[0] == '-' then (-1, s[1..]) else if s != "" && s[0] == '+' then (1, s[1..]) else (1, s)
  }

  /** The %d conversion: white space, an optional sign, at least one digit. */
  function ScanInt(s: string): Option<(int, string)> {
    var (sign, t) := SignOf(SkipSpace(s));
    var k := DigitRun(t);
    if k == 0 then None else Some((sign * NumberOf(t[..k]), t[k..]))
  }

  /** A scanned decimal: the integer part, the digits after the point and how many there were. */
  datatype Decimal = Decimal(whole: nat, frac: nat, places: nat) {
    function Value(): real { whole as real + frac as real / PowerOfTen(places) }
  }

  /** What follows k integer digits of the given value. */
  function ScanFraction(whole: nat, k: nat, rest: string): Option<(Decimal, string)> {
    if rest != "" && rest[0] == '.' then
      var s := rest[1..];
      var f := DigitRun(s);
      if k + f == 0 then None else Some((Decimal(whole, NumberOf(s[..f]), f), s[f..]))
    else if k == 0 then None
    else Some((Decimal(whole, 0, 0), rest))
  }

  /** Digits, an optional point and digits; at least one digit in all. */
  function ScanDecimal(t: string): Option<(Decimal, string)> {
    var k := DigitRun(t);
    ScanFraction(NumberOf(t[..k]), k, t[k..])
  }

  /** The %f conversion on decimal notation: white space, an optional sign, a decimal. */
  function ScanFloat(s: string): Option<(real, string)> {
    var (sign, t) := SignOf(SkipSpace(s));
    match ScanDecimal(t)
    case None => None
    case Some((x, rest)) => Some((sign as real * x.Value(), rest))
  }

  function ScanLiteral(lit: string, s: string): Option<string> {
    if lit <= s then Some(s[|lit|..]) else None
  }

  lemma {:induction false} DigitRunStops(d: string, rest: string)
    requires forall c :: c in d ==> IsDigit(c)
    requires rest == "" || !IsDigit(rest[0])
    ensures DigitRun(d + rest) == |d|
  {
    if d == "" {
      assert d + rest == rest;
    } else {
      assert (d + rest)[1..] == d[1..] + rest;
      assert d[0] in d;
      DigitRunStops(d[1..], rest);
    }
  }

  lemma {:induction false} NumberOfDigits(n: nat)
    ensures NumberOf(Digits(n)) == n
  {
    if n >= 10 {
      NumberOfDigits(n / 10);
      assert Digits(n)[..|Digits(n)| - 1] == Digits(n / 10);
    } else {
      assert Digits(n)[..0] == "";
    }
  }

  lemma ScanLiteralPrefix(lit: string, rest: string)
    ensures ScanLiteral(lit, lit + rest) == Some(rest)
  {
  }

  /** A literal that differs from the text at some position does not match. */
  lemma ScanLiteralDiffers(lit: string, other: string, rest: string, k: nat)
    requires k < |lit| && k < |other| && lit[k] != other[k]
    ensures ScanLiteral(lit, other + rest) == None
  {
  }

  lemma UnsignedText(d: string, rest: string)
    requires d != "" && forall c :: c in d ==> IsDigit(c)
    ensures SignOf(SkipSpace(d + rest)) == (1, d + rest)
  {
    assert d[0] in d && (d + rest)[0] == d[0];
  }

  /** Scanning what was printed gives the number back and leaves the rest of the line. */
  lemma ScanIntDigits(n: nat, rest: string)
    requires rest == "" || !IsDigit(rest[0])
    ensures ScanInt(Digits(n) + rest) == Some((n, rest))
  {
    var d := Digits(n);
    UnsignedText(d, rest);
    DigitRunStops(d, rest);
    NumberOfDigits(n);
    assert (d + rest)[..|d|] == d && (d + rest)[|d|..] == rest;
  }

  lemma TakeDrop(a: string, b: string)
    ensures (a + b)[..|a|] == a && (a + b)[|a|..] == b
    ensures a != "" ==> (a + b)[0] == a[0]
  {
  }

  lemma ScanFractionParts(whole: nat, k: nat, f: string, rest: string)
    requires k > 0 && (forall c :: c in f ==> IsDigit(c)) && (rest == "" || !IsDigit(rest[0]))
    ensures ScanFraction(whole, k, ['.'] + (f + rest)) == Some((Decimal(whole, NumberOf(f), |f|), rest))
  {
    TakeDrop(['.'], f + rest);
    DigitRunStops(f, rest);
    TakeDrop(f, rest);
  }

  lemma ScanDecimalParts(d: string, f: string, rest: string)
    requires d != "" && (forall c :: c in d ==> IsDigit(c)) && (forall c :: c in f ==> IsDigit(c))
    requires rest == "" || !IsDigit(rest[0])
    ensures ScanDecimal(d + (['.'] + (f + rest))) == Some((Decimal(NumberOf(d), NumberOf(f), |f|), rest))
  {
    var tail := ['.'] + (f + rest);
    DigitRunStops(d, tail);
    TakeDrop(d, tail);
    ScanFractionParts(NumberOf(d), |d|, f, rest);
  }

  lemma DecimalTenths(n: nat)
    ensures |Digits(n % 10)| == 1
    ensures Decimal(n / 10, n % 10, 1).Value() == n as real / 10.0
  {
  }

  lemma ScanFloatFixed1(n: nat, rest: string)
    requires rest == "" || !IsDigit(rest[0])
    ensures ScanFloat(Fixed1(n, rest)) == Some((n as real / 10.0, rest))
  {
    var d, f := Digits(n / 10), Digits(n % 10);
    UnsignedText(d, ['.'] + (f + rest));
    ScanDecimalParts(d, f, rest);
    NumberOfDigits(n / 10);
    NumberOfDigits(n % 10);
    DecimalTenths(n);
  }

  // ------------------------------------------------------------------ lines

  function LineEnd(s: string): (e: nat)
    ensures e <= |s| && (e < |s| ==> s[e] == '\n') && forall i :: 0 <= i < e ==> s[i] != '\n'
  {
    if s == "" || s[0] == '\n' then 0 else 1 + LineEnd(s[1..])
  }

  /** What remains after the first line and its newline. */
  function AfterLine(s: string): (r: string)
    ensures s != "" ==> |r| < |s|
  {
    var e := LineEnd(s);
    if e < |s| then s[e + 1..] else ""
  }

  function SplitLines(s: string): seq<string>
    decreases |s|
  {
    if s == "" then [] else [s[..LineEnd(s)]] + SplitLines(AfterLine(s))
  }

  function JoinLines(lines: seq<string>): string {
    if lines == [] then "" else lines[0] + "\n" + JoinLines(lines[1..])
  }

  lemma LineEndAt(l: string, rest: string)
    requires '\n' !in l
    ensures LineEnd(l + "\n" + rest) == |l|
  {
    var s := l + "\n" + rest;
    assert s[|l|] == '\n';
    assert forall i :: 0 <= i < |l| ==> s[i] == l[i] && l[i] in l;
  }

  lemma {:induction false} SplitJoined(lines: seq<string>)
    requires forall l :: l in lines ==> '\n' !in l
    ensures SplitLines(JoinLines(lines)) == lines
  {
    if lines != [] {
      var l, rest := lines[0], JoinLines(lines[1..]);
      var s := l + "\n" + rest;
      LineEndAt(l, rest);
      assert s[..|l|] == l && s[|l| + 1..] == rest;
      SplitJoined(lines[1..]);
      assert lines == [l] + lines[1..];
    }
  }

  /** The C string seen by the scanner: up to the first NUL. */
  function CString(s: string): string {
    if s == "" || s[0] == '\0' then "" else [s[0]] + CString(s[1..])
  }

  /** A line as the scanner sees it, empty when the reader skips it. */
  function LineText(raw: string): string {
    var l := if raw != "" && raw[|raw| - 1] == '\r' then raw[..|raw| - 1] else raw;
    if |l| >= LINE_CAPACITY then "" else CString(l)
  }

  predicate Plain(s: string) {
    forall c :: c in s ==> c != '\n' && c != '\r' && c != '\0'
  }

  lemma {:induction false} CStringPlain(s: string)
    requires Plain(s)
    ensures CString(s) == s
  {
    if s != "" {
      assert s[0] in s;
      assert forall c :: c in s[1..] ==> c in s;
      CStringPlain(s[1..]);
    }
  }

  lemma LineTextPlain(s: string)
    requires Plain(s) && |s| < LINE_CAPACITY
    ensures LineText(s) == s
  {
    if s != "" { assert s[|s| - 1] in s; }
    CStringPlain(s);
  }

  // ------------------------------------------------------------------ grammar

  /** PROFILE_<int><tag><int> */
  function TaggedOf(tag: string, s: string): Option<(int, int)> {
    match ScanLiteral("PROFILE_", s)
    case None => None
    case Some(a) =>
      match ScanInt(a)
      case None => None
      case Some((p, b)) =>
        match ScanLiteral(tag, b)
        case None => None
        case Some(c) =>
          match ScanInt(c)
          case None => None
          case Some((v, _)) => Some((p, v))
  }

  function HeaderOf(s: string): Option<(int, int)> { TaggedOf("_POINTS=", s) }

  function CustomOf(s: string): Option<(int, int)> { TaggedOf("_CUSTOM=", s) }

  /** <float>,<float> */
  function PairOf(s: string): Option<Point> {
    match ScanFloat(s)
    case None => None
    case Some((t, a)) =>
      match ScanLiteral(",", a)
      case None => None
      case Some(b) =>
        match ScanFloat(b)
        case None => None
        case Some((v, _)) => Some(Point(t, v))
  }

  /** PT_<int>=<float>,<float> */
  function PointOf(s: string): Option<Point> {
    match ScanLiteral("PT_", s)
    case None => None
    case Some(a) =>
      match ScanInt(a)
      case None => None
      case Some((_, b)) =>
        match ScanLiteral("=", b)
        case None => None
        case Some(c) => PairOf(c)
  }

  /** Everything the reader can learn from one line. */
  datatype LineView = LineView(
    header: Option<(int, int)>, flag: Option<(int, int)>, point: Option<Point>, profile: bool)

  function ViewOf(raw: string): LineView {
    var s := LineText(raw);
    LineView(HeaderOf(s), CustomOf(s), PointOf(s), "PROFILE_" <= s)
  }

  function MapLines(view: string -> LineView, lines: seq<string>): (vs: seq<LineView>)
    ensures |vs| == |lines| && forall i :: 0 <= i < |lines| ==> vs[i] == view(lines[i])
  {
    seq(|lines|, i requires 0 <= i < |lines| => view(lines[i]))
  }

  function Views(lines: seq<string>): seq<LineView> {
    MapLines(ViewOf, lines)
  }

  datatype Block = Block(points: seq<Point>, custom: bool, used: nat)

  /** Reads points until enough were seen; a line of another profile stops it without being used. */
  function ParseBlock(lines: seq<LineView>, prof: int, want: nat, points: seq<Point>, custom: bool): (b: Block)
    requires |points| <= want
    ensures b.used <= |lines| && |b.points| <= want
  {
    if lines == [] || |points| == want then Block(points, custom, 0)
    else
      var LineView(_, flag, pt, profile) := lines[0];
      if flag.Some? && flag.value.0 == prof then
        var b := ParseBlock(lines[1..], prof, want, points, flag.value.1 != 0);
        b.(used := b.used + 1)
      else if pt.Some? then
        var b := ParseBlock(lines[1..], prof, want, points + [pt.value], custom);
        b.(used := b.used + 1)
      else if profile then Block(points, custom, 0)
      else
        var b := ParseBlock(lines[1..], prof, want, points, custom);
        b.(used := b.used + 1)
  }

  datatype Update = Update(prof: nat, points: seq<Point>, custom: bool)

  predicate HeaderAccepted(h: Option<(int, int)>) {
    h.Some? && 0 <= h.value.0 <= 3 && MIN_POINTS <= h.value.1 <= MAX_POINTS
  }

  /** The curve updates a file asks for, in order. */
  function ParseLines(lines: seq<LineView>): (us: seq<Update>)
    ensures forall i :: 0 <= i < |us| ==> us[i].prof <= 3 && MIN_POINTS <= |us[i].points| <= MAX_POINTS
  {
    if lines == [] then []
    else
      var h := lines[0].header;
      if HeaderAccepted(h) then
        var b := ParseBlock(lines[1..], h.value.0, h.value.1, [], true);
        var rest := ParseLines(lines[1 + b.used..]);
        if |b.points| == h.value.1 then [Update(h.value.0, b.points, b.custom)] + rest else rest
      else ParseLines(lines[1..])
  }

  // ------------------------------------------------------------------ printing

  /** Rounding to one decimal, ties to even, of a non-negative value. */
  function Tenths(x: real): (n: nat)
    requires x >= 0.0
    ensures x * 10.0 - 0.5 <= n as real <= x * 10.0 + 0.5
  {
    var q := (x * 10.0).Floor;
    var r := x * 10.0 - q as real;
    if r < 0.5 || (r == 0.5 && q % 2 == 0) then q else q + 1
  }

  function Rounded(x: real): real
    requires x >= 0.0
  {
    Tenths(x) as real / 10.0
  }

  /** Rounding keeps order and fixes whole tenths. */
  lemma RoundedMonotone(x: real, y: real)
    requires 0.0 <= x <= y
    ensures Rounded(x) <= Rounded(y)
  {
    var a, b := (x * 10.0).Floor, (y * 10.0).Floor;
    assert a <= b;
  }

  lemma RoundedTenth(n: nat)
    ensures Rounded(n as real / 10.0) == n as real / 10.0
  {
  }

  predicate NonNegative(points: seq<Point>) {
    forall i :: 0 <= i < |points| ==> points[i].temp >= 0.0 && points[i].speed >= 0.0
  }

  function PointLine(i: nat, pt: Point): string
    requires pt.temp >= 0.0 && pt.speed >= 0.0
  {
    "PT_" + (Digits(i) + (['='] + Fixed1(Tenths(pt.temp), [','] + Fixed1(Tenths(pt.speed), ""))))
  }

  function TaggedLine(p: nat, tag: string, v: nat): string {
    "PROFILE_" + (Digits(p) + (tag + Digits(v)))
  }

  function HeaderLine(p: nat, n: nat): string { TaggedLine(p, "_POINTS=", n) }

  function CustomLine(p: nat, custom: bool): string { TaggedLine(p, "_CUSTOM=", if custom then 1 else 0) }

  function PointLines(points: seq<Point>): seq<string>
    requires NonNegative(points)
  {
    seq(|points|, i requires 0 <= i < |points| => PointLine(i, points[i]))
  }

  function RoundedPoints(points: seq<Point>): seq<Point>
    requires NonNegative(points)
  {
    seq(|points|, i requires 0 <= i < |points| => Point(Rounded(points[i].temp), Rounded(points[i].speed)))
  }

  lemma TaggedLineParses(p: nat, tag: string, v: nat)
    requires tag != "" && !IsDigit(tag[0])
    ensures TaggedOf(tag, TaggedLine(p, tag, v)) == Some((p, v))
  {
    ScanLiteralPrefix("PROFILE_", Digits(p) + (tag + Digits(v)));
    ScanIntDigits(p, tag + Digits(v));
    ScanLiteralPrefix(tag, Digits(v));
    assert Digits(v) + "" == Digits(v);
    ScanIntDigits(v, "");
  }

  lemma PairParses(pt: Point)
    requires pt.temp >= 0.0 && pt.speed >= 0.0
    ensures PairOf(Fixed1(Tenths(pt.temp), [','] + Fixed1(Tenths(pt.speed), "")))
         == Some(Point(Rounded(pt.temp), Rounded(pt.speed)))
  {
    var g := Fixed1(Tenths(pt.speed), "");
    ScanFloatFixed1(Tenths(pt.temp), [','] + g);
    ScanLiteralPrefix(",", g);
    ScanFloatFixed1(Tenths(pt.speed), "");
  }

  /** A printed point line gives back the rounded point and is not taken for a flag line. */
  lemma PointLineParses(i: nat, pt: Point)
    requires pt.temp >= 0.0 && pt.speed >= 0.0
    ensures PointOf(PointLine(i, pt)) == Some(Point(Rounded(pt.temp), Rounded(pt.speed)))
    ensures CustomOf(PointLine(i, pt)) == None
  {
    var f := Fixed1(Tenths(pt.temp), [','] + Fixed1(Tenths(pt.speed), ""));
    var body := Digits(i) + (['='] + f);
    ScanLiteralPrefix("PT_", body);
    ScanLiteralDiffers("PROFILE_", "PT_", body, 1);
    ScanIntDigits(i, ['='] + f);
    ScanLiteralPrefix("=", f);
    PairParses(pt);
  }

  function Pow10(k: nat): nat {
    if k == 0 then 1 else 10 * Pow10(k - 1)
  }

  lemma {:induction false} DigitsLength(n: nat, k: nat)
    requires k > 0 && n < Pow10(k)
    ensures |Digits(n)| <= k
  {
    assert Pow10(1) == 10 * Pow10(0) == 10;
    if n >= 10 {
      assert Pow10(k) == 10 * Pow10(k - 1);
      DigitsLength(n / 10, k - 1);
    }
  }

  lemma SmallDigits(n: nat)
    requires n < 10000
    ensures |Digits(n)| <= 4
  {
    assert Pow10(4) == 10 * (10 * (10 * (10 * Pow10(0))));
    DigitsLength(n, 4);
  }

  lemma PlainConcat(a: string, b: string)
    requires Plain(a) && Plain(b)
    ensures Plain(a + b)
  {
  }

  lemma PlainFixed1(n: nat, rest: string)
    requires n < 10000 && Plain(rest)
    ensures Plain(Fixed1(n, rest)) && |Fixed1(n, rest)| <= 9 + |rest|
  {
    SmallDigits(n / 10);
    SmallDigits(n % 10);
    PlainConcat(Digits(n % 10), rest);
    PlainConcat(['.'], Digits(n % 10) + rest);
    PlainConcat(Digits(n / 10), ['.'] + (Digits(n % 10) + rest));
  }

  lemma PointLinePlain(i: nat, pt: Point)
    requires i < 10000 && 0.0 <= pt.temp <= 100.0 && 0.0 <= pt.speed <= 100.0
    ensures LineText(PointLine(i, pt)) == PointLine(i, pt) && '\n' !in PointLine(i, pt)
  {
    var g := Fixed1(Tenths(pt.speed), "");
    var f := Fixed1(Tenths(pt.temp), [','] + g);
    SmallDigits(i);
    PlainFixed1(Tenths(pt.speed), "");
    PlainConcat([','], g);
    PlainFixed1(Tenths(pt.temp), [','] + g);
    PlainConcat(['='], f);
    PlainConcat(Digits(i), ['='] + f);
    PlainConcat("PT_", Digits(i) + (['='] + f));
    LineTextPlain(PointLine(i, pt));
  }

  lemma TaggedLinePlain(p: nat, tag: string, v: nat)
    requires p < 10000 && v < 10000 && |tag| <= 20 && Plain(tag)
    ensures LineText(TaggedLine(p, tag, v)) == TaggedLine(p, tag, v) && '\n' !in TaggedLine(p, tag, v)
  {
    SmallDigits(p); SmallDigits(v);
    PlainConcat(tag, Digits(v));
    PlainConcat(Digits(p), tag + Digits(v));
    PlainConcat("PROFILE_", Digits(p) + (tag + Digits(v)));
    LineTextPlain(TaggedLine(p, tag, v));
  }

  lemma HeaderLinePlain(p: nat, n: nat, custom: bool)
    requires p < 10000 && n < 10000
    ensures LineText(HeaderLine(p, n)) == HeaderLine(p, n) && '\n' !in HeaderLine(p, n)
    ensures LineText(CustomLine(p, custom)) == CustomLine(p, custom) && '\n' !in CustomLine(p, custom)
  {
    TaggedLinePlain(p, "_POINTS=", n);
    TaggedLinePlain(p, "_CUSTOM=", if custom then 1 else 0);
  }

  predicate InRange(points: seq<Point>) {
    forall i :: 0 <= i < |points| ==> 0.0 <= points[i].temp <= 100.0 && 0.0 <= points[i].speed <= 100.0
  }

  function CurveLines(p: nat, points: seq<Point>, custom: bool): seq<string>
    requires NonNegative(points)
  {
    [HeaderLine(p, |points|), CustomLine(p, custom)] + PointLines(points)
  }

  /** How the printed lines of one curve look to the reader. */
  ghost predicate CurveViews(views: seq<LineView>, p: nat, points: seq<Point>, custom: bool) {
    && |views| == |points| + 2
    && views[0].header == Some((p, |points|))
    && views[1].flag == Some((p, if custom then 1 else 0))
    && forall i :: 2 <= i < |views| ==> ShowsPoint(views[i], points[i - 2])
  }

  ghost predicate ShowsPoint(v: LineView, pt: Point) {
    v.flag == None && v.point == Some(pt)
  }

  lemma TaggedViews(p: nat, n: nat, custom: bool)
    requires p < 10000 && n < 10000
    ensures ViewOf(HeaderLine(p, n)).header == Some((p, n))
    ensures ViewOf(CustomLine(p, custom)).flag == Some((p, if custom then 1 else 0))
  {
    HeaderLinePlain(p, n, custom);
    TaggedLineParses(p, "_POINTS=", n);
    TaggedLineParses(p, "_CUSTOM=", if custom then 1 else 0);
  }

  lemma PointView(i: nat, pt: Point)
    requires i < 10000 && 0.0 <= pt.temp <= 100.0 && 0.0 <= pt.speed <= 100.0
    ensures ShowsPoint(ViewOf(PointLine(i, pt)), Point(Rounded(pt.temp), Rounded(pt.speed)))
  {
    PointLinePlain(i, pt);
    PointLineParses(i, pt);
  }

  lemma ViewsOfCurve(view: string -> LineView, lines: seq<string>, p: nat, r: seq<Point>, custom: bool)
    requires |lines| == |r| + 2 && view(lines[0]).header == Some((p, |r|))
    requires view(lines[1]).flag == Some((p, if custom then 1 else 0))
    requires forall i :: 2 <= i < |lines| ==> ShowsPoint(view(lines[i]), r[i - 2])
    ensures CurveViews(MapLines(view, lines), p, r, custom)
  {
  }

  lemma PrintedCurveViews(p: nat, points: seq<Point>, custom: bool)
    requires p <= 3 && InRange(points) && |points| <= MAX_POINTS
    ensures CurveViews(Views(CurveLines(p, points, custom)), p, RoundedPoints(points), custom)
  {
    var lines, r := CurveLines(p, points, custom), RoundedPoints(points);
    TaggedViews(p, |points|, custom);
    forall i | 2 <= i < |lines| ensures ShowsPoint(ViewOf(lines[i]), r[i - 2]) {
      assert lines[i] == PointLine(i - 2, points[i - 2]);
      PointView(i - 2, points[i - 2]);
    }
    ViewsOfCurve(ViewOf, lines, p, r, custom);
  }

  lemma CurveLinesSplit(p: nat, points: seq<Point>, custom: bool)
    requires p <= 3 && InRange(points) && |points| <= MAX_POINTS
    ensures forall l :: l in CurveLines(p, points, custom) ==> '\n' !in l
  {
    HeaderLinePlain(p, |points|, custom);
    forall i | 0 <= i < |points| ensures '\n' !in PointLine(i, points[i]) {
      PointLinePlain(i, points[i]);
    }
  }

  /** The inner reader takes exactly the point lines that follow. */
  lemma {:induction false} ReadsPoints(views: seq<LineView>, r: seq<Point>, from: nat, prof: int, custom: bool)
    requires from <= |r| <= |views|
    requires forall i :: 0 <= i < |r| ==> ShowsPoint(views[i], r[i])
    ensures ParseBlock(views[from..], prof, |r|, r[..from], custom) == Block(r, custom, |r| - from)
    decreases |r| - from
  {
    if from == |r| {
      assert r[..from] == r;
    } else {
      assert views[from..][0] == views[from] && views[from..][1..] == views[from + 1..];
      assert r[..from] + [r[from]] == r[..from + 1];
      ReadsPoints(views, r, from + 1, prof, custom);
    }
  }

  /** The lines of one curve parse to one update carrying its points and flag. */
  lemma CurveViewsParse(views: seq<LineView>, rest: seq<LineView>, p: nat, points: seq<Point>, custom: bool)
    requires p <= 3 && MIN_POINTS <= |points| <= MAX_POINTS && CurveViews(views, p, points, custom)
    ensures ParseLines(views + rest) == [Update(p, points, custom)] + ParseLines(rest)
  {
    var n, all := |points|, views + rest;
    forall i | 0 <= i < n ensures ShowsPoint(all[2..][i], points[i]) {
      assert all[2..][i] == views[i + 2];
    }
    ReadsPoints(all[2..], points, 0, p, custom);
    assert all[2..][0..] == all[2..] && points[..0] == [];
    assert all[1..][0] == views[1] && all[1..][1..] == all[2..];
    var b := ParseBlock(all[1..], p, n, [], true);
    assert b == Block(points, custom, n + 1);
    assert all[1 + b.used..] == rest;
  }
}
