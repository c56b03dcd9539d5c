/** The human-readable summary of an image's EXIF data: an ordered list of
    (key, values) entries, each value a fragment of HTML. The EXIF record is
    abstract (what the image library would read from the file), and the
    formatting the summary borrows from libraries (parsing the timestamp,
    HTML escaping, `.2g` and `.1f` number formatting) is passed in as
    functions. */
module ImageMetadata {
  import opened Wrappers
  import opened Strings

  // ---------------------------------------------------------------------
  // Fractions

  /** A numerator over a denominator: an EXIF rational as stored in the
      file, or a fraction after reduction. */
  datatype Ratio = Ratio(numerator: int, denominator: int)

  function Abs(i: int): nat {
    if i < 0 then -i else i
  }

  /** Greatest common divisor by Euclid's algorithm (the non-negative value
      `math.gcd` returns). */
  function Gcd(a: nat, b: nat): nat
    decreases b
  {
    if b == 0 then a else Gcd(b, a % b)
  }

  /** Floor division, the `//` operator of the source language. */
  function FloorDiv(a: int, b: int): int
    requires b != 0
  {
    if b > 0 then a / b else (-a) / (-b)
  }

  /** A fraction in lowest terms with a positive denominator. */
  predicate Reduced(f: Ratio) {
    f.denominator > 0 && Gcd(Abs(f.numerator), f.denominator) == 1
  }

  /** Two ratios stand for the same number. */
  predicate SameValue(f: Ratio, g: Ratio) {
    f.numerator * g.denominator == g.numerator * f.denominator
  }

  /** The constructor of a fraction from a numerator and a non-zero
      denominator: both are divided by their greatest common divisor, whose
      sign is taken from the denominator so that the result's denominator
      is positive. */
  function MakeFraction(n: int, d: int): (f: Ratio)
    requires d != 0
  {
    var g: int := Gcd(Abs(n), Abs(d));
    GcdPositive(Abs(n), Abs(d));
    var s := if d < 0 then -g else g;
    Ratio(FloorDiv(n, s), FloorDiv(d, s))
  }

  /** An EXIF rational as a fraction: none when the value is missing or its
      denominator is zero, otherwise the same number in lowest terms. */
  function ExifToFraction(value: Option<Ratio>): (r: Option<Ratio>)
    ensures r.None? <==> value.None? || value.value.denominator == 0
    ensures r.Some? ==> Reduced(r.value) && SameValue(r.value, value.value)
  {
    if value.None? || value.value.denominator == 0 then None
    else
      MakeFractionReduced(value.value.numerator, value.value.denominator);
      Some(MakeFraction(value.value.numerator, value.value.denominator))
  }

  lemma {:induction false} GcdPositive(a: nat, b: nat)
    requires a > 0 || b > 0
    ensures Gcd(a, b) > 0
    decreases b
  {
    if b != 0 {
      GcdPositive(b, a % b);
    }
  }

  lemma MulDistributes(a: int, b: int, m: int)
    ensures a * m - b * m == (a - b) * m
  {
  }

  lemma MulAtLeast(k: int, m: int)
    requires k >= 1 && m > 0
    ensures k * m >= m
  {
  }

  /** Division with remainder has exactly one answer. */
  lemma DivModUnique(x: int, m: int, q: int, r: int)
    requires m > 0 && 0 <= r < m && x == q * m + r
    ensures x / m == q && x % m == r
  {
    var q', r' := x / m, x % m;
    assert q' * m + r' == q * m + r;
    MulDistributes(q, q', m);
    MulDistributes(q', q, m);
    if q > q' {
      MulAtLeast(q - q', m);
    } else if q < q' {
      MulAtLeast(q' - q, m);
    }
  }

  lemma MulAddAssoc(q: int, u: int, v: int, g: int)
    ensures q * (u * g) + v * g == (q * u + v) * g
  {
  }

  lemma MulAddScale(q: int, b: int, r: int, k: int)
    ensures (q * b + r) * k == q * (b * k) + r * k
  {
  }

  lemma MulStrict(r: int, b: int, k: int)
    requires r < b && k > 0
    ensures r * k < b * k
  {
    MulDistributes(b, r, k);
    MulAtLeast(b - r, k);
  }

  lemma MulCancel(x: int, g: int)
    requires g > 0 && x * g == g
    ensures x == 1
  {
    MulDistributes(x, 1, g);
    if x > 1 {
      MulAtLeast(x - 1, g);
    } else if x < 1 {
      MulAtLeast(1 - x, g);
      MulDistributes(1, x, g);
    }
  }

  lemma MulSwap(c: int, b: int, g: int)
    ensures c * (b * g) == (c * g) * b
  {
  }

  /** An exact quotient. */
  lemma ExactDiv(x: int, c: int, g: int)
    requires g > 0 && x == c * g
    ensures x / g == c
  {
    DivModUnique(x, g, c, 0);
  }

  /** The greatest common divisor divides both numbers. */
  lemma {:induction false} GcdDivides(a: nat, b: nat)
    requires a > 0 || b > 0
    ensures Gcd(a, b) > 0
    ensures a == (a / Gcd(a, b)) * Gcd(a, b)
    ensures b == (b / Gcd(a, b)) * Gcd(a, b)
    decreases b
  {
    GcdPositive(a, b);
    if b != 0 {
      var g := Gcd(b, a % b);
      GcdDivides(b, a % b);
      var q, r, u, v := a / b, a % b, b / g, (a % b) / g;
      assert a == q * b + r;
      assert b == u * g && r == v * g;
      MulAddAssoc(q, u, v, g);
      ExactDiv(a, q * u + v, g);
    }
  }

  /** Scaling both numbers scales their greatest common divisor. */
  lemma {:induction false} GcdScale(a: nat, b: nat, k: nat)
    ensures Gcd(a * k, b * k) == Gcd(a, b) * k
    decreases b
  {
    if b != 0 && k != 0 {
      var q, r := a / b, a % b;
      assert a == q * b + r;
      MulAddScale(q, b, r, k);
      MulStrict(r, b, k);
      DivModUnique(a * k, b * k, q, r * k);
      GcdScale(b, r, k);
    }
  }

  /** Numbers whose greatest common divisor is `g`, divided by `g`, have
      greatest common divisor one. */
  lemma DividedCoprime(x: nat, y: nat, g: nat)
    requires g > 0 && Gcd(x * g, y * g) == g
    ensures Gcd(x, y) == 1
  {
    GcdScale(x, y, g);
    MulCancel(Gcd(x, y), g);
  }

  /** The numerator (with the sign of the number) over `g`. */
  function SignedQuotient(n: int, d: int, x: nat): int {
    var q: int := x;
    if (n < 0) == (d < 0) then q else -q
  }

  lemma MulNeg(x: int, g: int)
    ensures (-x) * g == -(x * g)
  {
  }

  /** Floor division of both numbers by `g`, signed like the denominator. */
  lemma FloorDivParts(n: int, d: int, g: int, x: nat, y: nat)
    requires d != 0 && g > 0 && Abs(n) == x * g && Abs(d) == y * g
    ensures var s := if d < 0 then -g else g;
      FloorDiv(n, s) == SignedQuotient(n, d, x) && FloorDiv(d, s) == y
  {
    var n' := if d < 0 then -n else n;
    var c := SignedQuotient(n, d, x);
    MulNeg(x, g);
    assert n' == c * g;
    ExactDiv(n', c, g);
    ExactDiv(Abs(d), y, g);
  }

  lemma SignedSameValue(n: int, d: int, g: int, x: nat, y: nat)
    requires d != 0 && g > 0 && Abs(n) == x * g && Abs(d) == y * g
    ensures SignedQuotient(n, d, x) * d == n * y
  {
    var c := SignedQuotient(n, d, x);
    MulNeg(x, g);
    MulNeg(y, g);
    MulSwap(x, y, g);
    MulNeg(x, y * g);
    MulNeg(x * g, y);
  }

  lemma MakeFractionReduced(n: int, d: int)
    requires d != 0
    ensures Reduced(MakeFraction(n, d))
    ensures SameValue(MakeFraction(n, d), Ratio(n, d))
  {
    var a, b := Abs(n), Abs(d);
    var g := Gcd(a, b);
    GcdDivides(a, b);
    var x, y := a / g, b / g;
    DividedCoprime(x, y, g);
    FloorDivParts(n, d, g, x, y);
    SignedSameValue(n, d, g, x, y);
    assert MakeFraction(n, d) == Ratio(SignedQuotient(n, d, x), y);
  }

  // ---------------------------------------------------------------------
  // Text helpers

  /** The characters `str.isspace` accepts, which `str.strip` removes. */
  predicate IsSpace(c: char) {
    ('\t' <= c <= '\r') || ('\U{1C}' <= c <= ' ') || c == '\U{85}'
    || c == '\U{A0}' || c == '\U{1680}' || ('\U{2000}' <= c <= '\U{200A}')
    || c == '\U{2028}' || c == '\U{2029}' || c == '\U{202F}'
    || c == '\U{205F}' || c == '\U{3000}'
  }

  /** `s` without its leading white space. */
  function StripStart(s: string): string
    decreases |s|
  {
    if s != [] && IsSpace(s[0]) then StripStart(s[1..]) else s
  }

  /** `s` without its trailing white space. */
  function StripEnd(s: string): string
    decreases |s|
  {
    if s != [] && IsSpace(s[|s| - 1]) then StripEnd(s[..|s| - 1]) else s
  }

  /** `StripStart` removes a run of white space and stops at the first
      other character. */
  lemma {:induction false} StripStartSpec(s: string)
    ensures var r := StripStart(s);
      |r| <= |s| && r == s[|s| - |r|..]
      && (r == [] || !IsSpace(r[0]))
      && forall i :: 0 <= i < |s| - |r| ==> IsSpace(s[i])
    decreases |s|
  {
    if s != [] && IsSpace(s[0]) {
      StripStartSpec(s[1..]);
    }
  }

  /** `StripEnd` removes a run of white space and stops at the last other
      character. */
  lemma {:induction false} StripEndSpec(s: string)
    ensures var r := StripEnd(s);
      |r| <= |s| && r == s[..|r|]
      && (r == [] || !IsSpace(r[|r| - 1]))
      && forall i :: |r| <= i < |s| ==> IsSpace(s[i])
    decreases |s|
  {
    if s != [] && IsSpace(s[|s| - 1]) {
      StripEndSpec(s[..|s| - 1]);
    }
  }

  /** `str.strip()`: white space removed from both ends. */
  function Strip(s: string): (r: string)
    ensures r == [] || (!IsSpace(r[0]) && !IsSpace(r[|r| - 1]))
  {
    StripStartSpec(s);
    StripEndSpec(StripStart(s));
    StripEnd(StripStart(s))
  }

  /** What `Strip` keeps is one stretch of `s`, and everything before and
      after it is white space. */
  lemma StripSpans(s: string)
    ensures var k := |s| - |StripStart(s)|; var r := Strip(s);
      0 <= k && k + |r| <= |s| && r == s[k..k + |r|]
      && (forall i :: 0 <= i < k ==> IsSpace(s[i]))
      && (forall i :: k + |r| <= i < |s| ==> IsSpace(s[i]))
  {
    var t := StripStart(s);
    var r := Strip(s);
    var k := |s| - |t|;
    StripStartSpec(s);
    StripEndSpec(t);
    assert t == s[k..];
    assert r == t[..|r|];
    forall i | k + |r| <= i < |s|
      ensures IsSpace(s[i])
    {
      assert s[i] == t[i - k];
    }
  }

  /** The five characters markupsafe escapes, and how. */
  function EscapeHtmlChar(c: char): (r: string)
    ensures |r| >= 1
  {
    if c == '&' then "&amp;"
    else if c == '<' then "&lt;"
    else if c == '>' then "&gt;"
    else if c == '"' then "&#34;"
    else if c == '\'' then "&#39;"
    else [c]
  }

  predicate Markup(c: char) {
    c == '<' || c == '>' || c == '"' || c == '\''
  }

  /** `markupsafe.escape` of a string. */
  function EscapeHtml(s: string): string
    decreases |s|
  {
    if s == [] then [] else EscapeHtmlChar(s[0]) + EscapeHtml(s[1..])
  }

  /** Escaped text holds no markup character. */
  lemma {:induction false} EscapeHtmlNoMarkup(s: string)
    ensures forall i :: 0 <= i < |EscapeHtml(s)| ==> !Markup(EscapeHtml(s)[i])
    decreases |s|
  {
    if s != [] {
      EscapeHtmlNoMarkup(s[1..]);
      var c, r := EscapeHtmlChar(s[0]), EscapeHtml(s[1..]);
      assert forall i :: 0 <= i < |c| ==> !Markup(c[i]);
      assert forall i :: |c| <= i < |c + r| ==> (c + r)[i] == r[i - |c|];
    }
  }

  /** The inverse of `EscapeHtml`: the five entities become their
      characters again. */
  function UnescapeHtml(s: string): (r: string)
    decreases |s|
  {
    if s == [] then []
    else if s[0] == '&' && StartsWith(s, "&amp;") then "&" + UnescapeHtml(s[5..])
    else if s[0] == '&' && StartsWith(s, "&lt;") then "<" + UnescapeHtml(s[4..])
    else if s[0] == '&' && StartsWith(s, "&gt;") then ">" + UnescapeHtml(s[4..])
    else if s[0] == '&' && StartsWith(s, "&#34;") then "\"" + UnescapeHtml(s[5..])
    else if s[0] == '&' && StartsWith(s, "&#39;") then "'" + UnescapeHtml(s[5..])
    else [s[0]] + UnescapeHtml(s[1..])
  }

  lemma UnescapeHtmlChar(c: char, t: string)
    ensures UnescapeHtml(EscapeHtmlChar(c) + t) == [c] + UnescapeHtml(t)
  {
    var e := EscapeHtmlChar(c);
    var s := e + t;
    assert s[..|e|] == e && s[|e|..] == t;
    if c == '&' {
      assert StartsWith(s, "&amp;");
    } else if c == '<' {
      assert s[1] == 'l' && StartsWith(s, "&lt;");
    } else if c == '>' {
      assert s[1] == 'g' && StartsWith(s, "&gt;");
    } else if c == '"' {
      assert s[1] == '#' && s[2] == '3' && StartsWith(s, "&#34;");
    } else if c == '\'' {
      assert s[1] == '#' && s[2] == '3' && s[3] == '9' && StartsWith(s, "&#39;");
    } else {
      assert s[0] == c && s[1..] == t;
    }
  }

  /** Escaping loses nothing: unescaping gives the text back. */
  lemma {:induction false} UnescapeEscapeHtml(s: string)
    ensures UnescapeHtml(EscapeHtml(s)) == s
    decreases |s|
  {
    if s != [] {
      UnescapeHtmlChar(s[0], EscapeHtml(s[1..]));
      UnescapeEscapeHtml(s[1..]);
      assert [s[0]] + s[1..] == s;
    }
  }

  /** Text with no character to escape is left as it is. */
  lemma {:induction false} EscapeHtmlPlain(s: string)
    requires forall i :: 0 <= i < |s| ==> !Markup(s[i]) && s[i] != '&'
    ensures EscapeHtml(s) == s
    decreases |s|
  {
    if s != [] {
      EscapeHtmlPlain(s[1..]);
      assert [s[0]] + s[1..] == s;
    }
  }

  // ---------------------------------------------------------------------
  // The summary

  /** What the image library reads from the file. Text values are as they
      are stored; numbers the summary turns into text are integers. */
  datatype Exif = Exif(
    width: nat,
    height: nat,
    dateTimeOriginal: Option<string>,
    make: Option<string>,
    model: Option<string>,
    fNumber: Option<Ratio>,
    exposureTime: Option<Ratio>,
    focalLength: Option<Ratio>,
    focalLengthIn35mmFilm: Option<int>,
    isoSpeedRatings: Option<int>,
    software: Option<string>,
    processingSoftware: Option<string>)

  /** Library formatting the summary relies on: the timestamp read with the
      pattern `%Y:%m:%d %H:%M:%S` and written back in ISO form with a space
      between date and time (none when it does not match the pattern), and
      a fraction written with two significant digits (`.2g`) or with one
      decimal (`.1f`). */
  datatype Formatters = Formatters(
    timestamp: string -> Option<string>,
    twoSignificant: Ratio -> string,
    oneDecimal: Ratio -> string)

  datatype Key = Taken | Camera | Resolution | Aperture | ExposureTime | FocalLength | Iso | Software

  function KeyName(k: Key): string {
    match k
    case Taken => "Taken"
    case Camera => "Camera"
    case Resolution => "Resolution"
    case Aperture => "Aperture"
    case ExposureTime => "Exposure time"
    case FocalLength => "Focal length"
    case Iso => "ISO"
    case Software => "Software"
  }

  /** The position of each key in the summary: Taken, Camera, Resolution,
      Aperture, Exposure time, Focal length, ISO, Software. */
  function Rank(k: Key): nat {
    match k
    case Taken => 0
    case Camera => 1
    case Resolution => 2
    case Aperture => 3
    case ExposureTime => 4
    case FocalLength => 5
    case Iso => 6
    case Software => 7
  }

  datatype Entry = Entry(key: Key, values: seq<string>)

  /** The timestamp does not match its pattern, or the camera is not in the
      table. */
  datatype SummaryError =
    | BadTimestamp(text: string)
    | UnknownCamera(make: Option<string>, model: Option<string>)

  /** The camera names, by (Make, Model): none for an image without either
      tag, and a failed lookup (the outer none) for any other pair. */
  function CameraTable(make: Option<string>, model: Option<string>): Option<Option<string>> {
    if make == Some("Canon") && model == Some("Canon PowerShot A530") then Some(Some("Canon PowerShot A530"))
    else if make == Some("Canon") && model == Some("Canon PowerShot S90") then Some(Some("Canon PowerShot S90"))
    else if make == Some("Panasonic") && model == Some("DMC-GH2") then Some(Some("Panasonic DMC-GH2"))
    else if make.None? && model.None? then Some(None)
    else None
  }

  function TakenText(iso: string): string {
    "<time>" + EscapeHtml(iso) + "</time>"
  }

  function ResolutionText(width: nat, height: nat): string {
    IntToString(width) + " \U{D7} " + IntToString(height)
  }

  function ApertureText(f: Ratio, fmt: Formatters): string {
    "\U{192}\U{2215}" + fmt.twoSignificant(f)
  }

  /** One second or more in decimal, less as a fraction. */
  function ExposureText(f: Ratio, fmt: Formatters): string {
    if f.numerator >= f.denominator then fmt.oneDecimal(f) + "\U{A0}s"
    else IntToString(f.numerator) + "\U{2044}" + IntToString(f.denominator) + "\U{A0}s"
  }

  /** `str` of a fraction: the numerator alone when the denominator is one. */
  function FractionText(f: Ratio): string {
    if f.denominator == 1 then IntToString(f.numerator)
    else IntToString(f.numerator) + "/" + IntToString(f.denominator)
  }

  function FocalLengthText(f: Ratio): string {
    FractionText(f) + "\U{A0}mm"
  }

  function Equivalent35mmText(mm: int): string {
    EscapeHtml(IntToString(mm) + "\U{A0}mm (35\U{A0}mm equivalent)")
  }

  function SoftwareText(tag: string): string {
    EscapeHtml(Strip(tag))
  }

  function NonEmpty(values: seq<string>): Option<seq<string>> {
    if values == [] then None else Some(values)
  }

  function ApertureField(x: Exif, fmt: Formatters): Option<seq<string>> {
    match ExifToFraction(x.fNumber)
    case None => None
    case Some(f) => Some([ApertureText(f, fmt)])
  }

  function ExposureField(x: Exif, fmt: Formatters): Option<seq<string>> {
    match ExifToFraction(x.exposureTime)
    case None => None
    case Some(f) => Some([ExposureText(f, fmt)])
  }

  /** The Focal length values: the focal length, then its 35 mm
      equivalent, each when present. */
  function FocalLengthParts(x: Exif): seq<string> {
    var focalLength := ExifToFraction(x.focalLength);
    (if focalLength.Some? then [FocalLengthText(focalLength.value)] else [])
      + (if x.focalLengthIn35mmFilm.Some? then [Equivalent35mmText(x.focalLengthIn35mmFilm.value)] else [])
  }

  function IsoField(x: Exif): Option<seq<string>> {
    match x.isoSpeedRatings
    case None => None
    case Some(iso) => Some([EscapeHtml(IntToString(iso))])
  }

  /** The Software values of the tags that are present, in order. */
  function SoftwareValues(tags: seq<Option<string>>): (r: seq<string>)
    ensures |r| <= |tags|
  {
    if tags == [] then []
    else
      var last := tags[|tags| - 1];
      SoftwareValues(tags[..|tags| - 1]) + (if last.Some? then [SoftwareText(last.value)] else [])
  }

  function SoftwareTags(x: Exif): seq<Option<string>> {
    [x.software, x.processingSoftware]
  }

  /** The values of the Taken entry, or the failure to read the timestamp. */
  function TakenField(x: Exif, fmt: Formatters): Result<Option<seq<string>>, SummaryError> {
    match x.dateTimeOriginal
    case None => Success(None)
    case Some(text) =>
      match fmt.timestamp(text)
      case None => Failure(BadTimestamp(text))
      case Some(iso) => Success(Some([TakenText(iso)]))
  }

  function CameraField(x: Exif): Result<Option<seq<string>>, SummaryError> {
    match CameraTable(x.make, x.model)
    case None => Failure(UnknownCamera(x.make, x.model))
    case Some(None) => Success(None)
    case Some(Some(name)) => Success(Some([name]))
  }

  /** The values of each key, none for a key left out; `taken` and
      `camera` are the values the table and the timestamp gave. */
  function Field(x: Exif, fmt: Formatters, taken: Option<seq<string>>, camera: Option<seq<string>>, k: Key): Option<seq<string>> {
    match k
    case Taken => taken
    case Camera => camera
    case Resolution => Some([ResolutionText(x.width, x.height)])
    case Aperture => ApertureField(x, fmt)
    case ExposureTime => ExposureField(x, fmt)
    case FocalLength => NonEmpty(FocalLengthParts(x))
    case Iso => IsoField(x)
    case Software => NonEmpty(SoftwareValues(SoftwareTags(x)))
  }

  function AppendField(entries: seq<Entry>, k: Key, field: Option<seq<string>>): seq<Entry> {
    if field.Some? then entries + [Entry(k, field.value)] else entries
  }

  /** The key at each position of the summary. */
  function KeyAt(i: nat): (k: Key)
    requires i < 8
    ensures Rank(k) == i
  {
    [Taken, Camera, Resolution, Aperture, ExposureTime, FocalLength, Iso, Software][i]
  }

  /** The entries of the first `n` keys of the summary. */
  function Stage(x: Exif, fmt: Formatters, taken: Option<seq<string>>, camera: Option<seq<string>>, n: nat): seq<Entry>
    requires n <= 8
  {
    if n == 0 then []
    else AppendField(Stage(x, fmt, taken, camera, n - 1), KeyAt(n - 1), Field(x, fmt, taken, camera, KeyAt(n - 1)))
  }

  /** The entries of the summary, key by key: `Stage` of all eight keys
      written out. */
  function Assemble(x: Exif, fmt: Formatters, taken: Option<seq<string>>, camera: Option<seq<string>>): seq<Entry> {
    var e := AppendField([], Taken, taken);
    var e := AppendField(e, Camera, camera);
    var e := AppendField(e, Resolution, Some([ResolutionText(x.width, x.height)]));
    var e := AppendField(e, Aperture, ApertureField(x, fmt));
    var e := AppendField(e, ExposureTime, ExposureField(x, fmt));
    var e := AppendField(e, FocalLength, NonEmpty(FocalLengthParts(x)));
    var e := AppendField(e, Iso, IsoField(x));
    AppendField(e, Software, NonEmpty(SoftwareValues(SoftwareTags(x))))
  }

  /** The summary: the ordered entries, or the failure that stops it. */
  function Summary(x: Exif, fmt: Formatters): (r: Result<seq<Entry>, SummaryError>)
    ensures r.Failure? <==> TakenField(x, fmt).Failure? || CameraTable(x.make, x.model).None?
  {
    match TakenField(x, fmt)
    case Failure(e) => Failure(e)
    case Success(taken) =>
      match CameraField(x)
      case Failure(e) => Failure(e)
      case Success(camera) => Success(Assemble(x, fmt, taken, camera))
  }

  /** The Focal length values, collected one after the other. */
  method CollectFocalLength(x: Exif) returns (parts: seq<string>)
    ensures parts == FocalLengthParts(x)
  {
    parts := [];
    var focalLength := ExifToFraction(x.focalLength);
    if focalLength.Some? {
      parts := parts + [FocalLengthText(focalLength.value)];
    }
    if x.focalLengthIn35mmFilm.Some? {
      parts := parts + [Equivalent35mmText(x.focalLengthIn35mmFilm.value)];
    }
  }

  /** The Software values, collected tag by tag. */
  method CollectSoftware(tags: seq<Option<string>>) returns (software: seq<string>)
    ensures software == SoftwareValues(tags)
  {
    software := [];
    for i := 0 to |tags|
      invariant software == SoftwareValues(tags[..i])
    {
      if tags[i].Some? {
        software := software + [SoftwareText(tags[i].value)];
      }
      assert tags[..i + 1][..i] == tags[..i];
    }
    assert tags[..|tags|] == tags;
  }

  /** The summary, built by appending one entry after another. */
  method HumanReadableHtml(x: Exif, fmt: Formatters) returns (r: Result<seq<Entry>, SummaryError>)
    ensures r == Summary(x, fmt)
  {
    var result: seq<Entry> := [];
    if x.dateTimeOriginal.Some? {
      var iso := fmt.timestamp(x.dateTimeOriginal.value);
      if iso.None? {
        return Failure(BadTimestamp(x.dateTimeOriginal.value));
      }
      result := result + [Entry(Taken, [TakenText(iso.value)])];
    }
    var camera := CameraTable(x.make, x.model);
    if camera.None? {
      return Failure(UnknownCamera(x.make, x.model));
    }
    ghost var e := AppendField([], Taken, TakenField(x, fmt).value);
    assert result == e;
    if camera.value.Some? {
      result := result + [Entry(Camera, [camera.value.value])];
    }
    e := AppendField(e, Camera, CameraField(x).value);
    assert result == e;
    result := AppendExposure(x, fmt, result);
    result := AppendOthers(x, fmt, result);
    return Success(result);
  }

  /** The entries after the camera: resolution, aperture and exposure time. */
  function Exposure(x: Exif, fmt: Formatters, e: seq<Entry>): seq<Entry> {
    var e := AppendField(e, Resolution, Some([ResolutionText(x.width, x.height)]));
    var e := AppendField(e, Aperture, ApertureField(x, fmt));
    AppendField(e, ExposureTime, ExposureField(x, fmt))
  }

  /** The last entries: focal length, ISO and software. */
  function Others(x: Exif, fmt: Formatters, e: seq<Entry>): seq<Entry> {
    var e := AppendField(e, FocalLength, NonEmpty(FocalLengthParts(x)));
    var e := AppendField(e, Iso, IsoField(x));
    AppendField(e, Software, NonEmpty(SoftwareValues(SoftwareTags(x))))
  }

  method AppendExposure(x: Exif, fmt: Formatters, entries: seq<Entry>) returns (result: seq<Entry>)
    ensures result == Exposure(x, fmt, entries)
  {
    result := entries + [Entry(Resolution, [ResolutionText(x.width, x.height)])];
    var fNumber := ExifToFraction(x.fNumber);
    if fNumber.Some? {
      result := result + [Entry(Aperture, [ApertureText(fNumber.value, fmt)])];
    }
    var exposure := ExifToFraction(x.exposureTime);
    if exposure.Some? {
      result := result + [Entry(ExposureTime, [ExposureText(exposure.value, fmt)])];
    }
  }

  method AppendOthers(x: Exif, fmt: Formatters, entries: seq<Entry>) returns (result: seq<Entry>)
    ensures result == Others(x, fmt, entries)
  {
    result := entries;
    var focalLengthParts := CollectFocalLength(x);
    if focalLengthParts != [] {
      result := result + [Entry(FocalLength, focalLengthParts)];
    }
    if x.isoSpeedRatings.Some? {
      result := result + [Entry(Iso, [EscapeHtml(IntToString(x.isoSpeedRatings.value))])];
    }
    var software := CollectSoftware(SoftwareTags(x));
    if software != [] {
      result := result + [Entry(Software, software)];
    }
  }

  // ---------------------------------------------------------------------
  // Properties of the summary

  /** Each key's entry comes after the entries of the keys before it. */
  predicate Ordered(es: seq<Entry>) {
    forall i, j :: 0 <= i < j < |es| ==> Rank(es[i].key) < Rank(es[j].key)
  }

  predicate Below(es: seq<Entry>, n: nat) {
    forall i :: 0 <= i < |es| ==> Rank(es[i].key) < n
  }

  predicate Filled(es: seq<Entry>) {
    forall i :: 0 <= i < |es| ==> es[i].values != []
  }

  /** The value a dictionary built from the entries holds for `name`: the
      last entry with that key wins. */
  function Lookup(es: seq<Entry>, name: string): Option<seq<string>> {
    if es == [] then None
    else if KeyName(es[|es| - 1].key) == name then Some(es[|es| - 1].values)
    else Lookup(es[..|es| - 1], name)
  }

  /** Different keys have different names. */
  lemma KeyNameInjective(k: Key, k': Key)
    requires KeyName(k) == KeyName(k')
    ensures k == k'
  {
    assert KeyName(k)[0] == KeyName(k')[0];
    if |KeyName(k)| > 1 {
      assert KeyName(k)[1] == KeyName(k')[1];
    }
  }

  lemma AppendOrdered(es: seq<Entry>, k: Key, f: Option<seq<string>>)
    requires Ordered(es) && Below(es, Rank(k)) && Filled(es)
    requires f.Some? ==> f.value != []
    ensures var r := AppendField(es, k, f); Ordered(r) && Below(r, Rank(k) + 1) && Filled(r)
  {
  }

  lemma LookupAppend(es: seq<Entry>, k: Key, f: Option<seq<string>>, k': Key)
    ensures Lookup(AppendField(es, k, f), KeyName(k')) == if k == k' && f.Some? then f else Lookup(es, KeyName(k'))
  {
    if f.Some? {
      var r := es + [Entry(k, f.value)];
      assert r[..|r| - 1] == es;
      if KeyName(k) == KeyName(k') {
        KeyNameInjective(k, k');
      }
    }
  }

  /** Every field that is present has a value. */
  lemma FieldFilled(x: Exif, fmt: Formatters, taken: Option<seq<string>>, camera: Option<seq<string>>, k: Key)
    requires taken.Some? ==> taken.value != []
    requires camera.Some? ==> camera.value != []
    ensures var f := Field(x, fmt, taken, camera, k); f.Some? ==> f.value != []
  {
  }

  /** The entries of the first `n` keys come in the order of their keys
      and none is empty. */
  lemma {:induction false} StageOrdered(x: Exif, fmt: Formatters, taken: Option<seq<string>>, camera: Option<seq<string>>, n: nat)
    requires n <= 8
    requires taken.Some? ==> taken.value != []
    requires camera.Some? ==> camera.value != []
    ensures var e := Stage(x, fmt, taken, camera, n); Ordered(e) && Below(e, n) && Filled(e)
  {
    if n > 0 {
      StageOrdered(x, fmt, taken, camera, n - 1);
      FieldFilled(x, fmt, taken, camera, KeyAt(n - 1));
      AppendOrdered(Stage(x, fmt, taken, camera, n - 1), KeyAt(n - 1), Field(x, fmt, taken, camera, KeyAt(n - 1)));
    }
  }

  /** Looking a key up in the entries of the first `n` keys gives that
      key's values if it is among them. */
  lemma {:induction false} LookupStage(x: Exif, fmt: Formatters, taken: Option<seq<string>>, camera: Option<seq<string>>, n: nat, k: Key)
    requires n <= 8
    ensures Lookup(Stage(x, fmt, taken, camera, n), KeyName(k)) == if Rank(k) < n then Field(x, fmt, taken, camera, k) else None
  {
    if n > 0 {
      var last := KeyAt(n - 1);
      LookupStage(x, fmt, taken, camera, n - 1, k);
      LookupAppend(Stage(x, fmt, taken, camera, n - 1), last, Field(x, fmt, taken, camera, last), k);
      if Rank(k) == n - 1 {
        RankInjective(k, last);
      }
    }
  }

  lemma RankInjective(k: Key, k': Key)
    requires Rank(k) == Rank(k')
    ensures k == k'
  {
  }

  /** The summary is the entries of all eight keys. */
  lemma AssembleStage(x: Exif, fmt: Formatters, taken: Option<seq<string>>, camera: Option<seq<string>>)
    ensures Assemble(x, fmt, taken, camera) == Stage(x, fmt, taken, camera, 8)
  {
    var e := AppendField([], Taken, taken);
    assert e == Stage(x, fmt, taken, camera, 1);
    e := AppendField(e, Camera, camera);
    assert e == Stage(x, fmt, taken, camera, 2);
    e := AppendField(e, Resolution, Some([ResolutionText(x.width, x.height)]));
    assert e == Stage(x, fmt, taken, camera, 3);
    e := AppendField(e, Aperture, ApertureField(x, fmt));
    assert e == Stage(x, fmt, taken, camera, 4);
    e := AppendField(e, ExposureTime, ExposureField(x, fmt));
    assert e == Stage(x, fmt, taken, camera, 5);
    e := AppendField(e, FocalLength, NonEmpty(FocalLengthParts(x)));
    assert e == Stage(x, fmt, taken, camera, 6);
    e := AppendField(e, Iso, IsoField(x));
    assert e == Stage(x, fmt, taken, camera, 7);
  }

  /** Looking a key up in a successful summary gives that key's field. */
  lemma SummaryLookup(x: Exif, fmt: Formatters, k: Key)
    requires Summary(x, fmt).Success?
    ensures Lookup(Summary(x, fmt).value, KeyName(k))
      == Field(x, fmt, TakenField(x, fmt).value, CameraField(x).value, k)
  {
    AssembleStage(x, fmt, TakenField(x, fmt).value, CameraField(x).value);
    LookupStage(x, fmt, TakenField(x, fmt).value, CameraField(x).value, 8, k);
  }

  /** The entries of a summary come in the order Taken, Camera,
      Resolution, Aperture, Exposure time, Focal length, ISO, Software;
      every entry has a value; and no key name appears twice, so a
      dictionary built from the entries keeps all of them. */
  lemma SummaryOrdered(x: Exif, fmt: Formatters)
    requires Summary(x, fmt).Success?
    ensures var es := Summary(x, fmt).value;
      Ordered(es) && Filled(es)
      && forall i, j :: 0 <= i < j < |es| ==> KeyName(es[i].key) != KeyName(es[j].key)
  {
    var taken, camera := TakenField(x, fmt).value, CameraField(x).value;
    AssembleStage(x, fmt, taken, camera);
    StageOrdered(x, fmt, taken, camera, 8);
    var es := Summary(x, fmt).value;
    forall i, j | 0 <= i < j < |es|
      ensures KeyName(es[i].key) != KeyName(es[j].key)
    {
      if KeyName(es[i].key) == KeyName(es[j].key) {
        KeyNameInjective(es[i].key, es[j].key);
      }
    }
  }

  /** A timestamp that does not match its pattern stops the summary. */
  lemma TimestampFailure(x: Exif, fmt: Formatters)
    requires x.dateTimeOriginal.Some? && fmt.timestamp(x.dateTimeOriginal.value).None?
    ensures Summary(x, fmt) == Failure(BadTimestamp(x.dateTimeOriginal.value))
  {
  }

  lemma TakenEntry(x: Exif, fmt: Formatters)
    requires Summary(x, fmt).Success?
    ensures Lookup(Summary(x, fmt).value, "Taken")
      == if x.dateTimeOriginal.None? then None
         else Some(["<time>" + EscapeHtml(fmt.timestamp(x.dateTimeOriginal.value).value) + "</time>"])
  {
    SummaryLookup(x, fmt, Taken);
  }

  /** The (Make, Model) pairs the camera table knows. */
  const KnownCameras: set<(Option<string>, Option<string>)> := {
    (Some("Canon"), Some("Canon PowerShot A530")),
    (Some("Canon"), Some("Canon PowerShot S90")),
    (Some("Panasonic"), Some("DMC-GH2")),
    (None, None)
  }

  /** Any other pair stops the summary, unless the timestamp already did. */
  lemma CameraUnknown(x: Exif, fmt: Formatters)
    requires TakenField(x, fmt).Success?
    requires (x.make, x.model) !in KnownCameras
    ensures Summary(x, fmt) == Failure(UnknownCamera(x.make, x.model))
  {
  }

  /** An image with neither tag has no Camera entry; a known camera has
      its name from the table. */
  lemma CameraEntry(x: Exif, fmt: Formatters)
    requires Summary(x, fmt).Success?
    ensures (x.make, x.model) in KnownCameras
    ensures Lookup(Summary(x, fmt).value, "Camera").None? <==> x.make.None? && x.model.None?
    ensures x.make == Some("Panasonic") && x.model == Some("DMC-GH2")
      ==> Lookup(Summary(x, fmt).value, "Camera") == Some(["Panasonic DMC-GH2"])
    ensures x.make == Some("Canon") && x.model == Some("Canon PowerShot S90")
      ==> Lookup(Summary(x, fmt).value, "Camera") == Some(["Canon PowerShot S90"])
    ensures x.make == Some("Canon") && x.model == Some("Canon PowerShot A530")
      ==> Lookup(Summary(x, fmt).value, "Camera") == Some(["Canon PowerShot A530"])
  {
    SummaryLookup(x, fmt, Camera);
  }

  /** Every summary has the Resolution entry "W × H". */
  lemma ResolutionAlwaysPresent(x: Exif, fmt: Formatters)
    requires Summary(x, fmt).Success?
    ensures Lookup(Summary(x, fmt).value, "Resolution")
      == Some([IntToString(x.width) + " \U{D7} " + IntToString(x.height)])
  {
    SummaryLookup(x, fmt, Resolution);
  }

  /** The aperture is there exactly when the f-number is a fraction with a
      non-zero denominator. */
  lemma ApertureEntry(x: Exif, fmt: Formatters)
    requires Summary(x, fmt).Success?
    ensures Lookup(Summary(x, fmt).value, "Aperture").None?
      <==> x.fNumber.None? || x.fNumber.value.denominator == 0
    ensures Lookup(Summary(x, fmt).value, "Aperture").Some? ==>
      Lookup(Summary(x, fmt).value, "Aperture") == Some(["\U{192}\U{2215}" + fmt.twoSignificant(ExifToFraction(x.fNumber).value)])
  {
    SummaryLookup(x, fmt, Aperture);
  }

  /** An exposure shorter than a second is written as its reduced
      fraction, "num⁄den s"; a longer one with one decimal. */
  lemma ExposureEntry(x: Exif, fmt: Formatters)
    requires Summary(x, fmt).Success?
    ensures Lookup(Summary(x, fmt).value, "Exposure time").None?
      <==> x.exposureTime.None? || x.exposureTime.value.denominator == 0
    ensures var t := ExifToFraction(x.exposureTime);
      t.Some? && t.value.numerator < t.value.denominator ==>
        Reduced(t.value) && SameValue(t.value, x.exposureTime.value)
        && Lookup(Summary(x, fmt).value, "Exposure time")
           == Some([IntToString(t.value.numerator) + "\U{2044}" + IntToString(t.value.denominator) + "\U{A0}s"])
    ensures var t := ExifToFraction(x.exposureTime);
      t.Some? && t.value.numerator >= t.value.denominator ==>
        Lookup(Summary(x, fmt).value, "Exposure time") == Some([fmt.oneDecimal(t.value) + "\U{A0}s"])
  {
    SummaryLookup(x, fmt, ExposureTime);
  }

  lemma FocalLengthPartsOrder(x: Exif)
    ensures var f, e := ExifToFraction(x.focalLength), x.focalLengthIn35mmFilm;
      var v := NonEmpty(FocalLengthParts(x));
      (v.None? <==> f.None? && e.None?)
      && (f.Some? && e.Some? ==> v == Some([FocalLengthText(f.value), Equivalent35mmText(e.value)]))
      && (f.Some? && e.None? ==> v == Some([FocalLengthText(f.value)]))
      && (f.None? && e.Some? ==> v == Some([Equivalent35mmText(e.value)]))
  {
    var f, e := ExifToFraction(x.focalLength), x.focalLengthIn35mmFilm;
    var first: seq<string> := if f.Some? then [FocalLengthText(f.value)] else [];
    var second: seq<string> := if e.Some? then [Equivalent35mmText(e.value)] else [];
    assert FocalLengthParts(x) == first + second;
    if f.Some? && e.Some? {
      assert first + second == [FocalLengthText(f.value), Equivalent35mmText(e.value)];
    } else if f.Some? {
      assert first + second == first;
    } else if e.Some? {
      assert first + second == second;
    }
  }

  lemma SoftwarePartsOrder(x: Exif)
    ensures var a, b := x.software, x.processingSoftware;
      var v := NonEmpty(SoftwareValues(SoftwareTags(x)));
      (v.None? <==> a.None? && b.None?)
      && (a.Some? && b.Some? ==> v == Some([SoftwareText(a.value), SoftwareText(b.value)]))
      && (a.Some? && b.None? ==> v == Some([SoftwareText(a.value)]))
      && (a.None? && b.Some? ==> v == Some([SoftwareText(b.value)]))
  {
    var a, b := x.software, x.processingSoftware;
    var first: seq<string> := if a.Some? then [SoftwareText(a.value)] else [];
    var second: seq<string> := if b.Some? then [SoftwareText(b.value)] else [];
    var tags := SoftwareTags(x);
    assert tags[..1] == [a] && [a][..0] == [];
    assert SoftwareValues([a]) == first;
    assert SoftwareValues(tags) == first + second;
    if a.Some? && b.Some? {
      assert first + second == [SoftwareText(a.value), SoftwareText(b.value)];
    } else if a.Some? {
      assert first + second == first;
    } else if b.Some? {
      assert first + second == second;
    }
  }

  /** The Focal length entry is there when either part is, with the focal
      length first and its 35 mm equivalent second. */
  lemma FocalLengthEntry(x: Exif, fmt: Formatters)
    requires Summary(x, fmt).Success?
    ensures var f, e := ExifToFraction(x.focalLength), x.focalLengthIn35mmFilm;
      var v := Lookup(Summary(x, fmt).value, "Focal length");
      (v.None? <==> f.None? && e.None?)
      && (f.Some? && e.Some? ==> v == Some([FocalLengthText(f.value), Equivalent35mmText(e.value)]))
      && (f.Some? && e.None? ==> v == Some([FocalLengthText(f.value)]))
      && (f.None? && e.Some? ==> v == Some([Equivalent35mmText(e.value)]))
  {
    SummaryLookup(x, fmt, FocalLength);
    FocalLengthPartsOrder(x);
  }

  /** The ISO entry is the speed rating's digits. */
  lemma IsoEntry(x: Exif, fmt: Formatters)
    requires Summary(x, fmt).Success?
    ensures Lookup(Summary(x, fmt).value, "ISO")
      == if x.isoSpeedRatings.None? then None else Some([IntToString(x.isoSpeedRatings.value)])
  {
    SummaryLookup(x, fmt, Iso);
    if x.isoSpeedRatings.Some? {
      EscapeHtmlPlain(IntToString(x.isoSpeedRatings.value));
    }
  }

  /** Software lists the Software tag, then the ProcessingSoftware tag,
      each stripped, and only those present. */
  lemma SoftwareEntry(x: Exif, fmt: Formatters)
    requires Summary(x, fmt).Success?
    ensures var a, b := x.software, x.processingSoftware;
      var v := Lookup(Summary(x, fmt).value, "Software");
      (v.None? <==> a.None? && b.None?)
      && (a.Some? && b.Some? ==> v == Some([SoftwareText(a.value), SoftwareText(b.value)]))
      && (a.Some? && b.None? ==> v == Some([SoftwareText(a.value)]))
      && (a.None? && b.Some? ==> v == Some([SoftwareText(b.value)]))
  {
    SoftwareLookup(x, fmt);
    SoftwarePartsOrder(x);
  }

  lemma SoftwareLookup(x: Exif, fmt: Formatters)
    requires Summary(x, fmt).Success?
    ensures Lookup(Summary(x, fmt).value, "Software") == NonEmpty(SoftwareValues(SoftwareTags(x)))
  {
    SummaryLookup(x, fmt, Software);
  }

  /** An image without EXIF tags: its summary is the resolution alone. */
  lemma NoTagsSummary(x: Exif, fmt: Formatters)
    requires x.dateTimeOriginal.None? && x.make.None? && x.model.None?
    requires x.fNumber.None? && x.exposureTime.None? && x.focalLength.None?
    requires x.focalLengthIn35mmFilm.None? && x.isoSpeedRatings.None?
    requires x.software.None? && x.processingSoftware.None?
    ensures Summary(x, fmt) == Success([Entry(Resolution, [ResolutionText(x.width, x.height)])])
  {
    FocalLengthPartsOrder(x);
    SoftwarePartsOrder(x);
    assert TakenField(x, fmt) == Success(None) && CameraField(x) == Success(None);
    assert ApertureField(x, fmt).None? && ExposureField(x, fmt).None? && IsoField(x).None?;
    assert SoftwareTags(x) == [None, None];
    assert NonEmpty(FocalLengthParts(x)).None? && NonEmpty(SoftwareValues(SoftwareTags(x))).None?;
    var r := [Entry(Resolution, [ResolutionText(x.width, x.height)])];
    assert AppendField(AppendField([], Taken, None), Camera, None) == [];
    assert AppendField([], Resolution, Some([ResolutionText(x.width, x.height)])) == r;
    assert Assemble(x, fmt, None, None) == r;
    assert Summary(x, fmt) == Success(Assemble(x, fmt, None, None));
  }

  lemma ResolutionFixture()
    ensures ResolutionText(16, 12) == "16 \U{D7} 12"
  {
  }

  /** An exposure of ten 800ths of a second is written "1⁄80 s". */
  lemma ExposureFixture(fmt: Formatters)
    ensures ExifToFraction(Some(Ratio(10, 800))) == Some(Ratio(1, 80))
    ensures ExposureText(Ratio(1, 80), fmt) == "1\U{2044}80\U{A0}s"
  {
  }

  /** A focal length of 420 tenths of a millimetre is written "42 mm". */
  lemma FocalLengthFixture()
    ensures ExifToFraction(Some(Ratio(420, 10))) == Some(Ratio(42, 1))
    ensures FocalLengthText(Ratio(42, 1)) == "42\U{A0}mm"
  {
  }
}
