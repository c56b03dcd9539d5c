/** The metadata of the site's pages: the site itself, error pages,
    standalone pages, blog posts and the paginated post lists. A page's
    metadata is loaded from its template's path and, for standalone pages and
    posts, from the TOML table next to it, given here as an already parsed
    map from keys to values. */
module Metadata {
  import opened Wrappers
  import opened Strings
  import opened SortedSets
  import opened PurePath

  // ---------------------------------------------------------------------
  // The site

  datatype Site = Site(
    url: string,
    title: string,
    author: string,
    email: string,
    language: string,
    direction: string,
    tags: seq<string>)

  const SITE: Site := Site(
    url := "https://david.mandelberg.org",
    title := "David Mandelberg",
    author := "David Mandelberg",
    email := "david@mandelberg.org",
    language := "en-US",
    direction := "ltr",
    tags := ["dance", "music", "photos", "technology", "videos"])

  /** The site's tags are listed in order, each once. */
  lemma SiteTagsSorted()
    ensures StrictlySorted(SITE.tags)
    ensures SortedSet(SITE.tags) == SITE.tags
  {
    var tags := SITE.tags;
    forall i | 0 <= i < |tags| - 1
      ensures StrLess(tags[i], tags[i + 1])
    {
      assert tags[i][0] < tags[i + 1][0];
    }
    SortedByNeighbours(tags);
    SortedSetFixed(tags);
  }

  // ---------------------------------------------------------------------
  // Pages

  datatype Page = Page(urlPath: string, title: string)

  /** The page's absolute URL. */
  function Url(page: Page): (r: string)
    ensures StartsWith(r, SITE.url) && RemovePrefix(r, SITE.url) == page.urlPath
  {
    StartsWithConcat(SITE.url, page.urlPath);
    SITE.url + page.urlPath
  }

  const TitleSeparator: string := " — "

  /** The title with the site's name after it. */
  function FullTitle(page: Page): (r: string)
    ensures StartsWith(r, page.title)
    ensures EndsWith(r, TitleSeparator + SITE.title)
    ensures |r| == |page.title| + |TitleSeparator + SITE.title|
  {
    var r := page.title + (TitleSeparator + SITE.title);
    StartsWithConcat(page.title, TitleSeparator + SITE.title);
    assert r[|r| - |TitleSeparator + SITE.title|..] == TitleSeparator + SITE.title;
    r
  }

  lemma PageFixture()
    ensures Url(Page("/foo/", "Foo")) == "https://david.mandelberg.org" + "/foo/"
    ensures FullTitle(Page("/foo/", "Foo")) == "Foo" + " — " + "David Mandelberg"
  {
  }

  // ---------------------------------------------------------------------
  // Values read from the TOML table

  /** A TOML date-time; a date alone has a midnight time and no offset. */
  datatype DateTime = DateTime(
    year: nat,
    month: nat,
    day: nat,
    hour: nat,
    minute: nat,
    second: nat,
    utcOffsetMinutes: Option<int>)

  /** The TOML values the loaders tell apart; numbers, booleans and tables
      are `TomlOther`. */
  datatype Value =
    | TomlString(text: string)
    | TomlDateTime(at: DateTime)
    | TomlArray(items: seq<Value>)
    | TomlOther

  type Table = map<string, Value>

  datatype LoadError =
    | NotAnInteger(text: string)
    | UnknownStatus(code: int)
    | UnexpectedKeys(keys: set<string>)
    | MissingKey(key: string)
    | WrongType(key: string)
    | NotIterable(key: string)
    | NotRelative(template: Path, base: Path)
    | DateMismatch(dirName: string, prefix: string)
    | UnknownTags(unknown: set<string>)
    | NotSortedAndUnique(tags: seq<string>)

  /** `raw[key]` where the value must be a string. */
  function StringAt(raw: Table, key: string): (r: Result<string, LoadError>)
    ensures r.Success? <==> key in raw && raw[key].TomlString?
    ensures r.Success? ==> r.value == raw[key].text
    ensures r.Failure? ==> r.error == if key in raw then WrongType(key) else MissingKey(key)
  {
    if key !in raw then Failure(MissingKey(key))
    else if !raw[key].TomlString? then Failure(WrongType(key))
    else Success(raw[key].text)
  }

  /** `raw.get(key, default)` where the value must be a string. */
  function StringOr(raw: Table, key: string, default: string): (r: Result<string, LoadError>)
    ensures key !in raw ==> r == Success(default)
    ensures key in raw ==> r == StringAt(raw, key)
  {
    if key !in raw then Success(default) else StringAt(raw, key)
  }

  // ---------------------------------------------------------------------
  // HTTP status codes

  /** The reason phrase of each status code `http.HTTPStatus` knows. */
  function StatusPhrase(code: int): Option<string> {
    match code
    case 100 => Some("Continue")
    case 101 => Some("Switching Protocols")
    case 102 => Some("Processing")
    case 103 => Some("Early Hints")
    case 200 => Some("OK")
    case 201 => Some("Created")
    case 202 => Some("Accepted")
    case 203 => Some("Non-Authoritative Information")
    case 204 => Some("No Content")
    case 205 => Some("Reset Content")
    case 206 => Some("Partial Content")
    case 207 => Some("Multi-Status")
    case 208 => Some("Already Reported")
    case 226 => Some("IM Used")
    case 300 => Some("Multiple Choices")
    case 301 => Some("Moved Permanently")
    case 302 => Some("Found")
    case 303 => Some("See Other")
    case 304 => Some("Not Modified")
    case 305 => Some("Use Proxy")
    case 307 => Some("Temporary Redirect")
    case 308 => Some("Permanent Redirect")
    case 400 => Some("Bad Request")
    case 401 => Some("Unauthorized")
    case 402 => Some("Payment Required")
    case 403 => Some("Forbidden")
    case 404 => Some("Not Found")
    case 405 => Some("Method Not Allowed")
    case 406 => Some("Not Acceptable")
    case 407 => Some("Proxy Authentication Required")
    case 408 => Some("Request Timeout")
    case 409 => Some("Conflict")
    case 410 => Some("Gone")
    case 411 => Some("Length Required")
    case 412 => Some("Precondition Failed")
    case 413 => Some("Content Too Large")
    case 414 => Some("URI Too Long")
    case 415 => Some("Unsupported Media Type")
    case 416 => Some("Range Not Satisfiable")
    case 417 => Some("Expectation Failed")
    case 418 => Some("I'm a Teapot")
    case 421 => Some("Misdirected Request")
    case 422 => Some("Unprocessable Content")
    case 423 => Some("Locked")
    case 424 => Some("Failed Dependency")
    case 425 => Some("Too Early")
    case 426 => Some("Upgrade Required")
    case 428 => Some("Precondition Required")
    case 429 => Some("Too Many Requests")
    case 431 => Some("Request Header Fields Too Large")
    case 451 => Some("Unavailable For Legal Reasons")
    case 500 => Some("Internal Server Error")
    case 501 => Some("Not Implemented")
    case 502 => Some("Bad Gateway")
    case 503 => Some("Service Unavailable")
    case 504 => Some("Gateway Timeout")
    case 505 => Some("HTTP Version Not Supported")
    case 506 => Some("Variant Also Negotiates")
    case 507 => Some("Insufficient Storage")
    case 508 => Some("Loop Detected")
    case 510 => Some("Not Extended")
    case 511 => Some("Network Authentication Required")
    case _ => None
  }

  // ---------------------------------------------------------------------
  // Error pages

  datatype ErrorPage = ErrorPage(urlPath: string, title: string, status: int)

  function ErrorUrlPath(code: int): string {
    "/errors/" + IntToString(code) + "/"
  }

  /** An error page's status is the name of its template's directory. */
  function ErrorLoad(template: Path): (r: Result<ErrorPage, LoadError>)
    ensures r.Success? <==>
      ParseInt(Name(Parent(template))).Some? && StatusPhrase(ParseInt(Name(Parent(template))).value).Some?
    ensures r.Success? ==>
      && r.value.status == ParseInt(Name(Parent(template))).value
      && r.value.urlPath == ErrorUrlPath(r.value.status)
      && r.value.title == IntToString(r.value.status) + " " + StatusPhrase(r.value.status).value
  {
    var text := Name(Parent(template));
    match ParseInt(text)
    case None => Failure(NotAnInteger(text))
    case Some(code) =>
      match StatusPhrase(code)
      case None => Failure(UnknownStatus(code))
      case Some(phrase) =>
        Success(ErrorPage(ErrorUrlPath(code), IntToString(code) + " " + phrase, code))
  }

  lemma NotFoundText()
    ensures IntToString(404) == "404"
    ensures ParseInt("404") == Some(404)
  {
    assert NatToString(4) == "4";
    assert NatToString(40) == NatToString(4) + "0";
    assert NatToString(404) == NatToString(40) + "4";
    ParseIntOfIntToString(404);
  }

  lemma NotFoundPhrase()
    ensures StatusPhrase(404) == Some("Not Found")
  {
  }

  /** The page of status 404, built from its parts. */
  lemma NotFoundPage()
    ensures ErrorPage(ErrorUrlPath(404), IntToString(404) + " " + "Not Found", 404)
      == ErrorPage("/errors/404/", "404 Not Found", 404)
  {
    NotFoundText();
    assert "/errors/" + "404" + "/" == "/errors/404/";
    assert "404" + " " + "Not Found" == "404 Not Found";
  }

  lemma ErrorLoadOf(t: Path, code: int, phrase: string)
    requires ParseInt(Name(Parent(t))) == Some(code) && StatusPhrase(code) == Some(phrase)
    ensures ErrorLoad(t) == Success(ErrorPage(ErrorUrlPath(code), IntToString(code) + " " + phrase, code))
  {
  }

  /** The fixture of the module's tests: `errors/404/index.html.jinja`. */
  lemma ErrorLoadFixture()
    ensures ErrorLoad(Path(NoRoot, ["errors", "404", "index.html.jinja"]))
      == Success(ErrorPage("/errors/404/", "404 Not Found", 404))
  {
    var t := Path(NoRoot, ["errors", "404", "index.html.jinja"]);
    assert Name(Parent(t)) == "404";
    NotFoundText();
    NotFoundPhrase();
    ErrorLoadOf(t, 404, "Not Found");
    NotFoundPage();
  }

  /** The URL path of an error page names its status in decimal, which
      reads back as the status; so two error pages never share a path. */
  lemma ErrorUrlPathReadsBack(code: int)
    ensures var path := ErrorUrlPath(code);
      && StartsWith(path, "/errors/")
      && EndsWith(path, "/")
      && ParseInt(path[8..|path| - 1]) == Some(code)
  {
    var path := ErrorUrlPath(code);
    assert path[..8] == "/errors/";
    assert path[8..|path| - 1] == IntToString(code);
    ParseIntOfIntToString(code);
  }

  lemma ErrorUrlPathInjective(a: int, b: int)
    requires ErrorUrlPath(a) == ErrorUrlPath(b)
    ensures a == b
  {
    ErrorUrlPathReadsBack(a);
    ErrorUrlPathReadsBack(b);
  }

  const ErrorsDir: Path := Path(NoRoot, ["errors"])

  /** The error pages of every template under `errors`, in order; the first
      template that fails to load fails the whole list. */
  function ErrorAll(templates: seq<Path>): (r: Result<seq<ErrorPage>, LoadError>)
    ensures r.Success? ==> |r.value| <= |templates|
    decreases |templates|
  {
    if templates == [] then Success([])
    else if !IsRelativeTo(templates[0], ErrorsDir) then ErrorAll(templates[1..])
    else
      match ErrorLoad(templates[0])
      case Failure(e) => Failure(e)
      case Success(page) =>
        match ErrorAll(templates[1..])
        case Failure(e) => Failure(e)
        case Success(pages) => Success([page] + pages)
  }

  /** The loaded list holds one page per error template, in order. */
  lemma {:induction false} ErrorAllPages(templates: seq<Path>)
    requires ErrorAll(templates).Success?
    ensures var pages := ErrorAll(templates).value;
      forall page :: page in pages <==>
        exists i :: 0 <= i < |templates| && IsRelativeTo(templates[i], ErrorsDir)
          && ErrorLoad(templates[i]) == Success(page)
    decreases |templates|
  {
    if templates != [] {
      var tail := templates[1..];
      ErrorAllPages(tail);
      var pages := ErrorAll(templates).value;
      forall page
        ensures page in pages <==>
          exists i :: 0 <= i < |templates| && IsRelativeTo(templates[i], ErrorsDir)
            && ErrorLoad(templates[i]) == Success(page)
      {
        if exists i :: 0 <= i < |templates| && IsRelativeTo(templates[i], ErrorsDir)
            && ErrorLoad(templates[i]) == Success(page) {
          var i :| 0 <= i < |templates| && IsRelativeTo(templates[i], ErrorsDir)
            && ErrorLoad(templates[i]) == Success(page);
          if i > 0 {
            assert tail[i - 1] == templates[i];
          }
        }
        if page in pages && page !in ErrorAll(tail).value {
          assert ErrorLoad(templates[0]) == Success(page);
        }
        if page in ErrorAll(tail).value {
          var i :| 0 <= i < |tail| && IsRelativeTo(tail[i], ErrorsDir)
            && ErrorLoad(tail[i]) == Success(page);
          assert templates[i + 1] == tail[i];
        }
      }
    }
  }

  // ---------------------------------------------------------------------
  // Standalone pages

  const StandaloneDir: Path := Path(NoRoot, ["standalone"])

  /** A standalone page: its table may hold only a title, and its URL path
      is the template's directory under `standalone`. */
  function StandaloneLoad(template: Path, raw: Table): (r: Result<Page, LoadError>)
    ensures r.Success? <==>
      raw.Keys <= {"title"} && IsRelativeTo(template, StandaloneDir) && StringAt(raw, "title").Success?
    ensures raw.Keys - {"title"} != {} ==> r == Failure(UnexpectedKeys(raw.Keys - {"title"}))
    ensures r.Success? ==>
      && r.value.title == raw["title"].text
      && r.value.urlPath == "/" + Str(Parent(RelativeTo(template, StandaloneDir))) + "/"
  {
    var unexpected := raw.Keys - {"title"};
    if unexpected != {} then Failure(UnexpectedKeys(unexpected))
    else if !IsRelativeTo(template, StandaloneDir) then Failure(NotRelative(template, StandaloneDir))
    else
      var urlPath := "/" + Str(Parent(RelativeTo(template, StandaloneDir))) + "/";
      match StringAt(raw, "title")
      case Failure(e) => Failure(e)
      case Success(title) => Success(Page(urlPath, title))
  }

  /** A template in directories under `standalone` is served at those
      directories; one directly under `standalone` gets the path `/./`. */
  lemma StandaloneUrlPath(dirs: seq<string>, file: string, title: string)
    ensures var template := Path(NoRoot, ["standalone"] + dirs + [file]);
      StandaloneLoad(template, map["title" := TomlString(title)])
        == Success(Page("/" + (if dirs == [] then "." else Join(dirs, "/")) + "/", title))
  {
    var template := Path(NoRoot, ["standalone"] + dirs + [file]);
    StandaloneDirectories(dirs, file);
    var raw := map["title" := TomlString(title)];
    assert raw.Keys - {"title"} == {};
    assert StringAt(raw, "title") == Success(title);
  }

  /** Under `standalone`, a template's directory is the directories in
      between. */
  lemma StandaloneDirectories(dirs: seq<string>, file: string)
    ensures var template := Path(NoRoot, ["standalone"] + dirs + [file]);
      && IsRelativeTo(template, StandaloneDir)
      && Str(Parent(RelativeTo(template, StandaloneDir))) == if dirs == [] then "." else Join(dirs, "/")
  {
    var parts := ["standalone"] + (dirs + [file]);
    assert ["standalone"] + dirs + [file] == parts;
    assert parts[..1] == ["standalone"];
    assert parts[1..] == dirs + [file];
    var relative := Path(NoRoot, dirs + [file]);
    assert (dirs + [file])[..|dirs|] == dirs;
    assert Parent(relative) == Path(NoRoot, dirs);
  }

  /** The standalone pages linked from the navigation, in order. */
  const AboutTemplate: Path := Path(NoRoot, ["standalone", "about", "index.html.jinja"])

  function StandaloneAll(aboutTable: Table): (r: Result<seq<Page>, LoadError>)
    ensures r.Success? <==> StandaloneLoad(AboutTemplate, aboutTable).Success?
    ensures r.Success? ==> r.value == [StandaloneLoad(AboutTemplate, aboutTable).value]
  {
    match StandaloneLoad(AboutTemplate, aboutTable)
    case Failure(e) => Failure(e)
    case Success(page) => Success([page])
  }

  /** The about page's table with only its title gives `/about/`. */
  lemma AboutPage(title: string)
    ensures StandaloneAll(map["title" := TomlString(title)]) == Success([Page("/about/", title)])
  {
    StandaloneUrlPath(["about"], "index.html.jinja", title);
    assert ["standalone"] + ["about"] + ["index.html.jinja"] == AboutTemplate.parts;
    assert "/" + Join(["about"], "/") + "/" == "/about/";
  }

  /** An unexpected key is reported even when the title is fine. */
  lemma StandaloneUnexpectedKey(template: Path, title: string, key: string, value: Value)
    requires key != "title"
    ensures StandaloneLoad(template, map["title" := TomlString(title), key := value])
      == Failure(UnexpectedKeys({key}))
  {
    var raw := map["title" := TomlString(title), key := value];
    assert raw.Keys - {"title"} == {key};
  }

  // ---------------------------------------------------------------------
  // Posts

  datatype Post = Post(
    urlPath: string,
    title: string,
    id: string,
    uuid: string,
    published: DateTime,
    author: string,
    tags: seq<string>)

  /** The tags of a post must all be the site's, checked first, and then
      listed in order without repeats. */
  function CheckTags(tags: seq<string>): (r: Result<seq<string>, LoadError>)
    ensures r.Success? <==> (forall t :: t in tags ==> t in SITE.tags) && StrictlySorted(tags)
    ensures r.Success? ==> r.value == tags
    ensures (exists t :: t in tags && t !in SITE.tags) ==>
      r == Failure(UnknownTags(set t | t in tags && t !in SITE.tags))
  {
    SortedSetFixed(tags);
    if exists t :: t in tags && t !in SITE.tags then
      Failure(UnknownTags(set t | t in tags && t !in SITE.tags))
    else if tags != SortedSet(tags) then Failure(NotSortedAndUnique(tags))
    else Success(tags)
  }

  /** A post built directly, checked as the source's constructor does. */
  function MakePost(urlPath: string, title: string, id: string, uuid: string,
                    published: DateTime, author: string, tags: seq<string>): (r: Result<Post, LoadError>)
    ensures r.Success? <==> CheckTags(tags).Success?
    ensures r.Success? ==> r.value == Post(urlPath, title, id, uuid, published, author, tags)
  {
    match CheckTags(tags)
    case Failure(e) => Failure(e)
    case Success(_) => Success(Post(urlPath, title, id, uuid, published, author, tags))
  }

  /** Year, month and day separated by `sep`: the year as the C library's
      `%Y` prints it, the month and day as two digits (`%m`, `%d`). */
  function DateText(d: DateTime, sep: char): string {
    NatToString(d.year) + [sep] + ZeroPad(d.month, 2) + [sep] + ZeroPad(d.day, 2)
  }

  /** `strftime("%Y-%m-%d-")`. */
  function DatePrefix(d: DateTime): string {
    DateText(d, '-') + "-"
  }

  /** `strftime("%Y/%m/%d")`. */
  function DatePath(d: DateTime): string {
    DateText(d, '/')
  }

  lemma DigitsLack(s: string, c: char)
    requires AllDigits(s) && !IsDigit(c)
    ensures c !in s
  {
  }

  /** Split at a separator that is not a digit, the date text gives back
      the year, month and day. */
  lemma DateTextReadsBack(d: DateTime, sep: char)
    requires !IsDigit(sep)
    ensures var fields := Split(DateText(d, sep), sep);
      && |fields| == 3
      && AllDigits(fields[0]) && DigitsValue(fields[0]) == d.year
      && AllDigits(fields[1]) && DigitsValue(fields[1]) == d.month
      && AllDigits(fields[2]) && DigitsValue(fields[2]) == d.day
  {
    var parts := [NatToString(d.year), ZeroPad(d.month, 2), ZeroPad(d.day, 2)];
    assert Join(parts, [sep]) == DateText(d, sep) by {
      assert parts[1..][1..] == [parts[2]];
      assert Join(parts[1..], [sep]) == parts[1] + [sep] + parts[2];
    }
    DigitsLack(parts[0], sep);
    DigitsLack(parts[1], sep);
    DigitsLack(parts[2], sep);
    SplitJoin(parts, sep);
    NatToStringValue(d.year);
  }

  /** The date in a post's URL path reads back as its publication date. */
  lemma DatePathReadsBack(d: DateTime)
    ensures var fields := Split(DatePath(d), '/');
      && |fields| == 3 && AllDigits(fields[0]) && AllDigits(fields[1]) && AllDigits(fields[2])
      && DigitsValue(fields[0]) == d.year && DigitsValue(fields[1]) == d.month
      && DigitsValue(fields[2]) == d.day
  {
    DateTextReadsBack(d, '/');
  }

  /** The date prefix of a post's directory ends in `-`, and what comes
      before reads back as its publication date. */
  lemma DatePrefixReadsBack(d: DateTime)
    ensures var prefix := DatePrefix(d);
      var fields := Split(prefix[..|prefix| - 1], '-');
      && prefix[|prefix| - 1] == '-'
      && |fields| == 3 && AllDigits(fields[0]) && AllDigits(fields[1]) && AllDigits(fields[2])
      && DigitsValue(fields[0]) == d.year && DigitsValue(fields[1]) == d.month
      && DigitsValue(fields[2]) == d.day
  {
    var prefix := DatePrefix(d);
    assert prefix[..|prefix| - 1] == DateText(d, '-');
    DateTextReadsBack(d, '-');
  }

  /** Two dates with the same prefix are the same day. */
  lemma DatePrefixInjective(a: DateTime, b: DateTime)
    requires DatePrefix(a) == DatePrefix(b)
    ensures a.year == b.year && a.month == b.month && a.day == b.day
  {
    DatePrefixReadsBack(a);
    DatePrefixReadsBack(b);
  }

  const PostKeys: set<string> := {"uuid", "published", "title", "author", "tags"}

  /** `tuple(raw.get("tags", []))`: an array gives its items, a string its
      characters; tags must be strings. */
  function TagsOf(raw: Table): (r: Result<seq<string>, LoadError>)
    ensures "tags" !in raw ==> r == Success([])
    ensures r.Success? && "tags" in raw && raw["tags"].TomlArray? ==>
      |r.value| == |raw["tags"].items|
      && forall i :: 0 <= i < |r.value| ==> raw["tags"].items[i] == TomlString(r.value[i])
  {
    if "tags" !in raw then Success([])
    else
      match raw["tags"]
      case TomlArray(items) => StringItems(items)
      case TomlString(text) => Success(Characters(text))
      case _ => Failure(NotIterable("tags"))
  }

  function StringItems(items: seq<Value>): (r: Result<seq<string>, LoadError>)
    ensures r.Success? <==> forall i :: 0 <= i < |items| ==> items[i].TomlString?
    ensures r.Success? ==>
      |r.value| == |items| && forall i :: 0 <= i < |items| ==> items[i] == TomlString(r.value[i])
  {
    if items == [] then Success([])
    else if !items[0].TomlString? then Failure(WrongType("tags"))
    else
      match StringItems(items[1..])
      case Failure(e) => Failure(e)
      case Success(rest) => Success([items[0].text] + rest)
  }

  /** Each character of a string as a string of its own. */
  function Characters(text: string): (r: seq<string>)
    ensures |r| == |text| && forall i :: 0 <= i < |text| ==> r[i] == [text[i]]
  {
    if text == [] then [] else [[text[0]]] + Characters(text[1..])
  }

  /** Loads a post: the table's keys are checked, then the template's
      directory name against the publication date, then the fields are read
      and the tags checked. */
  function PostLoad(template: Path, raw: Table): (r: Result<Post, LoadError>)
    ensures raw.Keys - PostKeys != {} ==> r == Failure(UnexpectedKeys(raw.Keys - PostKeys))
    ensures r.Success? ==>
      && raw.Keys <= PostKeys
      && "published" in raw && raw["published"].TomlDateTime?
      && r.value.published == raw["published"].at
      && r.value.id == Name(Parent(template))
      && r.value.id == DatePrefix(r.value.published) + RemovePrefix(r.value.id, DatePrefix(r.value.published))
      && r.value.urlPath == "/" + DatePath(r.value.published) + "/"
                            + RemovePrefix(r.value.id, DatePrefix(r.value.published)) + "/"
      && StringAt(raw, "title") == Success(r.value.title)
      && StringAt(raw, "uuid") == Success(r.value.uuid)
      && StringOr(raw, "author", SITE.author) == Success(r.value.author)
      && TagsOf(raw) == Success(r.value.tags)
      && (forall t :: t in r.value.tags ==> t in SITE.tags) && StrictlySorted(r.value.tags)
  {
    var unexpected := raw.Keys - PostKeys;
    if unexpected != {} then Failure(UnexpectedKeys(unexpected))
    else if "published" !in raw then Failure(MissingKey("published"))
    else if !raw["published"].TomlDateTime? then Failure(WrongType("published"))
    else
      var published := raw["published"].at;
      var dirName := Name(Parent(template));
      var prefix := DatePrefix(published);
      if !StartsWith(dirName, prefix) then Failure(DateMismatch(dirName, prefix))
      else
        var slug := RemovePrefix(dirName, prefix);
        var urlPath := "/" + DatePath(published) + "/" + slug + "/";
        match StringAt(raw, "title")
        case Failure(e) => Failure(e)
        case Success(title) =>
          match StringAt(raw, "uuid")
          case Failure(e) => Failure(e)
          case Success(uuid) =>
            match StringOr(raw, "author", SITE.author)
            case Failure(e) => Failure(e)
            case Success(author) =>
              match TagsOf(raw)
              case Failure(e) => Failure(e)
              case Success(tags) => MakePost(urlPath, title, dirName, uuid, published, author, tags)
  }

  /** A post loads when and only when every check passes. */
  lemma PostLoadSucceeds(template: Path, raw: Table)
    ensures PostLoad(template, raw).Success? <==>
      && raw.Keys <= PostKeys
      && "published" in raw && raw["published"].TomlDateTime?
      && StartsWith(Name(Parent(template)), DatePrefix(raw["published"].at))
      && StringAt(raw, "title").Success?
      && StringAt(raw, "uuid").Success?
      && StringOr(raw, "author", SITE.author).Success?
      && TagsOf(raw).Success?
      && CheckTags(TagsOf(raw).value).Success?
  {
  }

  /** A directory name that does not start with the publication date
      fails, whatever else the table holds. */
  lemma PostDateMismatch(template: Path, raw: Table)
    requires raw.Keys <= PostKeys
    requires "published" in raw && raw["published"].TomlDateTime?
    requires !StartsWith(Name(Parent(template)), DatePrefix(raw["published"].at))
    ensures PostLoad(template, raw)
      == Failure(DateMismatch(Name(Parent(template)), DatePrefix(raw["published"].at)))
  {
    assert raw.Keys - PostKeys == {};
  }

  /** An unknown tag is reported before the order of the tags is checked. */
  lemma UnknownTagsFirst(tags: seq<string>, unknown: string)
    requires unknown in tags && unknown !in SITE.tags
    ensures CheckTags(tags).Failure? && CheckTags(tags).error.UnknownTags?
    ensures unknown in CheckTags(tags).error.unknown
  {
  }

  /** Known tags out of order, or repeated, are rejected. */
  lemma TagsOutOfOrder(tags: seq<string>, i: int, j: int)
    requires forall t :: t in tags ==> t in SITE.tags
    requires 0 <= i < j < |tags| && !StrLess(tags[i], tags[j])
    ensures CheckTags(tags) == Failure(NotSortedAndUnique(tags))
  {
    SortedSetFixed(tags);
  }

  /** A table that passes every check loads as the post it describes: the
      slug is what follows the date in the directory name. */
  lemma PostLoadOf(template: Path, raw: Table, slug: string, title: string, uuid: string,
                   author: string, tags: seq<string>)
    requires raw.Keys <= PostKeys
    requires "published" in raw && raw["published"].TomlDateTime?
    requires Name(Parent(template)) == DatePrefix(raw["published"].at) + slug
    requires StringAt(raw, "title") == Success(title)
    requires StringAt(raw, "uuid") == Success(uuid)
    requires StringOr(raw, "author", SITE.author) == Success(author)
    requires TagsOf(raw) == Success(tags)
    requires CheckTags(tags).Success?
    ensures PostLoad(template, raw) == Success(Post(
      "/" + DatePath(raw["published"].at) + "/" + slug + "/", title, Name(Parent(template)),
      uuid, raw["published"].at, author, tags))
  {
    assert raw.Keys - PostKeys == {};
    StartsWithConcat(DatePrefix(raw["published"].at), slug);
  }

  /** The publication date of the loading tests' post. */
  const FixtureDate: DateTime := DateTime(2025, 6, 27, 14, 15, 1, Some(-240))

  lemma FixtureDateText()
    ensures DatePrefix(FixtureDate) == "2025-06-27-"
    ensures DatePath(FixtureDate) == "2025/06/27"
  {
    assert NatToString(2025) == "2025";
    assert ZeroPad(6, 2) == "06";
    assert ZeroPad(27, 2) == "27";
  }

  /** The template of the loading tests' post. */
  const FixtureTemplate: Path := Path(NoRoot, ["posts", "2025-06-27-foo", "index.html.jinja"])

  lemma FixtureDirectory()
    ensures Name(Parent(FixtureTemplate)) == "2025-06-27-foo"
    ensures Name(Parent(FixtureTemplate)) == DatePrefix(FixtureDate) + "foo"
    ensures "/" + DatePath(FixtureDate) + "/" + "foo" + "/" == "/2025/06/27/foo/"
  {
    FixtureDateText();
    assert Parent(FixtureTemplate).parts == ["posts", "2025-06-27-foo"];
  }

  /** The loading test with a uuid, the date and a title only: the site's
      author and no tags. */
  lemma PostLoadFixture(uuid: string)
    ensures PostLoad(FixtureTemplate,
                     map["uuid" := TomlString(uuid), "published" := TomlDateTime(FixtureDate), "title" := TomlString("Foo")])
      == Success(Post("/2025/06/27/foo/", "Foo", "2025-06-27-foo", uuid, FixtureDate, SITE.author, []))
  {
    var raw := map["uuid" := TomlString(uuid), "published" := TomlDateTime(FixtureDate), "title" := TomlString("Foo")];
    FixtureDirectory();
    assert CheckTags([]).Success?;
    PostLoadOf(FixtureTemplate, raw, "foo", "Foo", uuid, SITE.author, []);
  }

  /** The two known tags of the loading test are in order. */
  lemma DanceMusicTags()
    ensures CheckTags(["dance", "music"]).Success?
  {
    assert StrLess("dance", "music") by {
      assert "dance"[0] < "music"[0];
    }
    assert StrictlySorted(["dance", "music"]);
    assert "dance" in SITE.tags && "music" in SITE.tags;
  }

  /** The loading test with an author and the tags `dance` and `music`. */
  lemma PostLoadFixtureTagged(uuid: string, author: string)
    ensures PostLoad(FixtureTemplate,
                     map["uuid" := TomlString(uuid), "published" := TomlDateTime(FixtureDate), "title" := TomlString("Foo"),
                         "author" := TomlString(author), "tags" := TomlArray([TomlString("dance"), TomlString("music")])])
      == Success(Post("/2025/06/27/foo/", "Foo", "2025-06-27-foo", uuid, FixtureDate, author, ["dance", "music"]))
  {
    var raw := map["uuid" := TomlString(uuid), "published" := TomlDateTime(FixtureDate), "title" := TomlString("Foo"),
                   "author" := TomlString(author), "tags" := TomlArray([TomlString("dance"), TomlString("music")])];
    FixtureDirectory();
    var items := [TomlString("dance"), TomlString("music")];
    assert StringItems(items).Success?;
    assert StringItems(items).value == ["dance", "music"];
    DanceMusicTags();
    PostLoadOf(FixtureTemplate, raw, "foo", "Foo", uuid, author, ["dance", "music"]);
  }

  /** The work directory of a post and the two fragments written there. */
  function PostWorkPath(work: Path, post: Post): Path {
    JoinPath(JoinPath(work, "posts"), post.id)
  }

  function IncludeFragmentPath(work: Path, post: Post): Path {
    JoinPath(PostWorkPath(work, post), "include-fragment.html")
  }

  function AtomFragmentPath(work: Path, post: Post): Path {
    JoinPath(PostWorkPath(work, post), "atom-fragment.xml")
  }

  /** A plain file name joined to a directory is a file directly in it. */
  lemma FileInDirectory(dir: Path, file: string)
    requires ValidPart(file)
    ensures Parent(JoinPath(dir, file)) == dir
    ensures Name(JoinPath(dir, file)) == file
  {
    JoinPart(dir, file);
    assert (dir.parts + [file])[..|dir.parts|] == dir.parts;
  }

  /** With a plain directory name as id, the work directory is
      `work/posts/<id>`. */
  lemma PostWorkPathParts(work: Path, post: Post)
    requires ValidPart(post.id)
    ensures PostWorkPath(work, post) == Path(work.root, work.parts + ["posts", post.id])
  {
    JoinPart(work, "posts");
    JoinPart(JoinPath(work, "posts"), post.id);
    assert work.parts + ["posts"] + [post.id] == work.parts + ["posts", post.id];
  }

  /** Each fragment is a file directly in the post's work directory. */
  lemma IncludeFragmentInWorkPath(work: Path, post: Post)
    ensures Parent(IncludeFragmentPath(work, post)) == PostWorkPath(work, post)
    ensures Name(IncludeFragmentPath(work, post)) == "include-fragment.html"
  {
    FileInDirectory(PostWorkPath(work, post), "include-fragment.html");
  }

  lemma AtomFragmentInWorkPath(work: Path, post: Post)
    ensures Parent(AtomFragmentPath(work, post)) == PostWorkPath(work, post)
    ensures Name(AtomFragmentPath(work, post)) == "atom-fragment.xml"
  {
    FileInDirectory(PostWorkPath(work, post), "atom-fragment.xml");
  }

  // ---------------------------------------------------------------------
  // Post lists

  datatype PostList = PostList(urlPath: string, title: string)

  /** Page `n` of a list; the first page is the list itself. No range is
      checked. */
  function ListPage(list: PostList, n: int): (r: Page)
    ensures n == 1 ==> r == Page(list.urlPath, list.title)
    ensures n != 1 ==> StartsWith(r.urlPath, list.urlPath + "page/") && StartsWith(r.title, list.title + " (page ")
  {
    if n == 1 then Page(list.urlPath, list.title)
    else
      var rest := IntToString(n) + "/";
      StartsWithConcat(list.urlPath + "page/", rest);
      StartsWithConcat(list.title + " (page ", IntToString(n) + ")");
      Page(list.urlPath + "page/" + rest, list.title + " (page " + IntToString(n) + ")")
  }

  function FeedUrlPath(list: PostList): string {
    list.urlPath + "feed/"
  }

  /** The page number in a later page's URL path reads back as `n`. */
  lemma ListPageReadsBack(list: PostList, n: int)
    requires n != 1
    ensures var path := ListPage(list, n).urlPath;
      var k := |list.urlPath| + 5;
      && k < |path| && path[|path| - 1] == '/'
      && ParseInt(path[k..|path| - 1]) == Some(n)
  {
    var path := ListPage(list, n).urlPath;
    assert path == list.urlPath + "page/" + IntToString(n) + "/";
    assert path[|list.urlPath| + 5..|path| - 1] == IntToString(n);
    ParseIntOfIntToString(n);
  }

  /** Different page numbers give different pages. */
  lemma ListPageInjective(list: PostList, m: int, n: int)
    requires ListPage(list, m).urlPath == ListPage(list, n).urlPath
    ensures m == n
  {
    if m != 1 && n != 1 {
      ListPageReadsBack(list, m);
      ListPageReadsBack(list, n);
    } else if m != n {
      assert false;
    }
  }

  /** The feed of a list is none of its pages. */
  lemma FeedIsNotAPage(list: PostList, n: int)
    ensures FeedUrlPath(list) != ListPage(list, n).urlPath
  {
    if n != 1 {
      var path := ListPage(list, n).urlPath;
      assert path[|list.urlPath|] == 'p';
      assert FeedUrlPath(list)[|list.urlPath|] == 'f';
    } else {
      assert |FeedUrlPath(list)| > |list.urlPath|;
    }
  }

  lemma ListPageFixture()
    ensures ListPage(BlogMainList, 1) == Page("/", "Blog")
    ensures ListPage(BlogMainList, 2) == Page("/page/2/", "Blog (page 2)")
    ensures FeedUrlPath(BlogMainList) == "/feed/"
  {
    assert IntToString(2) == "2";
  }

  const BlogMainList: PostList := PostList("/", "Blog")

  function TagList(tag: string): PostList {
    PostList("/tag/" + tag + "/", "Tag: " + tag)
  }

  /** One list per site tag. */
  const BlogTagLists: map<string, PostList> := map tag | tag in SITE.tags :: TagList(tag)

  lemma BlogTagListsSpec()
    ensures BlogTagLists.Keys == set t | t in SITE.tags
    ensures forall t :: t in BlogTagLists ==> BlogTagLists[t].urlPath == "/tag/" + t + "/"
  {
  }

  /** Pages of the main list and of a tag list never share a URL path. */
  lemma MainAndTagPagesDistinct(tag: string, m: int, n: int)
    ensures ListPage(BlogMainList, m).urlPath != ListPage(TagList(tag), n).urlPath
  {
    var a := ListPage(BlogMainList, m).urlPath;
    var b := ListPage(TagList(tag), n).urlPath;
    assert b[1] == 't';
    if m != 1 {
      assert a[1] == 'p';
    } else {
      assert |a| == 1;
    }
  }

  /** Pages of two lists of different tags never share a URL path, as long
      as neither tag holds a `/`. */
  lemma TagPagesDistinct(s: string, t: string, m: int, n: int)
    requires s != t && '/' !in s && '/' !in t
    ensures ListPage(TagList(s), m).urlPath != ListPage(TagList(t), n).urlPath
  {
    var a := ListPage(TagList(s), m).urlPath;
    var b := ListPage(TagList(t), n).urlPath;
    assert StartsWith(a, "/tag/" + s + "/");
    assert StartsWith(b, "/tag/" + t + "/");
    if a == b {
      TagsAgree(s, t, a);
    }
  }

  /** Only one tag without a `/` can start a path as `/tag/<tag>/`. */
  lemma TagsAgree(s: string, t: string, path: string)
    requires '/' !in s && '/' !in t
    requires StartsWith(path, "/tag/" + s + "/") && StartsWith(path, "/tag/" + t + "/")
    ensures s == t
  {
    var rest := path[5..];
    assert StartsWith(rest, s + "/") && StartsWith(rest, t + "/") by {
      assert path[..5 + |s| + 1] == "/tag/" + s + "/";
      assert path[..5 + |t| + 1] == "/tag/" + t + "/";
    }
    FirstSlash(s, rest);
    FirstSlash(t, rest);
    assert s == rest[..|s|] == t;
  }

  lemma FirstSlash(x: string, rest: string)
    requires '/' !in x && StartsWith(rest, x + "/")
    ensures '/' in rest && IndexOf(rest, '/') == |x| && rest[..|x|] == x
  {
    assert rest[..|x| + 1] == x + "/";
    assert rest[|x|] == '/';
  }

  /** The navigation: the blog, then the standalone pages. */
  function MainNav(aboutTable: Table): (r: Result<seq<Page>, LoadError>)
    ensures r.Success? <==> StandaloneAll(aboutTable).Success?
    ensures r.Success? ==>
      |r.value| == 2 && r.value[0] == Page("/", "Blog") && r.value[1..] == StandaloneAll(aboutTable).value
  {
    match StandaloneAll(aboutTable)
    case Failure(e) => Failure(e)
    case Success(pages) => Success([ListPage(BlogMainList, 1)] + pages)
  }
}
