/** The compression build step: every page or style sheet is stored
    unencoded and once per content encoding (brotli, gzip, zstd), each
    encoded copy under a non-standard suffix next to the original, and a
    type map (`.var` file) tells the web server which copy has which
    encoding. The encoders themselves are external programs and are not
    modelled; only the names and the type-map text are. */
module Compress {
  import opened Wrappers
  import opened Strings
  import opened PurePath
  import opened Percent
  import opened Ninja

  /** The file next to `input` whose name is the input's name followed by
      `suffix`: `input.parent / (input.name + suffix)`. */
  function OutputPath(input: Path, suffix: string): Path {
    Path(input.root, Parent(input).parts + [Name(input) + suffix])
  }

  /** It is pathlib's `/` for every valid path and suffix. */
  lemma OutputPathJoin(input: Path, suffix: string)
    requires Valid(input) && ValidPart(suffix)
    ensures OutputPath(input, suffix) == JoinPath(Parent(input), Name(input) + suffix)
  {
    OutputPathParts(input, suffix);
    JoinPart(Parent(input), Name(input) + suffix);
  }

  lemma OutputPathParts(input: Path, suffix: string)
    requires Valid(input) && ValidPart(suffix)
    ensures ValidPart(Name(input) + suffix)
    ensures Valid(OutputPath(input, suffix))
    ensures Parent(OutputPath(input, suffix)) == Parent(input)
    ensures Name(OutputPath(input, suffix)) == Name(input) + suffix
  {
    var n := Name(input);
    assert '/' !in n by {
      if input.parts != [] {
        assert ValidPart(input.parts[|input.parts| - 1]);
      }
    }
    assert |n + suffix| >= 2 || n == "";
    var r := OutputPath(input, suffix);
    assert r.parts[..|r.parts| - 1] == Parent(input).parts;
  }

  /** Different suffixes give different files. */
  lemma OutputPathInjective(input: Path, s: string, t: string)
    requires OutputPath(input, s) == OutputPath(input, t)
    ensures s == t
  {
    var n := Name(input);
    assert n + s == OutputPath(input, s).parts[|OutputPath(input, s).parts| - 1];
    assert (n + s)[|n|..] == s && (n + t)[|n|..] == t;
  }

  // ---------------------------------------------------------------------
  // Encodings

  datatype Encoding = Brotli | Gzip | Zstd

  function EncodingName(e: Encoding): string {
    match e
    case Brotli => "br"
    case Gzip => "gzip"
    case Zstd => "zstd"
  }

  /** The suffix of an encoded copy. */
  function EncodingSuffix(e: Encoding): string {
    ".c-e-" + EncodingName(e)
  }

  /** The encodings, in the order the type map lists them. */
  const Encodings: seq<Encoding> := [Brotli, Gzip, Zstd]

  /** Each encoding has its own suffix, none of them `.var`, and none with a
      slash, so the four outputs of one input are four different files. */
  lemma EncodingSuffixesDistinct(e: Encoding, f: Encoding)
    ensures EncodingSuffix(e) == EncodingSuffix(f) ==> e == f
    ensures EncodingSuffix(e) != ".var"
    ensures ValidPart(EncodingSuffix(e))
  {
    var s, t := EncodingSuffix(e), EncodingSuffix(f);
    if s == t {
      assert s[5..] == EncodingName(e) && t[5..] == EncodingName(f);
    }
    assert s[1] == 'c';
  }

  /** The file to compress: the input itself, or with `--indirect` the path
      written in it (`inputText` is its contents). */
  function ActualInputPath(inputFile: Path, indirect: bool, inputText: string): Path
  {
    if indirect then Parse(inputText) else inputFile
  }

  /** Without `--indirect` the input is the file to compress; with it, the
      file's text names the file to compress, and any printed path reads
      back as that path. */
  lemma ActualInputPathOf(inputFile: Path, target: Path, inputText: string)
    requires Valid(target)
    ensures ActualInputPath(inputFile, false, inputText) == inputFile
    ensures ActualInputPath(inputFile, true, Str(target)) == target
    ensures Valid(ActualInputPath(inputFile, true, inputText))
  {
    ParseStr(target);
  }

  // ---------------------------------------------------------------------
  // The dyndep step

  /** The suffixes of the outputs: the type map's, then each encoding's. */
  function OutputSuffix(i: nat): string
    requires i <= |Encodings|
  {
    if i == 0 then ".var" else EncodingSuffix(Encodings[i - 1])
  }

  lemma OutputSuffixesDistinct(i: nat, j: nat)
    requires i <= |Encodings| && j <= |Encodings|
    ensures ValidPart(OutputSuffix(i))
    ensures OutputSuffix(i) == OutputSuffix(j) ==> i == j
  {
    if i > 0 && j > 0 {
      EncodingSuffixesDistinct(Encodings[i - 1], Encodings[j - 1]);
    } else if i > 0 {
      EncodingSuffixesDistinct(Encodings[i - 1], Encodings[i - 1]);
    } else if j > 0 {
      EncodingSuffixesDistinct(Encodings[j - 1], Encodings[j - 1]);
    }
  }

  /** The outputs: the type map, then one encoded copy per encoding. */
  function DyndepOutputs(actual: Path): (r: seq<string>) {
    seq(1 + |Encodings|, i requires 0 <= i <= |Encodings| => Str(OutputPath(actual, OutputSuffix(i))))
  }

  /** The inputs form a set: the input file and the file it names. */
  function DyndepInputs(inputFile: Path, actual: Path): set<string> {
    {Str(inputFile), Str(actual)}
  }

  lemma DyndepOutputAt(actual: Path, i: nat)
    requires Valid(actual) && i <= |Encodings|
    ensures Parse(DyndepOutputs(actual)[i]) == OutputPath(actual, OutputSuffix(i))
    ensures Parent(Parse(DyndepOutputs(actual)[i])) == Parent(actual)
    ensures Name(Parse(DyndepOutputs(actual)[i])) == Name(actual) + OutputSuffix(i)
  {
    OutputSuffixesDistinct(i, i);
    OutputPathParts(actual, OutputSuffix(i));
    ParseStr(OutputPath(actual, OutputSuffix(i)));
  }

  /** Four outputs, all different, all next to the file to compress. */
  lemma DyndepOutputsDistinct(actual: Path)
    requires Valid(actual)
    ensures |DyndepOutputs(actual)| == 4
    ensures forall i, j :: 0 <= i < j < 4 ==> DyndepOutputs(actual)[i] != DyndepOutputs(actual)[j]
    ensures forall i :: 0 <= i < 4 ==> Parent(Parse(DyndepOutputs(actual)[i])) == Parent(actual)
  {
    var outs := DyndepOutputs(actual);
    forall i, j | 0 <= i < j < 4
      ensures outs[i] != outs[j]
    {
      if outs[i] == outs[j] {
        DyndepOutputAt(actual, i);
        DyndepOutputAt(actual, j);
        OutputSuffixesDistinct(i, i);
        OutputSuffixesDistinct(j, j);
        OutputPathInjective(actual, OutputSuffix(i), OutputSuffix(j));
        OutputSuffixesDistinct(i, j);
        assert false;
      }
    }
    forall i | 0 <= i < 4
      ensures Parent(Parse(outs[i])) == Parent(actual)
    {
      DyndepOutputAt(actual, i);
    }
  }

  /** Without `--indirect` the input file is listed once. */
  lemma DyndepInputsDirect(inputFile: Path, inputText: string)
    ensures DyndepInputs(inputFile, ActualInputPath(inputFile, false, inputText)) == {Str(inputFile)}
    ensures |DyndepInputs(inputFile, ActualInputPath(inputFile, false, inputText))| == 1
  {
  }

  function DyndepText(stamp: Path, outputs: seq<string>, inputs: seq<string>): string {
    "ninja_dyndep_version = 1\nbuild $\n        " + Escape(Str(stamp)) + " $\n        | $\n        "
      + Join(EscapeAll(outputs), " ") + " $\n        : $\n        dyndep $\n        | $\n        "
      + Join(EscapeAll(inputs), " ") + "\n"
  }

  /** The outputs line of the dyndep file reads back as the four outputs. */
  lemma DyndepOutputsRead(actual: Path)
    requires forall i :: 0 <= i < |DyndepOutputs(actual)| ==> Plain(DyndepOutputs(actual)[i])
    ensures Tokens(Join(EscapeAll(DyndepOutputs(actual)), " ")) == Some(DyndepOutputs(actual))
  {
    TokensJoin(DyndepOutputs(actual));
  }

  /** The inputs line of the dyndep file reads back as the listing of the
      input set, in whatever order it is printed: the input file, and the
      file it names when that differs. */
  lemma DyndepInputsRead(inputFile: Path, actual: Path, listing: seq<string>)
    requires Enumerates(listing, DyndepInputs(inputFile, actual))
    requires forall i :: 0 <= i < |listing| ==> Plain(listing[i])
    ensures Tokens(Join(EscapeAll(listing), " ")) == Some(listing)
    ensures Str(inputFile) in listing && Str(actual) in listing
    ensures |listing| == if Str(inputFile) == Str(actual) then 1 else 2
  {
    assert Str(inputFile) in listing;
    DistinctCard(listing, DyndepInputs(inputFile, actual));
    TokensJoin(listing);
  }

  // ---------------------------------------------------------------------
  // The type map

  datatype CompressError = UnknownSuffix(suffix: string)

  /** The content type by the file's suffix; other suffixes are not known. */
  function ContentType(suffix: string): (r: Option<string>)
    ensures r.Some? <==> suffix in {".atom", ".css", ".html", ".txt"}
  {
    if suffix == ".atom" then Some("application/atom+xml")
    else if suffix == ".css" then Some("text/css")
    else if suffix == ".html" then Some("text/html")
    else if suffix == ".txt" then Some("text/plain")
    else None
  }

  /** `urllib.parse.quote` with its default safe character `/`. */
  function Uri(name: string): string {
    Quote(name, {'/'})
  }

  function UnencodedPart(contentType: string, name: string): string {
    "Content-Type: " + contentType + "\nURI: " + Uri(name) + "\n"
  }

  function EncodedPart(e: Encoding, contentType: string, name: string): string {
    "Content-Encoding: " + EncodingName(e) + "\nContent-Type: " + contentType + "\nURI: " + Uri(name) + "\n"
  }

  /** The file the `k`-th encoder writes. */
  function EncodedPath(actual: Path, k: nat): Path
    requires k < |Encodings|
  {
    OutputPath(actual, EncodingSuffix(Encodings[k]))
  }

  /** The files the first `n` encoders write, in order. */
  function EncodedPaths(actual: Path, n: nat): (r: seq<Path>)
    requires n <= |Encodings|
    ensures |r| == n
  {
    if n == 0 then [] else EncodedPaths(actual, n - 1) + [EncodedPath(actual, n - 1)]
  }

  /** The first `n + 1` parts of the type map: the unencoded file, then the
      copies under the first `n` encodings, in order. */
  function VarParts(actual: Path, contentType: string, n: nat): (r: seq<string>)
    requires n <= |Encodings|
    ensures |r| == n + 1
  {
    if n == 0 then [UnencodedPart(contentType, Name(actual))]
    else VarParts(actual, contentType, n - 1) + [EncodedPart(Encodings[n - 1], contentType, Name(EncodedPath(actual, n - 1)))]
  }

  /** The `k`-th encoder writes the `k`-th encoded path, and the type map
      lists the unencoded file first, then that copy as its `k + 1`-th part. */
  lemma {:induction false} VarPartsAt(actual: Path, contentType: string, n: nat, k: nat)
    requires k < n <= |Encodings|
    ensures EncodedPaths(actual, n)[k] == EncodedPath(actual, k)
    ensures VarParts(actual, contentType, n)[0] == UnencodedPart(contentType, Name(actual))
    ensures VarParts(actual, contentType, n)[k + 1] == EncodedPart(Encodings[k], contentType, Name(EncodedPath(actual, k)))
  {
    if k < n - 1 {
      VarPartsAt(actual, contentType, n - 1, k);
    } else if n > 1 {
      VarPartsAt(actual, contentType, n - 1, 0);
    }
  }

  /** The type map text: the parts joined by a newline; since each part ends
      in one, parts are separated by a blank line. A file whose suffix has no
      known content type is an error. */
  function VarText(actual: Path): (r: Result<string, CompressError>)
    ensures r.Failure? <==> ContentType(Suffix(Name(actual))).None?
    ensures r.Failure? ==> r.error == UnknownSuffix(Suffix(Name(actual)))
  {
    match ContentType(Suffix(Name(actual)))
    case None => Failure(UnknownSuffix(Suffix(Name(actual))))
    case Some(ct) => Success(Join(VarParts(actual, ct, |Encodings|), "\n"))
  }

  lemma VarTextOfContentType(actual: Path, ct: string)
    requires ContentType(Suffix(Name(actual))) == Some(ct)
    ensures VarText(actual) == Success(Join(VarParts(actual, ct, |Encodings|), "\n"))
  {
  }

  /** Compressing one file: the type map's text and the files the encoders
      write, in order. */
  method CompressFile(actual: Path) returns (r: Result<string, CompressError>, encoded: seq<Path>)
    ensures r == VarText(actual)
    ensures r.Failure? ==> encoded == []
    ensures r.Success? ==> encoded == EncodedPaths(actual, |Encodings|)
  {
    var suffix := Suffix(Name(actual));
    var contentType := ContentType(suffix);
    if contentType.None? {
      return Failure(UnknownSuffix(suffix)), [];
    }
    var varParts;
    varParts, encoded := EncodeAll(actual, contentType.value);
    r := Success(Join(varParts, "\n"));
  }

  /** The loop over the encodings: each one's output file and type-map
      part, after the part for the unencoded file. */
  method EncodeAll(actual: Path, ct: string) returns (varParts: seq<string>, encoded: seq<Path>)
    ensures varParts == VarParts(actual, ct, |Encodings|)
    ensures encoded == EncodedPaths(actual, |Encodings|)
  {
    varParts := [UnencodedPart(ct, Name(actual))];
    encoded := [];
    var i := 0;
    while i < |Encodings|
      invariant 0 <= i <= |Encodings|
      invariant varParts == VarParts(actual, ct, i)
      invariant encoded == EncodedPaths(actual, i)
    {
      var encoding := Encodings[i];
      var outputPath := OutputPath(actual, EncodingSuffix(encoding));
      encoded := encoded + [outputPath];
      varParts := varParts + [EncodedPart(encoding, ct, Name(outputPath))];
      i := i + 1;
    }
  }

  /** Each URI in the type map decodes back to the name of the file it stands
      for, which lies next to the type map. */
  lemma VarPartUri(actual: Path, contentType: string, k: nat)
    requires Valid(actual) && k < |Encodings|
    ensures VarParts(actual, contentType, |Encodings|)[k + 1]
      == EncodedPart(Encodings[k], contentType, Name(actual) + EncodingSuffix(Encodings[k]))
    ensures Parent(EncodedPath(actual, k)) == Parent(actual)
    ensures Unquote(Uri(Name(EncodedPath(actual, k)))) == Utf8(Name(actual) + EncodingSuffix(Encodings[k]))
  {
    VarPartsAt(actual, contentType, |Encodings|, k);
    EncodingSuffixesDistinct(Encodings[k], Encodings[k]);
    OutputPathParts(actual, EncodingSuffix(Encodings[k]));
    UnquoteQuote(Name(EncodedPath(actual, k)), {'/'});
  }

  lemma AllLiteralConcat(a: string, b: string, safe: set<char>)
    requires AllLiteral(a, safe) && AllLiteral(b, safe)
    ensures AllLiteral(a + b, safe)
  {
    assert forall i :: |a| <= i < |a + b| ==> (a + b)[i] == b[i - |a|];
  }

  lemma EncodingLiterals()
    ensures Encodings[0] == Brotli && EncodingName(Brotli) == "br" && EncodingSuffix(Brotli) == ".c-e-br"
    ensures Encodings[1] == Gzip && EncodingName(Gzip) == "gzip" && EncodingSuffix(Gzip) == ".c-e-gzip"
    ensures Encodings[2] == Zstd && EncodingName(Zstd) == "zstd" && EncodingSuffix(Zstd) == ".c-e-zstd"
  {
  }

  /** The suffixes need no quoting in a URI. */
  lemma EncodingSuffixLiteral(e: Encoding)
    ensures AllLiteral(EncodingSuffix(e), {'/'})
  {
    assert AllLiteral(".c-e-", {'/'});
    assert AllLiteral(EncodingName(e), {'/'});
    AllLiteralConcat(".c-e-", EncodingName(e), {'/'});
  }

  /** For a file whose name needs no quoting, each part of the type map
      names its file as it is. */
  lemma VarPartLiteral(actual: Path, ct: string, k: nat)
    requires Valid(actual) && AllLiteral(Name(actual), {'/'}) && k < |Encodings|
    ensures VarParts(actual, ct, |Encodings|)[0] == "Content-Type: " + ct + "\nURI: " + Name(actual) + "\n"
    ensures VarParts(actual, ct, |Encodings|)[k + 1] == "Content-Encoding: " + EncodingName(Encodings[k])
      + "\nContent-Type: " + ct + "\nURI: " + (Name(actual) + EncodingSuffix(Encodings[k])) + "\n"
  {
    var name := Name(actual);
    var sfx := EncodingSuffix(Encodings[k]);
    VarPartsAt(actual, ct, |Encodings|, k);
    EncodingSuffixesDistinct(Encodings[k], Encodings[k]);
    OutputPathParts(actual, sfx);
    QuoteLiteral(name, {'/'});
    EncodingSuffixLiteral(Encodings[k]);
    AllLiteralConcat(name, sfx, {'/'});
    QuoteLiteral(name + sfx, {'/'});
  }

  /** A page `<stem>.html` has the HTML content type, and needs no quoting
      if its stem needs none. */
  lemma HtmlPage(stem: string)
    requires stem != "" && NoDot(stem) && AllLiteral(stem, {'/'})
    ensures ContentType(Suffix(stem + ".html")) == Some("text/html")
    ensures AllLiteral(stem + ".html", {'/'})
  {
    HtmlSuffix(stem);
    HtmlLiteral();
    AllLiteralConcat(stem, ".html", {'/'});
  }

  lemma HtmlSuffix(stem: string)
    requires stem != "" && NoDot(stem)
    ensures Suffix(stem + ".html") == ".html"
  {
    assert stem + ".html" == stem + "." + "html";
    SuffixOfDotted(stem, "html");
  }

  lemma HtmlLiteral()
    ensures AllLiteral(".html", {'/'}) && ContentType(".html") == Some("text/html")
  {
  }

  /** The type map of the compression test, for any page `<stem>.html`
      whose name needs no quoting: four parts joined by newlines, the
      unencoded page first, then its brotli, gzip and zstd copies. */
  lemma VarTextFixture(stem: string)
    requires stem != "" && NoDot(stem) && '/' !in stem && AllLiteral(stem, {'/'})
    ensures var actual := Path(NoRoot, ["output", stem + ".html"]);
      var parts := VarParts(actual, "text/html", |Encodings|);
      && VarText(actual) == Success(Join(parts, "\n"))
      && |parts| == 4
      && parts[0] == "Content-Type: " + "text/html" + "\nURI: " + (stem + ".html") + "\n"
      && parts[1] == "Content-Encoding: " + "br" + "\nContent-Type: " + "text/html" + "\nURI: " + (stem + ".html" + ".c-e-br") + "\n"
      && parts[2] == "Content-Encoding: " + "gzip" + "\nContent-Type: " + "text/html" + "\nURI: " + (stem + ".html" + ".c-e-gzip") + "\n"
      && parts[3] == "Content-Encoding: " + "zstd" + "\nContent-Type: " + "text/html" + "\nURI: " + (stem + ".html" + ".c-e-zstd") + "\n"
  {
    var name := stem + ".html";
    var actual := Path(NoRoot, ["output", name]);
    HtmlPage(stem);
    VarTextOfContentType(actual, "text/html");
    EncodingLiterals();
    HtmlPagePart(stem, 0);
    HtmlPagePart(stem, 1);
    HtmlPagePart(stem, 2);
  }

  /** The unencoded part and the `k`-th encoded part for a page. */
  lemma HtmlPagePart(stem: string, k: nat)
    requires stem != "" && NoDot(stem) && '/' !in stem && AllLiteral(stem, {'/'}) && k < |Encodings|
    ensures var parts := VarParts(Path(NoRoot, ["output", stem + ".html"]), "text/html", |Encodings|);
      && parts[0] == "Content-Type: " + "text/html" + "\nURI: " + (stem + ".html") + "\n"
      && parts[k + 1] == "Content-Encoding: " + EncodingName(Encodings[k]) + "\nContent-Type: " + "text/html"
           + "\nURI: " + (stem + ".html" + EncodingSuffix(Encodings[k])) + "\n"
  {
    var actual := Path(NoRoot, ["output", stem + ".html"]);
    HtmlPage(stem);
    assert Valid(actual);
    VarPartLiteral(actual, "text/html", k);
  }
}
