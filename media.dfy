/** Derived image files: a conversion (ImageMagick arguments and the suffix
    of its result), the work file a conversion of a source image is written
    to, and the files next to it that hold the cache-busted output name and
    the image's metadata. */
module Media {
  import opened Wrappers
  import opened Strings
  import opened PurePath
  import Paths
  import CacheBuster

  datatype ImageConversion = ImageConversion(suffix: string, magickArgs: seq<string>)

  /** ImageMagick's geometry `<w>x<h>`. */
  function Geometry(width: int, height: int): string {
    IntToString(width) + "x" + IntToString(height)
  }

  /** A JPEG of at most the given size and the given quality. */
  function Jpeg(maxWidth: int, maxHeight: int, quality: int): ImageConversion {
    ImageConversion(
      Geometry(maxWidth, maxHeight) + "q" + IntToString(quality) + ".jpg",
      ["-resize", Geometry(maxWidth, maxHeight) + ">", "-quality", IntToString(quality)])
  }

  /** A PNG of at most the given size. */
  function Png(maxWidth: int, maxHeight: int): ImageConversion {
    ImageConversion(
      Geometry(maxWidth, maxHeight) + ".png",
      ["-resize", Geometry(maxWidth, maxHeight) + ">"])
  }

  // ---------------------------------------------------------------------
  // Reading a conversion back from its suffix and arguments

  function DecodeGeometry(s: string): Option<(int, int)> {
    var fields := Split(s, 'x');
    if |fields| != 2 then None
    else
      match (ParseInt(fields[0]), ParseInt(fields[1]))
      case (Some(w), Some(h)) => Some((w, h))
      case _ => None
  }

  function DecodeJpegSuffix(s: string): Option<(int, int, int)> {
    if |s| < 4 || s[|s| - 4..] != ".jpg" then None
    else
      var fields := Split(s[..|s| - 4], 'q');
      if |fields| != 2 then None
      else
        match (DecodeGeometry(fields[0]), ParseInt(fields[1]))
        case (Some(g), Some(q)) => Some((g.0, g.1, q))
        case _ => None
  }

  function DecodePngSuffix(s: string): Option<(int, int)> {
    if |s| < 4 || s[|s| - 4..] != ".png" then None
    else DecodeGeometry(s[..|s| - 4])
  }

  lemma IntToStringNoSeparator(i: int)
    ensures 'x' !in IntToString(i) && 'q' !in IntToString(i) && '.' !in IntToString(i) && '/' !in IntToString(i)
  {
    var s := IntToString(i);
    forall c | c in s
      ensures c != 'x' && c != 'q' && c != '.' && c != '/'
    {
      var k :| 0 <= k < |s| && s[k] == c;
    }
  }

  lemma SplitPair(a: string, b: string, c: char)
    requires c !in a && c !in b
    ensures Split(a + [c] + b, c) == [a, b]
  {
    assert Join([a, b], [c]) == a + [c] + b by {
      assert [a, b][1..] == [b];
    }
    SplitJoin([a, b], c);
  }

  lemma GeometryDecodes(width: int, height: int)
    ensures DecodeGeometry(Geometry(width, height)) == Some((width, height))
    ensures 'q' !in Geometry(width, height) && '.' !in Geometry(width, height) && '/' !in Geometry(width, height)
  {
    var a, b := IntToString(width), IntToString(height);
    IntToStringNoSeparator(width);
    IntToStringNoSeparator(height);
    SplitPair(a, b, 'x');
    ParseIntOfIntToString(width);
    ParseIntOfIntToString(height);
  }

  /** The suffix of a JPEG conversion gives its size and quality back. */
  lemma JpegSuffixDecodes(maxWidth: int, maxHeight: int, quality: int)
    ensures DecodeJpegSuffix(Jpeg(maxWidth, maxHeight, quality).suffix) == Some((maxWidth, maxHeight, quality))
  {
    var g, q := Geometry(maxWidth, maxHeight), IntToString(quality);
    var s := Jpeg(maxWidth, maxHeight, quality).suffix;
    GeometryDecodes(maxWidth, maxHeight);
    IntToStringNoSeparator(quality);
    assert s[|s| - 4..] == ".jpg" && s[..|s| - 4] == g + "q" + q;
    SplitPair(g, q, 'q');
    ParseIntOfIntToString(quality);
  }

  /** The suffix of a PNG conversion gives its size back. */
  lemma PngSuffixDecodes(maxWidth: int, maxHeight: int)
    ensures DecodePngSuffix(Png(maxWidth, maxHeight).suffix) == Some((maxWidth, maxHeight))
  {
    var s := Png(maxWidth, maxHeight).suffix;
    GeometryDecodes(maxWidth, maxHeight);
    assert s[|s| - 4..] == ".png" && s[..|s| - 4] == Geometry(maxWidth, maxHeight);
  }

  /** ImageMagick reads the size and the quality back from the arguments. */
  lemma JpegArgsDecode(maxWidth: int, maxHeight: int, quality: int)
    ensures var args := Jpeg(maxWidth, maxHeight, quality).magickArgs;
      && |args| == 4 && args[0] == "-resize" && args[2] == "-quality"
      && |args[1]| >= 1 && args[1][|args[1]| - 1] == '>'
      && DecodeGeometry(args[1][..|args[1]| - 1]) == Some((maxWidth, maxHeight))
      && ParseInt(args[3]) == Some(quality)
  {
    var g := Geometry(maxWidth, maxHeight);
    assert (g + ">")[..|g + ">"| - 1] == g;
    GeometryDecodes(maxWidth, maxHeight);
    ParseIntOfIntToString(quality);
  }

  lemma PngArgsDecode(maxWidth: int, maxHeight: int)
    ensures var args := Png(maxWidth, maxHeight).magickArgs;
      && |args| == 2 && args[0] == "-resize"
      && |args[1]| >= 1 && args[1][|args[1]| - 1] == '>'
      && DecodeGeometry(args[1][..|args[1]| - 1]) == Some((maxWidth, maxHeight))
  {
    var g := Geometry(maxWidth, maxHeight);
    assert (g + ">")[..|g + ">"| - 1] == g;
    GeometryDecodes(maxWidth, maxHeight);
  }

  /** The conversion a work-file suffix stands for. */
  function DecodeConversion(s: string): Option<ImageConversion> {
    match DecodeJpegSuffix(s)
    case Some(j) => Some(Jpeg(j.0, j.1, j.2))
    case None =>
      match DecodePngSuffix(s)
      case Some(p) => Some(Png(p.0, p.1))
      case None => None
  }

  lemma PngNotJpeg(maxWidth: int, maxHeight: int)
    ensures DecodeJpegSuffix(Png(maxWidth, maxHeight).suffix) == None
  {
    var s := Png(maxWidth, maxHeight).suffix;
    assert s[|s| - 4..] == ".png";
    assert s[|s| - 4..][1] == 'p';
  }

  /** Every JPEG or PNG conversion is read back from its suffix. */
  lemma ConversionDecodes(c: ImageConversion)
    requires (exists w, h, q :: c == Jpeg(w, h, q)) || (exists w, h :: c == Png(w, h))
    ensures DecodeConversion(c.suffix) == Some(c)
  {
    if exists w, h, q :: c == Jpeg(w, h, q) {
      var w, h, q :| c == Jpeg(w, h, q);
      JpegSuffixDecodes(w, h, q);
    } else {
      var w, h :| c == Png(w, h);
      PngSuffixDecodes(w, h);
      PngNotJpeg(w, h);
    }
  }

  /** Different conversions have different suffixes, so their work files
      never collide. */
  lemma SuffixIdentifiesConversion(a: ImageConversion, b: ImageConversion)
    requires (exists w, h, q :: a == Jpeg(w, h, q)) || (exists w, h :: a == Png(w, h))
    requires (exists w, h, q :: b == Jpeg(w, h, q)) || (exists w, h :: b == Png(w, h))
    requires a.suffix == b.suffix
    ensures a == b
  {
    ConversionDecodes(a);
    ConversionDecodes(b);
  }

  // ---------------------------------------------------------------------
  // The files of one converted image

  datatype ImageOutput = ImageOutput(source: Path, conversion: ImageConversion)

  /** The work file: in the work directory of the source's directory (`work`
      maps a source directory to it), named after the source's stem and
      the conversion's suffix. */
  function WorkPath(output: ImageOutput, work: Path -> Path): Path {
    JoinPath(work(Parent(output.source)), Stem(Name(output.source)) + "-" + output.conversion.suffix)
  }

  lemma StemNoSlash(name: string)
    requires '/' !in name
    ensures '/' !in Stem(name)
  {
    StemSuffix(name);
  }

  /** The work file is a single file in the work directory. */
  lemma WorkPathParts(output: ImageOutput, work: Path -> Path)
    requires Valid(output.source) && '/' !in output.conversion.suffix
    ensures var n := Stem(Name(output.source)) + "-" + output.conversion.suffix;
      ValidPart(n) && WorkPath(output, work) == Path(work(Parent(output.source)).root, work(Parent(output.source)).parts + [n])
  {
    var name := Name(output.source);
    assert '/' !in name by {
      if output.source.parts != [] {
        assert ValidPart(output.source.parts[|output.source.parts| - 1]);
      }
    }
    StemNoSlash(name);
    var n := Stem(name) + "-" + output.conversion.suffix;
    assert n[|Stem(name)|] == '-';
    JoinPart(work(Parent(output.source)), n);
  }

  /** `path.with_suffix(path.suffix + ext)`: the file next to `path` whose
      name is the path's name followed by `ext`. */
  function AddSuffix(p: Path, ext: string): Result<Path, PathError> {
    WithSuffix(p, Suffix(Name(p)) + ext)
  }

  lemma AddSuffixAppends(p: Path, ext: string)
    requires Name(p) != "" && |ext| >= 2 && ext[0] == '.' && '/' !in ext
    requires '/' !in Name(p)
    ensures AddSuffix(p, ext).Success?
    ensures Parent(AddSuffix(p, ext).value) == Parent(p)
    ensures Name(AddSuffix(p, ext).value) == Name(p) + ext
  {
    var n := Name(p);
    var s := Suffix(n) + ext;
    StemSuffix(n);
    assert s[0] == '.' by {
      if Suffix(n) != "" {
        assert Suffix(n)[0] == n[LastDot(n)];
      }
    }
    assert StartsWith(s, ".");
    assert |s| >= 2;
    assert Stem(n) + s == n + ext;
  }

  /** The file holding the cache-busted output's path. */
  function CacheBusterPath(output: ImageOutput, work: Path -> Path): (r: Result<Path, PathError>) {
    AddSuffix(WorkPath(output, work), ".cache-buster")
  }

  /** The file holding the image's metadata. */
  function MetadataPath(output: ImageOutput, work: Path -> Path): (r: Result<Path, PathError>) {
    AddSuffix(WorkPath(output, work), ".json")
  }

  /** Both lie next to the work file, named after it with `.cache-buster`
      and `.json` appended after its suffix, so they are different files. */
  lemma SideFiles(output: ImageOutput, work: Path -> Path)
    requires Valid(output.source) && '/' !in output.conversion.suffix
    ensures CacheBusterPath(output, work).Success? && MetadataPath(output, work).Success?
    ensures Parent(CacheBusterPath(output, work).value) == Parent(WorkPath(output, work))
    ensures Name(CacheBusterPath(output, work).value) == Name(WorkPath(output, work)) + ".cache-buster"
    ensures Parent(MetadataPath(output, work).value) == Parent(WorkPath(output, work))
    ensures Name(MetadataPath(output, work).value) == Name(WorkPath(output, work)) + ".json"
    ensures CacheBusterPath(output, work).value != MetadataPath(output, work).value
  {
    WorkPathParts(output, work);
    var w := WorkPath(output, work);
    AddSuffixAppends(w, ".cache-buster");
    AddSuffixAppends(w, ".json");
  }

  /** The URL path of the cache-busted output, if the cache buster has
      already written its name (`read` is the contents of the
      cache-buster file, or `None` if it does not exist yet). */
  function UrlPath(read: Option<string>): (r: Option<Result<string, Paths.PathsError>>)
    ensures r.None? <==> read.None?
    ensures r.Some? ==> (r.value.Success? <==> IsRelativeTo(Parse(read.value), Paths.Output))
    ensures r.Some? && r.value.Success? ==> StartsWith(r.value.value, "/")
  {
    match read
    case None => None
    case Some(outputPath) => Some(Paths.ToUrlPath(Parse(outputPath)))
  }

  /** The image's metadata, if it has been extracted; `loads` is the JSON
      decoder. */
  function Metadata<V>(read: Option<string>, loads: string -> V): (r: Option<V>)
    ensures r.None? <==> read.None?
  {
    match read
    case None => None
    case Some(raw) => Some(loads(raw))
  }

  // ---------------------------------------------------------------------
  // The cache buster's configuration for one image

  datatype ImageOutputConfig = ImageOutputConfig(output: ImageOutput, outputDir: Path)

  function CacheBusterPrefix(config: ImageOutputConfig, work: Path -> Path): string {
    Str(JoinPath(config.outputDir, Stem(Name(WorkPath(config.output, work))) + "-"))
  }

  function CacheBusterSuffix(config: ImageOutputConfig, work: Path -> Path): string {
    Suffix(Name(WorkPath(config.output, work)))
  }

  /** What `str` puts before the last part of a path. */
  function StrHead(dir: Path): string {
    RootText(dir.root) + (if dir.parts == [] then "" else Join(dir.parts, "/") + "/")
  }

  lemma StrSnoc(dir: Path, part: string)
    ensures Str(Path(dir.root, dir.parts + [part])) == StrHead(dir) + part
  {
    var parts := dir.parts + [part];
    if dir.parts == [] {
      assert parts == [part];
      assert Join(parts, "/") == part;
    } else {
      JoinSnoc(dir.parts, part, "/");
      var joined := Join(dir.parts, "/") + "/" + part;
      assert Join(parts, "/") == joined;
      assert StrHead(dir) + part == RootText(dir.root) + joined;
    }
  }

  lemma StrJoinAppend(dir: Path, part: string, tail: string)
    requires ValidPart(part) && '/' !in tail
    ensures ValidPart(part + tail)
    ensures Str(JoinPath(dir, part)) + tail == Str(JoinPath(dir, part + tail))
  {
    assert |part + tail| >= 2 || tail == "";
    JoinPart(dir, part);
    JoinPart(dir, part + tail);
    StrSnoc(dir, part);
    StrSnoc(dir, part + tail);
  }

  /** The prefix, a hash and the suffix spell the path in the output
      directory of the work file's name with `-<hash>` inserted before its
      suffix, the name the cache buster gives it. */
  lemma CacheBusterNames(config: ImageOutputConfig, work: Path -> Path, fileHash: string)
    requires Valid(config.output.source) && '/' !in config.output.conversion.suffix && '/' !in fileHash
    ensures CacheBusterPrefix(config, work) + fileHash + CacheBusterSuffix(config, work)
      == Str(JoinPath(config.outputDir, CacheBuster.HashedName(Name(WorkPath(config.output, work)), "", fileHash)))
  {
    WorkPathParts(config.output, work);
    HashedNameInDir(config.outputDir, Name(WorkPath(config.output, work)), fileHash);
  }

  lemma HashedNameInDir(dir: Path, n: string, fileHash: string)
    requires '/' !in n && '/' !in fileHash
    ensures Str(JoinPath(dir, Stem(n) + "-")) + fileHash + Suffix(n) == Str(JoinPath(dir, CacheBuster.HashedName(n, "", fileHash)))
  {
    StemSuffix(n);
    StemNoSlash(n);
    var p := Stem(n) + "-";
    assert p[|Stem(n)|] == '-';
    StrJoinAppend(dir, p, fileHash);
    StrJoinAppend(dir, p + fileHash, Suffix(n));
    assert p + fileHash + Suffix(n) == CacheBuster.HashedName(n, "", fileHash);
  }

  /** The work path of the media test: a 16x16 PNG of a `.jpg` source. */
  lemma WorkPathFixture(stem: string, work: Path -> Path)
    requires ValidPart(stem) && NoDot(stem)
    requires work(Path(NoRoot, ["..", "private", "media"])) == Path(NoRoot, ["work", "media"])
    ensures WorkPath(ImageOutput(Path(NoRoot, ["..", "private", "media", stem + ".jpg"]), Png(16, 16)), work)
      == Path(NoRoot, ["work", "media", stem + "-16x16.png"])
  {
    var source := Path(NoRoot, ["..", "private", "media", stem + ".jpg"]);
    JpegStem(stem);
    PngSuffixFixture();
    assert Parent(source) == Path(NoRoot, ["..", "private", "media"]);
    assert Name(source) == stem + ".jpg";
    var n := stem + "-16x16.png";
    assert Stem(Name(source)) + "-" + Png(16, 16).suffix == n;
    assert ValidPart(n) by {
      assert n[|stem|] == '-';
    }
    JoinPart(Path(NoRoot, ["work", "media"]), n);
    assert ["work", "media"] + [n] == ["work", "media", n];
  }

  lemma JpegStem(stem: string)
    requires ValidPart(stem) && NoDot(stem)
    ensures Stem(stem + ".jpg") == stem
  {
    assert stem + ".jpg" == stem + "." + "jpg";
    SuffixOfDotted(stem, "jpg");
  }

  lemma PngSuffixFixture()
    ensures Png(16, 16).suffix == "16x16.png"
  {
    assert IntToString(16) == "16";
  }
}
