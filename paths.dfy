/** Mapping between the site's URL paths and the files under `output/` that
    serve them (src/dseomn_website/paths.py). A URL path ending in `/` is
    served by a directory index file. */
module Paths {
  import opened Wrappers
  import opened Strings
  import opened PurePath

  const Output: Path := Path(NoRoot, ["output"])

  const DirIndexes: seq<string> := ["index.html", "index.xml"]

  datatype PathsError =
    | InvalidDirIndex(dirIndex: string)
    | RelativeUrlPath(urlPath: string)
    | NotInOutput(path: string)

  /** `from_url_path(url_path, dir_index=...)`. */
  function FromUrlPath(urlPath: string, dirIndex: string): (r: Result<Path, PathsError>)
    ensures dirIndex !in DirIndexes ==> r == Failure(InvalidDirIndex(dirIndex))
    ensures dirIndex in DirIndexes && !StartsWith(urlPath, "/") ==> r == Failure(RelativeUrlPath(urlPath))
    ensures dirIndex in DirIndexes && StartsWith(urlPath, "/") ==> r.Success?
    ensures urlPath == "/" && dirIndex in DirIndexes ==> r == Success(Path(NoRoot, ["output", dirIndex]))
    ensures r.Success? ==> Valid(r.value)
    ensures r.Success? && !StartsWith(urlPath, "//") ==> IsRelativeTo(r.value, Output)
    ensures r.Success? && StartsWith(urlPath, "//") ==> r.value.root == RootOf(urlPath[1..]) != NoRoot
  {
    if dirIndex !in DirIndexes then
      Failure(InvalidDirIndex(dirIndex))
    else if !StartsWith(urlPath, "/") then
      Failure(RelativeUrlPath(urlPath))
    else if urlPath == "/" then
      DirIndexesValid();
      JoinName(Output, dirIndex);
      assert Output.parts + [dirIndex] == ["output", dirIndex];
      Success(JoinPath(Output, dirIndex))
    else
      var relative := RemovePrefix(urlPath, "/");
      assert StartsWith(urlPath, "//") <==> StartsWith(relative, "/") by {
        assert urlPath == "/" + relative;
        if |relative| > 0 { assert urlPath[1] == relative[0]; }
      }
      if EndsWith(relative, "/") then
        DirIndexesValid();
        JoinName(JoinPath(Output, relative), dirIndex);
        JoinUnder(Output, relative);
        Success(JoinPath(JoinPath(Output, relative), dirIndex))
      else
        JoinUnder(Output, relative);
        Success(JoinPath(Output, relative))
  }

  /** Joining text without a root keeps the base as a prefix. */
  lemma JoinUnder(p: Path, s: string)
    ensures !StartsWith(s, "/") ==> IsRelativeTo(JoinPath(p, s), p)
  {
    if !StartsWith(s, "/") {
      assert Parse(s).root == NoRoot;
      assert (p.parts + Parse(s).parts)[..|p.parts|] == p.parts;
    }
  }

  /** `to_url_path(path)`. */
  function ToUrlPath(path: Path): (r: Result<string, PathsError>)
    ensures r.Failure? <==> !IsRelativeTo(path, Output)
    ensures r.Failure? ==> r.error == NotInOutput(Str(path))
    ensures r.Success? ==> StartsWith(r.value, "/")
  {
    if !IsRelativeTo(path, Output) then
      Failure(NotInOutput(Str(path)))
    else
      var relative := RelativeTo(path, Output);
      if Name(relative) in DirIndexes then
        if |relative.parts| == 1 then Success("/") else Success("/" + Str(Parent(relative)) + "/")
      else
        Success("/" + Str(relative))
  }

  // ---------------------------------------------------------------------
  // Round trips

  lemma ParseName(name: string)
    requires ValidPart(name)
    ensures Parse(name) == Path(NoRoot, [name])
  {
    ParseStr(Path(NoRoot, [name]));
  }

  lemma DirIndexesValid()
    ensures forall d :: d in DirIndexes ==> ValidPart(d)
  {
  }

  lemma JoinName(p: Path, name: string)
    requires ValidPart(name)
    ensures JoinPath(p, name) == Path(p.root, p.parts + [name])
  {
    ParseName(name);
  }

  lemma {:induction false} KeepPartsAppend(a: seq<string>, b: seq<string>)
    ensures KeepParts(a + b) == KeepParts(a) + KeepParts(b)
  {
    if a == [] {
      assert a + b == b;
    } else {
      var head := if a[0] == "" || a[0] == "." then [] else [a[0]];
      assert (a + b)[0] == a[0];
      assert (a + b)[1..] == a[1..] + b;
      KeepPartsAppend(a[1..], b);
      calc {
        KeepParts(a + b);
        head + KeepParts(a[1..] + b);
        head + (KeepParts(a[1..]) + KeepParts(b));
        (head + KeepParts(a[1..])) + KeepParts(b);
        KeepParts(a) + KeepParts(b);
      }
    }
  }

  /** Text of a directory's URL path: `/a/b/`, or `/` for the root. */
  function DirectoryUrl(parts: seq<string>): string {
    if parts == [] then "/" else "/" + Join(parts, "/") + "/"
  }

  /** Text of a file's URL path: `/a/b`. */
  function FileUrl(parts: seq<string>): string {
    "/" + Join(parts, "/")
  }

  predicate ValidParts(parts: seq<string>) {
    forall i :: 0 <= i < |parts| ==> ValidPart(parts[i])
  }

  /** The text of a non-empty relative path neither starts nor ends with `/`. */
  lemma {:induction false} JoinedEnds(parts: seq<string>)
    requires |parts| > 0 && ValidParts(parts)
    ensures var j := Join(parts, "/"); |j| > 0 && j[0] != '/' && j[|j| - 1] != '/'
    decreases |parts|
  {
    JoinHead(parts, "/");
    if |parts| > 1 {
      var j := Join(parts, "/");
      var rest := Join(parts[1..], "/");
      assert j == parts[0] + "/" + rest;
      JoinedEnds(parts[1..]);
      assert j[|j| - 1] == rest[|rest| - 1];
    }
  }

  lemma ParseJoinedDirectory(parts: seq<string>)
    requires |parts| > 0 && ValidParts(parts)
    ensures Parse(Join(parts, "/") + "/") == Path(NoRoot, parts)
  {
    var j := Join(parts, "/");
    JoinSnoc(parts, "", "/");
    assert j + "/" == Join(parts + [""], "/");
    SplitJoin(parts + [""], '/');
    KeepPartsAppend(parts, [""]);
    KeepValidParts(parts);
    JoinedEnds(parts);
    assert (j + "/")[0] == j[0];
  }

  lemma ParseJoinedFile(parts: seq<string>)
    requires |parts| > 0 && ValidParts(parts)
    ensures Parse(Join(parts, "/")) == Path(NoRoot, parts)
  {
    ParseStr(Path(NoRoot, parts));
  }

  lemma FromDirectoryUrl(parts: seq<string>, dirIndex: string)
    requires |parts| > 0 && ValidParts(parts) && dirIndex in DirIndexes
    ensures FromUrlPath(DirectoryUrl(parts), dirIndex) == Success(Path(NoRoot, ["output"] + parts + [dirIndex]))
  {
    var j := Join(parts, "/");
    var u := DirectoryUrl(parts);
    assert u == "/" + (j + "/");
    StartsWithConcat("/", j + "/");
    JoinedEnds(parts);
    assert u != "/";
    assert EndsWith(j + "/", "/");
    ParseJoinedDirectory(parts);
    DirIndexesValid();
    JoinName(Path(NoRoot, ["output"] + parts), dirIndex);
  }

  lemma FromFileUrl(parts: seq<string>, dirIndex: string)
    requires |parts| > 0 && ValidParts(parts) && dirIndex in DirIndexes
    ensures FromUrlPath(FileUrl(parts), dirIndex) == Success(Path(NoRoot, ["output"] + parts))
  {
    var j := Join(parts, "/");
    var u := FileUrl(parts);
    StartsWithConcat("/", j);
    JoinedEnds(parts);
    assert u != "/";
    assert !EndsWith(j, "/");
    ParseJoinedFile(parts);
  }

  lemma ToDirectoryIndex(parts: seq<string>, dirIndex: string)
    requires ValidParts(parts) && dirIndex in DirIndexes
    ensures ToUrlPath(Path(NoRoot, ["output"] + parts + [dirIndex])) == Success(DirectoryUrl(parts))
  {
    var p := Path(NoRoot, ["output"] + parts + [dirIndex]);
    assert p.parts[..1] == ["output"];
    var relative := RelativeTo(p, Output);
    assert relative.parts == parts + [dirIndex];
    assert Name(relative) == dirIndex;
    if parts != [] {
      assert Parent(relative) == Path(NoRoot, parts);
    }
  }

  lemma ToFile(parts: seq<string>)
    requires |parts| > 0 && ValidParts(parts) && parts[|parts| - 1] !in DirIndexes
    ensures ToUrlPath(Path(NoRoot, ["output"] + parts)) == Success(FileUrl(parts))
  {
    var p := Path(NoRoot, ["output"] + parts);
    assert p.parts[..1] == ["output"];
    assert RelativeTo(p, Output) == Path(NoRoot, parts);
  }

  /** Every directory URL path, the root included, is served by the index
      file inside that directory. */
  lemma FromAnyDirectoryUrl(parts: seq<string>, dirIndex: string)
    requires ValidParts(parts) && dirIndex in DirIndexes
    ensures FromUrlPath(DirectoryUrl(parts), dirIndex) == Success(Path(NoRoot, ["output"] + parts + [dirIndex]))
  {
    if parts == [] {
      assert DirectoryUrl(parts) == "/";
      assert ["output"] + parts + [dirIndex] == ["output", dirIndex];
    } else {
      FromDirectoryUrl(parts, dirIndex);
    }
  }

  lemma FromIndexFileUrl(parts: seq<string>, dirIndex: string, anyIndex: string)
    requires ValidParts(parts) && dirIndex in DirIndexes && anyIndex in DirIndexes
    ensures FromUrlPath(FileUrl(parts + [dirIndex]), anyIndex) == Success(Path(NoRoot, ["output"] + parts + [dirIndex]))
  {
    DirIndexesValid();
    assert ValidParts(parts + [dirIndex]);
    FromFileUrl(parts + [dirIndex], anyIndex);
    assert ["output"] + (parts + [dirIndex]) == ["output"] + parts + [dirIndex];
  }

  /** `to_url_path(from_url_path(u, dir_index=d)) == u` for every directory
      URL path and for every file URL path whose last part is not itself a
      directory index. */
  lemma UrlPathRoundTrip(parts: seq<string>, trailing: bool, dirIndex: string)
    requires ValidParts(parts)
    requires dirIndex in DirIndexes
    requires !trailing ==> |parts| > 0 && parts[|parts| - 1] !in DirIndexes
    ensures var u := if trailing then DirectoryUrl(parts) else FileUrl(parts);
      && FromUrlPath(u, dirIndex).Success?
      && ToUrlPath(FromUrlPath(u, dirIndex).value) == Success(u)
  {
    if trailing {
      FromAnyDirectoryUrl(parts, dirIndex);
      ToDirectoryIndex(parts, dirIndex);
    } else {
      FromFileUrl(parts, dirIndex);
      ToFile(parts);
    }
  }

  /** A URL path naming a directory index file is served as the directory:
      `/a/index.html` and `/a/` map to the same file, and that file maps back
      to `/a/`. */
  lemma IndexFileUrlCollapses(parts: seq<string>, dirIndex: string, anyIndex: string)
    requires ValidParts(parts)
    requires dirIndex in DirIndexes && anyIndex in DirIndexes
    ensures FromUrlPath(FileUrl(parts + [dirIndex]), anyIndex) == FromUrlPath(DirectoryUrl(parts), dirIndex)
    ensures ToUrlPath(FromUrlPath(FileUrl(parts + [dirIndex]), anyIndex).value) == Success(DirectoryUrl(parts))
  {
    FromIndexFileUrl(parts, dirIndex, anyIndex);
    FromAnyDirectoryUrl(parts, dirIndex);
    ToDirectoryIndex(parts, dirIndex);
  }

  /** The dir_index that gives a file back from its URL path. */
  function IndexFor(parts: seq<string>): string {
    if parts != [] && parts[|parts| - 1] in DirIndexes then parts[|parts| - 1] else "index.html"
  }

  /** `from_url_path(to_url_path(p), dir_index=...) == p` for every file
      strictly under `output/`, given the file's own index name. */
  lemma FilePathRoundTrip(parts: seq<string>)
    requires |parts| > 0 && ValidParts(parts)
    ensures var p := Path(NoRoot, ["output"] + parts);
      && ToUrlPath(p).Success?
      && FromUrlPath(ToUrlPath(p).value, IndexFor(parts)) == Success(p)
  {
    var k := |parts| - 1;
    if parts[k] in DirIndexes {
      var dir := parts[..k];
      assert ValidParts(dir);
      assert ["output"] + dir + [parts[k]] == ["output"] + parts;
      assert IndexFor(parts) == parts[k];
      ToDirectoryIndex(dir, parts[k]);
      FromAnyDirectoryUrl(dir, parts[k]);
    } else {
      assert IndexFor(parts) == "index.html";
      ToFile(parts);
      FromFileUrl(parts, "index.html");
    }
  }

  /** `output` itself maps to `/.`: the directory is reached through its
      file URL, not through `/`. */
  lemma OutputDirectoryTo()
    ensures ToUrlPath(Output) == Success("/.")
  {
    assert Output.parts[..1] == ["output"];
    assert RelativeTo(Output, Output) == Path(NoRoot, []);
    assert Name(Path(NoRoot, [])) == "" && "" !in DirIndexes;
    assert Str(Path(NoRoot, [])) == ".";
    assert "/" + "." == "/.";
  }

  /** `/.` maps back to `output`. */
  lemma OutputDirectoryFrom()
    ensures FromUrlPath("/.", "index.html") == Success(Path(NoRoot, ["output"]))
  {
    StartsWithConcat("/", ".");
    assert RemovePrefix("/.", "/") == ".";
    assert Split(".", '/') == ["."];
    assert Parse(".") == Path(NoRoot, []);
    assert Output.parts + [] == Output.parts;
    assert JoinPath(Output, ".") == Output;
    assert "index.html" in DirIndexes;
    assert "/." != "/";
    assert !EndsWith(".", "/");
  }

  /** Under POSIX rules a URL path with three slashes escapes `output`
      into the `//` root, which prints as `//foo`. */
  lemma FromUrlPathDoubleSlash()
    ensures FromUrlPath("///foo", "index.html") == Success(Path(DoubleSlash, ["foo"]))
    ensures Str(Path(DoubleSlash, ["foo"])) == "//foo"
  {
    assert "index.html" in DirIndexes;
    assert RemovePrefix("///foo", "/") == "//foo";
    assert !EndsWith("//foo", "/");
    ParseStr(Path(DoubleSlash, ["foo"]));
    assert Str(Path(DoubleSlash, ["foo"])) == "//foo";
  }

  /** A URL path with two slashes escapes into `/`. */
  lemma FromUrlPathTwoSlashes()
    ensures FromUrlPath("//foo", "index.html") == Success(Path(Slash, ["foo"]))
  {
    assert "index.html" in DirIndexes;
    assert RemovePrefix("//foo", "/") == "/foo";
    assert !EndsWith("/foo", "/");
    ParseStr(Path(Slash, ["foo"]));
    assert Str(Path(Slash, ["foo"])) == "/foo";
  }

  /** The fixtures of the module's tests, `from_url_path` half: the two
      rejected arguments. */
  lemma FromFixturesRejected()
    ensures FromUrlPath("/", "not-an-index") == Failure(InvalidDirIndex("not-an-index"))
    ensures FromUrlPath("foo", "index.html") == Failure(RelativeUrlPath("foo"))
  {
    assert "not-an-index" !in DirIndexes && "index.html" in DirIndexes;
    assert "foo"[..1][0] != "/"[0];
  }

  lemma FromFixtureRoot()
    ensures FromUrlPath("/", "index.html") == Success(Path(NoRoot, ["output", "index.html"]))
  {
    FromAnyDirectoryUrl([], "index.html");
  }

  lemma FooValid()
    ensures ValidParts(["foo"])
    ensures DirectoryUrl(["foo"]) == "/foo/"
    ensures FileUrl(["foo"]) == "/foo"
  {
    assert ValidPart("foo");
  }

  lemma FromFixtureDirectory()
    ensures FromUrlPath("/foo/", "index.html") == Success(Path(NoRoot, ["output", "foo", "index.html"]))
  {
    FooValid();
    assert "index.html" in DirIndexes;
    calc {
      FromUrlPath("/foo/", "index.html");
      { assert DirectoryUrl(["foo"]) == "/foo/"; }
      FromUrlPath(DirectoryUrl(["foo"]), "index.html");
      { FromDirectoryUrl(["foo"], "index.html"); }
      Success(Path(NoRoot, ["output"] + ["foo"] + ["index.html"]));
      { assert ["output"] + ["foo"] + ["index.html"] == ["output", "foo", "index.html"]; }
      Success(Path(NoRoot, ["output", "foo", "index.html"]));
    }
  }

  lemma FromFixtureFile()
    ensures FromUrlPath("/foo", "index.html") == Success(Path(NoRoot, ["output", "foo"]))
  {
    assert ValidParts(["foo"]);
    assert FileUrl(["foo"]) == "/foo";
    FromFileUrl(["foo"], "index.html");
    assert ["output"] + ["foo"] == ["output", "foo"];
  }

  /** The fixtures of the module's tests, `to_url_path` half. */
  lemma ToFixtureOutside()
    ensures ToUrlPath(Path(NoRoot, ["foo"])).Failure?
  {
    assert ["foo"][..1] == ["foo"];
    assert "foo"[0] != "output"[0];
  }

  lemma ToFixtureRoot()
    ensures ToUrlPath(Path(NoRoot, ["output", "index.html"])) == Success("/")
  {
    ToDirectoryIndex([], "index.html");
    assert ["output"] + [] + ["index.html"] == ["output", "index.html"];
  }

  lemma ToFixtureDirectory()
    ensures ToUrlPath(Path(NoRoot, ["output", "foo", "index.html"])) == Success("/foo/")
  {
    assert ValidParts(["foo"]);
    assert DirectoryUrl(["foo"]) == "/foo/";
    ToDirectoryIndex(["foo"], "index.html");
    assert ["output"] + ["foo"] + ["index.html"] == ["output", "foo", "index.html"];
  }

  lemma ToFixtureFile()
    ensures ToUrlPath(Path(NoRoot, ["output", "foo"])) == Success("/foo")
  {
    assert ValidParts(["foo"]);
    assert FileUrl(["foo"]) == "/foo";
    ToFile(["foo"]);
    assert ["output"] + ["foo"] == ["output", "foo"];
  }
}
