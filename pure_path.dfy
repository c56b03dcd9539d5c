/** The part of Python's `pathlib.PurePosixPath` that the site generator
    uses. A path is a root and its normalized parts: empty parts and `.`
    parts are dropped when text is parsed. POSIX keeps a leading `//` as a
    root of its own, distinct from `/`; three or more slashes are `/`. */
module PurePath {
  import opened Wrappers
  import opened Strings

  /** No root (a relative path), `/`, or the POSIX `//` root. */
  datatype Root = NoRoot | Slash | DoubleSlash

  datatype Path = Path(root: Root, parts: seq<string>)

  datatype PathError = InvalidSuffix(suffix: string) | EmptyName(path: Path)

  /** A part of a normalized path. */
  predicate ValidPart(p: string) {
    p != "" && p != "." && '/' !in p
  }

  predicate Valid(p: Path) {
    forall i :: 0 <= i < |p.parts| ==> ValidPart(p.parts[i])
  }

  // ---------------------------------------------------------------------
  // Text <-> path

  /** Drops the empty and `.` parts, as pathlib does when parsing. */
  function KeepParts(raw: seq<string>): (r: seq<string>)
    ensures forall i :: 0 <= i < |r| ==> r[i] != "" && r[i] != "."
    ensures (forall i :: 0 <= i < |raw| ==> '/' !in raw[i]) ==> forall i :: 0 <= i < |r| ==> ValidPart(r[i])
  {
    if raw == [] then []
    else (if raw[0] == "" || raw[0] == "." then [] else [raw[0]]) + KeepParts(raw[1..])
  }

  lemma {:induction false} KeepValidParts(raw: seq<string>)
    requires forall i :: 0 <= i < |raw| ==> ValidPart(raw[i])
    ensures KeepParts(raw) == raw
  {
    if raw != [] {
      KeepValidParts(raw[1..]);
    }
  }

  /** The root of text: exactly two leading slashes are the `//` root, one
      or three and more are `/`. */
  function RootOf(s: string): (r: Root)
    ensures r == NoRoot <==> !StartsWith(s, "/")
    ensures r == DoubleSlash <==> StartsWith(s, "//") && !StartsWith(s, "///")
  {
    if |s| >= 2 && s[0] == '/' && s[1] == '/' && (|s| == 2 || s[2] != '/') then DoubleSlash
    else if |s| >= 1 && s[0] == '/' then Slash
    else NoRoot
  }

  function RootText(r: Root): string {
    match r
    case NoRoot => ""
    case Slash => "/"
    case DoubleSlash => "//"
  }

  /** `PurePosixPath(s)`. */
  function Parse(s: string): (p: Path)
    ensures Valid(p)
  {
    Path(RootOf(s), KeepParts(Split(s, '/')))
  }

  /** `str(path)`. */
  function Str(p: Path): string {
    if p.root != NoRoot then RootText(p.root) + Join(p.parts, "/")
    else if p.parts == [] then "."
    else Join(p.parts, "/")
  }

  lemma {:induction false} JoinHead(parts: seq<string>, sep: string)
    requires |parts| >= 1
    ensures |parts[0]| <= |Join(parts, sep)|
    ensures Join(parts, sep)[..|parts[0]|] == parts[0]
  {
    if |parts| > 1 {
      assert Join(parts, sep) == parts[0] + (sep + Join(parts[1..], sep));
    }
  }

  /** The printed parts of a path with parts start with a character other
      than `/`. */
  lemma JoinedHead(parts: seq<string>)
    requires |parts| >= 1 && forall i :: 0 <= i < |parts| ==> ValidPart(parts[i])
    ensures |parts[0]| >= 1 && |Join(parts, "/")| >= 1
    ensures Join(parts, "/")[0] == parts[0][0] != '/'
  {
    JoinHead(parts, "/");
    assert parts[0][0] in parts[0];
  }

  lemma ParseSlash(p: Path)
    requires Valid(p) && p.parts != [] && p.root == Slash
    ensures Parse(Str(p)) == p
  {
    var one := [""] + p.parts;
    assert one[1..] == p.parts;
    assert Str(p) == Join(one, "/");
    JoinedHead(p.parts);
    assert RootOf(Str(p)) == Slash;
    SplitJoin(one, '/');
    KeepValidParts(p.parts);
    assert KeepParts(one) == p.parts;
  }

  lemma ParseDoubleSlash(p: Path)
    requires Valid(p) && p.parts != [] && p.root == DoubleSlash
    ensures Parse(Str(p)) == p
  {
    var one := [""] + p.parts;
    var two := [""] + one;
    assert one[1..] == p.parts && two[1..] == one;
    assert Str(p) == Join(two, "/") by {
      assert Join(one, "/") == "/" + Join(p.parts, "/");
    }
    JoinedHead(p.parts);
    assert RootOf(Str(p)) == DoubleSlash;
    SplitJoin(two, '/');
    KeepValidParts(p.parts);
    assert KeepParts(one) == p.parts;
    assert KeepParts(two) == p.parts;
  }

  /** Printing a normalized path and parsing it again gives it back. */
  lemma ParseStr(p: Path)
    requires Valid(p)
    ensures Parse(Str(p)) == p
  {
    if p.parts == [] {
      match p.root
      case Slash =>
        assert Str(p) == Join(["", ""], "/");
        SplitJoin(["", ""], '/');
      case DoubleSlash =>
        assert Str(p) == Join(["", "", ""], "/");
        SplitJoin(["", "", ""], '/');
      case NoRoot =>
        assert Split(".", '/') == ["."];
    } else if p.root == NoRoot {
      SplitJoin(p.parts, '/');
      KeepValidParts(p.parts);
      JoinedHead(p.parts);
    } else if p.root == Slash {
      ParseSlash(p);
    } else {
      ParseDoubleSlash(p);
    }
  }

  // ---------------------------------------------------------------------
  // Path operations

  /** `path / text`: a right-hand side with a root replaces the path. */
  function JoinPath(p: Path, s: string): (r: Path)
    ensures Valid(p) ==> Valid(r)
  {
    var q := Parse(s);
    if q.root != NoRoot then q else Path(p.root, p.parts + q.parts)
  }

  /** Joining a single normalized part appends it. */
  lemma JoinPart(p: Path, part: string)
    requires ValidPart(part)
    ensures JoinPath(p, part) == Path(p.root, p.parts + [part])
  {
    assert Split(part, '/') == [part];
    assert KeepParts([part]) == [part] + KeepParts([]);
  }

  /** `path.name`. */
  function Name(p: Path): string {
    if p.parts == [] then "" else p.parts[|p.parts| - 1]
  }

  /** `path.parent`; the parent of a path without parts is itself. */
  function Parent(p: Path): Path {
    if p.parts == [] then p else Path(p.root, p.parts[..|p.parts| - 1])
  }

  /** Index of the last `.` in a name, or -1 (`str.rfind`). */
  function LastDot(name: string): (i: int)
    ensures -1 <= i < |name|
    ensures i >= 0 ==> name[i] == '.'
    ensures forall k :: i < k < |name| ==> name[k] != '.'
  {
    if name == [] then -1
    else if name[|name| - 1] == '.' then |name| - 1
    else LastDot(name[..|name| - 1])
  }

  /** The last dot of a concatenation is the last dot of its second part,
      if it has one. */
  lemma {:induction false} LastDotConcat(a: string, b: string)
    ensures LastDot(a + b) == if LastDot(b) >= 0 then |a| + LastDot(b) else LastDot(a)
    decreases |b|
  {
    if b == [] {
      assert a + b == a;
    } else {
      var ab := a + b;
      assert ab[..|ab| - 1] == a + b[..|b| - 1];
      if b[|b| - 1] != '.' {
        LastDotConcat(a, b[..|b| - 1]);
      }
    }
  }

  predicate NoDot(s: string) {
    forall i :: 0 <= i < |s| ==> s[i] != '.'
  }

  lemma LastDotNoDot(s: string)
    requires NoDot(s)
    ensures LastDot(s) == -1
  {
  }

  predicate HasSuffix(name: string) {
    0 < LastDot(name) < |name| - 1
  }

  /** `path.suffix`, given the name. */
  function Suffix(name: string): string {
    if HasSuffix(name) then name[LastDot(name)..] else ""
  }

  /** `path.stem`, given the name. */
  function Stem(name: string): string {
    if HasSuffix(name) then name[..LastDot(name)] else name
  }

  /** A name made of a dot-free stem, a dot and a dot-free extension has
      that extension as its suffix. */
  lemma SuffixOfDotted(stem: string, ext: string)
    requires stem != "" && NoDot(stem) && ext != "" && NoDot(ext)
    ensures Suffix(stem + "." + ext) == "." + ext
    ensures Stem(stem + "." + ext) == stem
  {
    var name := stem + "." + ext;
    LastDotNoDot(ext);
    LastDotConcat(stem + ".", ext);
    LastDotConcat(stem, ".");
    assert name[..|stem|] == stem && name[|stem|..] == "." + ext;
  }

  lemma StemSuffix(name: string)
    ensures Stem(name) + Suffix(name) == name
  {
  }

  /** `path.with_suffix(suffix)`. */
  function WithSuffix(p: Path, suffix: string): (r: Result<Path, PathError>)
    ensures r.Success? <==>
      '/' !in suffix && (suffix == "" || (StartsWith(suffix, ".") && suffix != ".")) && Name(p) != ""
    ensures r.Success? ==> Parent(r.value) == Parent(p) && Name(r.value) == Stem(Name(p)) + suffix
    ensures r.Success? && Valid(p) && suffix != "" ==> Valid(r.value)
  {
    if '/' in suffix || (suffix != "" && !StartsWith(suffix, ".")) || suffix == "." then
      Failure(InvalidSuffix(suffix))
    else if Name(p) == "" then
      Failure(EmptyName(p))
    else
      var r := Path(p.root, p.parts[..|p.parts| - 1] + [Stem(Name(p)) + suffix]);
      assert r.parts[..|r.parts| - 1] == p.parts[..|p.parts| - 1];
      Success(r)
  }

  predicate IsRelativeTo(p: Path, base: Path) {
    && p.root == base.root
    && |base.parts| <= |p.parts|
    && p.parts[..|base.parts|] == base.parts
  }

  /** `path.relative_to(base)`, defined when `path.is_relative_to(base)`. */
  function RelativeTo(p: Path, base: Path): (r: Path)
    requires IsRelativeTo(p, base)
    ensures r.root == NoRoot && base.parts + r.parts == p.parts
  {
    Path(NoRoot, p.parts[|base.parts|..])
  }
}
