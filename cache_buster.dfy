/** The cache-busting build step: each asset is hashed into a new file name
    under `output/assets/`, the chosen name is kept in a small text file in
    the work directory, and a copy step copies every asset to its chosen
    name, refusing two different assets that were given the same name. The
    file system is a map from path to bytes. */
module CacheBuster {
  import opened Wrappers
  import opened Strings
  import opened PurePath
  import opened Percent
  import opened Ninja

  const OutputFilenameExt := ".cache-buster-output-filename"

  // ---------------------------------------------------------------------
  // Names

  /** Where the chosen output name of `inputFile` is kept. */
  function OutputFilenamePath(workDir: Path, inputFile: Path): (r: Path)
    ensures Valid(workDir) ==> Valid(r)
  {
    JoinPath(workDir, Name(inputFile) + OutputFilenameExt)
  }

  /** The file sits directly in the work directory and is named after the
      input file, so inputs with different names get different files. */
  lemma OutputFilenamePathParts(workDir: Path, inputFile: Path)
    requires Valid(inputFile)
    ensures Parent(OutputFilenamePath(workDir, inputFile)) == workDir
    ensures Name(OutputFilenamePath(workDir, inputFile)) == Name(inputFile) + OutputFilenameExt
  {
    var n := Name(inputFile) + OutputFilenameExt;
    assert n[|n| - |OutputFilenameExt|] == '.';
    JoinPart(workDir, n);
    var r := OutputFilenamePath(workDir, inputFile);
    assert r.parts[..|r.parts| - 1] == workDir.parts;
  }

  lemma OutputFilenamePathInjective(workDir: Path, a: Path, b: Path)
    requires Valid(a) && Valid(b)
    requires OutputFilenamePath(workDir, a) == OutputFilenamePath(workDir, b)
    ensures Name(a) == Name(b)
  {
    OutputFilenamePathParts(workDir, a);
    OutputFilenamePathParts(workDir, b);
    var na := Name(a) + OutputFilenameExt;
    assert Name(a) == na[..|na| - |OutputFilenameExt|];
  }

  /** The part of the name that records an image's size, when it has one. */
  function SizeExtra(size: Option<(int, int)>): (r: string)
    ensures size.None? ==> r == ""
    ensures forall i :: 0 <= i < |r| ==> IsDigit(r[i]) || r[i] == '-' || r[i] == 'x'
  {
    match size
    case None => ""
    case Some((width, height)) => "-" + IntToString(width) + "x" + IntToString(height)
  }

  /** The output name written by the hash step: the base name's stem, the
      extra part, `-`, the hash and the base name's suffix. The hash itself is
      an input of the model. */
  function HashedFilename(base: Path, extra: string, fileHash: string): string {
    "output/assets/" + HashedName(Name(base), extra, fileHash)
  }

  function HashedName(baseName: string, extra: string, fileHash: string): string {
    Stem(baseName) + extra + "-" + fileHash + Suffix(baseName)
  }

  /** The new name keeps the base name's suffix, and its stem is the base
      stem followed by the extra part and the hash. */
  lemma HashedNameStemSuffix(baseName: string, extra: string, fileHash: string)
    requires NoDot(extra) && NoDot(fileHash) && fileHash != ""
    requires baseName != "" && baseName[|baseName| - 1] != '.'
    ensures Suffix(HashedName(baseName, extra, fileHash)) == Suffix(baseName)
    ensures Stem(HashedName(baseName, extra, fileHash)) == Stem(baseName) + extra + "-" + fileHash
  {
    if HasSuffix(baseName) {
      HashedNameWithSuffix(baseName, extra, fileHash);
    } else {
      HashedNameWithoutSuffix(baseName, extra, fileHash);
    }
  }

  lemma HashedNameWithSuffix(baseName: string, extra: string, fileHash: string)
    requires NoDot(extra) && NoDot(fileHash) && HasSuffix(baseName)
    ensures Suffix(HashedName(baseName, extra, fileHash)) == Suffix(baseName)
    ensures Stem(HashedName(baseName, extra, fileHash)) == Stem(baseName) + extra + "-" + fileHash
  {
    var t := Suffix(baseName);
    var s := Stem(baseName) + extra + "-" + fileHash;
    var n := s + t;
    assert n == HashedName(baseName, extra, fileHash);
    assert t[0] == '.' && forall k :: 0 < k < |t| ==> t[k] != '.';
    assert LastDot(t) == 0;
    LastDotConcat(s, t);
    assert n[..|s|] == s && n[|s|..] == t;
  }

  lemma HashedNameWithoutSuffix(baseName: string, extra: string, fileHash: string)
    requires NoDot(extra) && NoDot(fileHash) && fileHash != "" && !HasSuffix(baseName)
    requires baseName != "" && baseName[|baseName| - 1] != '.'
    ensures Suffix(HashedName(baseName, extra, fileHash)) == Suffix(baseName)
    ensures Stem(HashedName(baseName, extra, fileHash)) == Stem(baseName) + extra + "-" + fileHash
  {
    var x := extra + "-" + fileHash;
    assert NoDot(x);
    assert HashedName(baseName, extra, fileHash) == baseName + x;
    LastDotNoDot(x);
    LastDotConcat(baseName, x);
  }

  lemma NoSlashStemSuffix(name: string)
    requires '/' !in name
    ensures '/' !in Stem(name) && '/' !in Suffix(name)
  {
    StemSuffix(name);
  }

  /** The written text is the path `output/assets/<name>`. */
  lemma HashedFilenameParts(base: Path, extra: string, fileHash: string)
    requires Valid(base) && base.parts != []
    requires '/' !in extra && '/' !in fileHash
    ensures Parse(HashedFilename(base, extra, fileHash)) ==
      Path(NoRoot, ["output", "assets", HashedName(Name(base), extra, fileHash)])
  {
    var name := Name(base);
    var n := HashedName(name, extra, fileHash);
    assert ValidPart(name);
    NoSlashStemSuffix(name);
    assert '/' !in n;
    var parts := ["output", "assets", n];
    assert parts[1..] == ["assets", n] && parts[1..][1..] == [n];
    assert Join(parts[1..], "/") == "assets" + "/" + n;
    assert "output" + "/" + ("assets" + "/" + n) == "output/assets/" + n;
    assert Str(Path(NoRoot, parts)) == HashedFilename(base, extra, fileHash);
    ParseStr(Path(NoRoot, parts));
  }

  /** The shapes fixed by the hash step's tests: a base name with a suffix
      keeps it after the hash, a base name without one gets none. */
  lemma HashedNameOfSuffixed(stem: string, ext: string, extra: string, fileHash: string)
    requires stem != "" && NoDot(stem) && NoDot(ext) && ext != ""
    ensures HashedName(stem + "." + ext, extra, fileHash) == stem + extra + "-" + fileHash + "." + ext
  {
    SuffixOfDotted(stem, ext);
  }

  lemma HashedNameOfPlain(baseName: string, extra: string, fileHash: string)
    requires NoDot(baseName)
    ensures HashedName(baseName, extra, fileHash) == baseName + extra + "-" + fileHash
  {
    LastDotNoDot(baseName);
  }

  // ---------------------------------------------------------------------
  // The file system

  type Files = map<Path, seq<Byte>>

  datatype CopyError =
    | FileNotFound(path: Path)
    | NotText(path: Path)
    | DifferentContents(output: Path)

  function ReadBytes(files: Files, p: Path): (r: Result<seq<Byte>, CopyError>)
    ensures r.Success? <==> p in files
    ensures r.Success? ==> r.value == files[p]
  {
    if p in files then Success(files[p]) else Failure(FileNotFound(p))
  }

  /** `read_text`: the bytes decoded as UTF-8. */
  function ReadText(files: Files, p: Path): (r: Result<string, CopyError>)
    ensures r.Success? ==> p in files && Utf8(r.value) == files[p]
    ensures p in files && DecodeUtf8(files[p]).Some? ==> r.Success?
  {
    if p !in files then Failure(FileNotFound(p))
    else match DecodeUtf8(files[p])
      case None => Failure(NotText(p))
      case Some(t) =>
        DecodeUtf8Encodes(files[p]);
        Success(t)
  }

  /** The output path chosen for `inputFile` by the hash step. */
  function OutputPathOf(files: Files, workDir: Path, inputFile: Path): Result<Path, CopyError> {
    match ReadText(files, OutputFilenamePath(workDir, inputFile))
    case Failure(e) => Failure(e)
    case Success(t) => Success(Parse(t))
  }

  // ---------------------------------------------------------------------
  // The copy step

  /** One input of the copy step, given the files and the set of outputs
      written so far. */
  function CopyOne(files: Files, written: set<Path>, workDir: Path, inputFile: Path)
    : Result<(Files, set<Path>), CopyError>
  {
    match OutputPathOf(files, workDir, inputFile)
    case Failure(e) => Failure(e)
    case Success(out) =>
      match ReadBytes(files, inputFile)
      case Failure(e) => Failure(e)
      case Success(bytes) =>
        if out in written then
          match ReadBytes(files, out)
          case Failure(e) => Failure(e)
          case Success(existing) =>
            if bytes != existing then Failure(DifferentContents(out)) else Success((files, written))
        else Success((files[out := bytes], written + {out}))
  }

  /** The inputs in order; the first error stops the step and leaves the
      files as they are at that point. */
  function CopyFrom(files: Files, written: set<Path>, workDir: Path, inputs: seq<Path>)
    : (Outcome<CopyError>, Files)
    decreases |inputs|
  {
    if inputs == [] then (Pass, files)
    else match CopyOne(files, written, workDir, inputs[0])
      case Failure(e) => (Fail(e), files)
      case Success((f, w)) => CopyFrom(f, w, workDir, inputs[1..])
  }

  /** The whole copy step: the stamp is written, empty, only when every
      input was copied or skipped. */
  function CopyRun(files: Files, workDir: Path, inputs: seq<Path>, copyStamp: Path)
    : (Outcome<CopyError>, Files)
  {
    var (o, f) := CopyFrom(files, {}, workDir, inputs);
    if o.Pass? then (Pass, f[copyStamp := []]) else (o, f)
  }

  class Filesystem {
    var files: Files

    constructor (initial: Files)
      ensures files == initial
    {
      files := initial;
    }

    method Copy(workDir: Path, inputFiles: seq<Path>, copyStamp: Path) returns (r: Outcome<CopyError>)
      modifies this
      ensures (r, files) == CopyRun(old(files), workDir, inputFiles, copyStamp)
    {
      var written: set<Path> := {};
      var i := 0;
      while i < |inputFiles|
        invariant 0 <= i <= |inputFiles|
        invariant CopyFrom(files, written, workDir, inputFiles[i..]) == CopyFrom(old(files), {}, workDir, inputFiles)
      {
        var inputFile := inputFiles[i];
        assert inputFiles[i..][1..] == inputFiles[i + 1..];
        var name := ReadText(files, OutputFilenamePath(workDir, inputFile));
        if name.Failure? {
          return Fail(name.error);
        }
        var outputPath := Parse(name.value);
        var bytes := ReadBytes(files, inputFile);
        if bytes.Failure? {
          return Fail(bytes.error);
        }
        if outputPath in written {
          var existing := ReadBytes(files, outputPath);
          if existing.Failure? {
            return Fail(existing.error);
          }
          if bytes.value != existing.value {
            return Fail(DifferentContents(outputPath));
          }
        } else {
          files := files[outputPath := bytes.value];
          written := written + {outputPath};
        }
        i := i + 1;
      }
      files := files[copyStamp := []];
      return Pass;
    }
  }

  // ---------------------------------------------------------------------
  // What the copy step achieves

  /** The output path an input was given, or a placeholder when its name
      file cannot be read. */
  function Target(files: Files, workDir: Path, inputFile: Path): Path {
    match OutputPathOf(files, workDir, inputFile)
    case Success(p) => p
    case Failure(_) => Path(NoRoot, [])
  }

  function Targets(files: Files, workDir: Path, inputs: seq<Path>): (r: seq<Path>)
    ensures |r| == |inputs|
    ensures forall i :: 0 <= i < |inputs| ==> r[i] == Target(files, workDir, inputs[i])
  {
    seq(|inputs|, i requires 0 <= i < |inputs| => Target(files, workDir, inputs[i]))
  }

  /** Every input and every name file exists and is readable. */
  predicate Readable(files: Files, workDir: Path, inputs: seq<Path>) {
    forall i :: 0 <= i < |inputs| ==>
      inputs[i] in files && OutputPathOf(files, workDir, inputs[i]).Success?
  }

  function Contents(files: Files, inputs: seq<Path>): (r: seq<seq<Byte>>)
    requires forall i :: 0 <= i < |inputs| ==> inputs[i] in files
    ensures |r| == |inputs|
    ensures forall i :: 0 <= i < |inputs| ==> r[i] == files[inputs[i]]
  {
    seq(|inputs|, i requires 0 <= i < |inputs| => files[inputs[i]])
  }

  /** No output path is an input or a name file, so copying never changes
      what a later input reads. */
  predicate Separate(files: Files, workDir: Path, inputs: seq<Path>) {
    forall i, j :: 0 <= i < |inputs| && 0 <= j < |inputs| ==>
      Target(files, workDir, inputs[i]) != inputs[j] &&
      Target(files, workDir, inputs[i]) != OutputFilenamePath(workDir, inputs[j])
  }

  function Written(targets: seq<Path>, k: nat): set<Path>
    requires k <= |targets|
  {
    set i | 0 <= i < k :: targets[i]
  }

  /** Among the first `k` inputs, two given the same output path have the
      same contents. */
  predicate Agree(contents: seq<seq<Byte>>, targets: seq<Path>, k: nat)
    requires k <= |contents| == |targets|
  {
    forall i, j :: 0 <= i < j < k && targets[i] == targets[j] ==> contents[i] == contents[j]
  }

  predicate Consistent(files: Files, workDir: Path, inputs: seq<Path>)
    requires Readable(files, workDir, inputs)
  {
    Agree(Contents(files, inputs), Targets(files, workDir, inputs), |inputs|)
  }

  /** The files after the first `k` inputs were processed without error:
      each of their outputs holds their contents, nothing else changed. */
  predicate Inv(base: Files, contents: seq<seq<Byte>>, targets: seq<Path>, k: nat, f: Files, written: set<Path>)
    requires k <= |contents| == |targets|
  {
    && written == Written(targets, k)
    && f.Keys == base.Keys + written
    && (forall p :: p in base && p !in written ==> f[p] == base[p])
    && (forall i :: 0 <= i < k ==> targets[i] in f && f[targets[i]] == contents[i])
    && Agree(contents, targets, k)
  }

  /** The paths outside `outs` keep their contents and no other path appears. */
  predicate OnlyWrites(files: Files, f: Files, outs: set<Path>) {
    && f.Keys <= files.Keys + outs
    && forall p :: p in files && p !in outs ==> p in f && f[p] == files[p]
  }

  lemma WrittenNext(targets: seq<Path>, k: nat)
    requires k < |targets|
    ensures Written(targets, k + 1) == Written(targets, k) + {targets[k]}
  {
  }

  /** An input whose output was already written with the same contents. */
  lemma InvSkip(base: Files, contents: seq<seq<Byte>>, targets: seq<Path>, k: nat, f: Files, written: set<Path>, i: nat)
    requires k < |contents| == |targets|
    requires Inv(base, contents, targets, k, f, written)
    requires i < k && targets[i] == targets[k] && contents[k] == contents[i]
    ensures Inv(base, contents, targets, k + 1, f, written)
  {
    WrittenNext(targets, k);
    forall a, b | 0 <= a < b < k + 1 && targets[a] == targets[b]
      ensures contents[a] == contents[b]
    {
      if b == k && a != i {
        assert contents[a] == contents[i];
      }
    }
  }

  /** An input whose output was not written yet. */
  lemma InvWrite(base: Files, contents: seq<seq<Byte>>, targets: seq<Path>, k: nat, f: Files, written: set<Path>)
    requires k < |contents| == |targets|
    requires Inv(base, contents, targets, k, f, written)
    requires targets[k] !in written
    ensures Inv(base, contents, targets, k + 1, f[targets[k] := contents[k]], written + {targets[k]})
  {
    WrittenNext(targets, k);
    assert forall i :: 0 <= i < k ==> targets[i] in written;
  }

  /** An input whose output was written with other contents. */
  lemma InvConflict(contents: seq<seq<Byte>>, targets: seq<Path>, k: nat, n: nat, i: nat)
    requires k < n <= |contents| == |targets|
    requires i < k && targets[i] == targets[k] && contents[k] != contents[i]
    ensures !Agree(contents, targets, n)
  {
  }

  /** One step of the copy step, seen from the state invariant. */
  lemma CopyStep(files: Files, workDir: Path, inputs: seq<Path>, k: nat, f: Files, written: set<Path>)
    requires Readable(files, workDir, inputs) && Separate(files, workDir, inputs) && k < |inputs|
    requires Inv(files, Contents(files, inputs), Targets(files, workDir, inputs), k, f, written)
    ensures match CopyOne(f, written, workDir, inputs[k])
      case Success((f', w')) => Inv(files, Contents(files, inputs), Targets(files, workDir, inputs), k + 1, f', w')
      case Failure(e) =>
        e == DifferentContents(Target(files, workDir, inputs[k])) &&
        !Agree(Contents(files, inputs), Targets(files, workDir, inputs), |inputs|)
  {
    var cs := Contents(files, inputs);
    var ts := Targets(files, workDir, inputs);
    var input := inputs[k];
    var name := OutputFilenamePath(workDir, input);
    assert input !in written && name !in written by {
      forall i | 0 <= i < k
        ensures ts[i] != input && ts[i] != name
      {
      }
    }
    assert f[name] == files[name] && f[input] == files[input];
    assert OutputPathOf(f, workDir, input) == Success(ts[k]);
    if ts[k] in written {
      var i :| 0 <= i < k && ts[i] == ts[k];
      if cs[k] == cs[i] {
        InvSkip(files, cs, ts, k, f, written, i);
      } else {
        InvConflict(cs, ts, k, |inputs|, i);
      }
    } else {
      InvWrite(files, cs, ts, k, f, written);
    }
  }

  lemma {:induction false} CopyFromInv(files: Files, workDir: Path, inputs: seq<Path>, k: nat, f: Files, written: set<Path>)
    requires Readable(files, workDir, inputs) && Separate(files, workDir, inputs) && k <= |inputs|
    requires Inv(files, Contents(files, inputs), Targets(files, workDir, inputs), k, f, written)
    ensures var (o, g) := CopyFrom(f, written, workDir, inputs[k..]);
      var cs := Contents(files, inputs);
      var ts := Targets(files, workDir, inputs);
      && (o.Pass? <==> Agree(cs, ts, |inputs|))
      && (o.Pass? ==> Inv(files, cs, ts, |inputs|, g, Written(ts, |inputs|)))
      && (o.Fail? ==> o.error.DifferentContents? && OnlyWrites(files, g, Written(ts, |inputs|)))
    decreases |inputs| - k
  {
    if k < |inputs| {
      assert inputs[k..][1..] == inputs[k + 1..];
      CopyStep(files, workDir, inputs, k, f, written);
      match CopyOne(f, written, workDir, inputs[k]) {
        case Success((f', w')) =>
          CopyFromInv(files, workDir, inputs, k + 1, f', w');
        case Failure(e) =>
          var ts := Targets(files, workDir, inputs);
          assert written <= Written(ts, |inputs|);
      }
    } else {
      assert inputs[k..] == [];
    }
  }

  /** The copy step succeeds exactly when no two inputs given the same
      output path differ; then every output holds its inputs' bytes, the
      stamp is empty and nothing else changed. When it fails, it fails on
      such a conflict and the stamp is not written. */
  lemma CopyCharacterized(files: Files, workDir: Path, inputs: seq<Path>, copyStamp: Path)
    requires Readable(files, workDir, inputs) && Separate(files, workDir, inputs)
    ensures var (o, g) := CopyRun(files, workDir, inputs, copyStamp);
      var ts := Targets(files, workDir, inputs);
      var outs := Written(ts, |inputs|);
      && (o.Pass? <==> Consistent(files, workDir, inputs))
      && (o.Pass? ==>
            && copyStamp in g && g[copyStamp] == []
            && g.Keys == files.Keys + outs + {copyStamp}
            && (forall i :: 0 <= i < |inputs| && ts[i] != copyStamp ==> g[ts[i]] == files[inputs[i]])
            && (forall p :: p in files && p !in outs && p != copyStamp ==> g[p] == files[p]))
      && (o.Fail? ==> o.error.DifferentContents? && OnlyWrites(files, g, outs))
  {
    var ts := Targets(files, workDir, inputs);
    assert Written(ts, 0) == {};
    assert inputs[0..] == inputs;
    CopyFromInv(files, workDir, inputs, 0, files, {});
  }

  /** When the inputs agree, every output holds its inputs' contents. */
  lemma CopyPassOutputs(files: Files, workDir: Path, inputs: seq<Path>, copyStamp: Path)
    requires Readable(files, workDir, inputs) && Separate(files, workDir, inputs)
    requires Consistent(files, workDir, inputs)
    ensures var (o, g) := CopyRun(files, workDir, inputs, copyStamp);
      var ts := Targets(files, workDir, inputs);
      && o == Pass && copyStamp in g && g[copyStamp] == []
      && forall i :: 0 <= i < |inputs| && ts[i] != copyStamp ==> ts[i] in g && g[ts[i]] == files[inputs[i]]
  {
    var ts := Targets(files, workDir, inputs);
    assert Written(ts, 0) == {};
    assert inputs[0..] == inputs;
    CopyFromInv(files, workDir, inputs, 0, files, {});
  }

  /** The conflict test: two inputs named to the same output with different
      contents make the step fail on that output. */
  lemma CopyConflict(files: Files, workDir: Path, inputs: seq<Path>, copyStamp: Path)
    requires |inputs| == 2
    requires Readable(files, workDir, inputs) && Separate(files, workDir, inputs)
    requires Target(files, workDir, inputs[0]) == Target(files, workDir, inputs[1])
    requires files[inputs[0]] != files[inputs[1]]
    ensures CopyRun(files, workDir, inputs, copyStamp).0 == Fail(DifferentContents(Target(files, workDir, inputs[0])))
  {
    var a, b := inputs[0], inputs[1];
    var t := Target(files, workDir, a);
    var name := OutputFilenamePath(workDir, b);
    assert t != b && t != name;
    assert OutputPathOf(files, workDir, a) == Success(t);
    assert OutputPathOf(files, workDir, b) == Success(t);
    var f1 := files[t := files[a]];
    assert {} + {t} == {t};
    assert CopyOne(files, {}, workDir, a) == Success((f1, {t}));
    assert f1[name] == files[name];
    assert OutputPathOf(f1, workDir, b) == Success(t);
    assert CopyOne(f1, {t}, workDir, b) == Failure(DifferentContents(t));
    assert inputs[1..][1..] == [];
    assert CopyFrom(f1, {t}, workDir, inputs[1..]) == (Fail(DifferentContents(t)), f1);
  }

  lemma AgreeThree(contents: seq<seq<Byte>>, targets: seq<Path>)
    requires |contents| == |targets| == 3
    requires targets[0] == targets[1] != targets[2] && contents[0] == contents[1]
    ensures Agree(contents, targets, 3)
  {
  }

  /** The multiple-copy test: the first two inputs have the same contents
      and the same output, the third its own output. */
  lemma CopyMultiple(files: Files, workDir: Path, inputs: seq<Path>, copyStamp: Path)
    requires |inputs| == 3
    requires Readable(files, workDir, inputs) && Separate(files, workDir, inputs)
    requires Target(files, workDir, inputs[0]) == Target(files, workDir, inputs[1]) != Target(files, workDir, inputs[2])
    requires files[inputs[0]] == files[inputs[1]]
    requires copyStamp != Target(files, workDir, inputs[0]) && copyStamp != Target(files, workDir, inputs[2])
    ensures var (o, g) := CopyRun(files, workDir, inputs, copyStamp);
      && o == Pass
      && Target(files, workDir, inputs[0]) in g && g[Target(files, workDir, inputs[0])] == files[inputs[0]]
      && Target(files, workDir, inputs[2]) in g && g[Target(files, workDir, inputs[2])] == files[inputs[2]]
      && copyStamp in g && g[copyStamp] == []
  {
    AgreeThree(Contents(files, inputs), Targets(files, workDir, inputs));
    CopyPassOutputs(files, workDir, inputs, copyStamp);
  }

  // ---------------------------------------------------------------------
  // The dyndep step

  /** The set of chosen output names of the inputs. */
  function OutputFilenames(files: Files, workDir: Path, inputs: seq<Path>): (r: Result<set<string>, CopyError>)
    ensures r.Success? <==>
      forall i :: 0 <= i < |inputs| ==> ReadText(files, OutputFilenamePath(workDir, inputs[i])).Success?
    decreases |inputs|
  {
    if inputs == [] then Success({})
    else match ReadText(files, OutputFilenamePath(workDir, inputs[0]))
      case Failure(e) => Failure(e)
      case Success(t) =>
        match OutputFilenames(files, workDir, inputs[1..])
        case Failure(e) => Failure(e)
        case Success(rest) => Success({t} + rest)
  }

  /** The set holds exactly the names read for the inputs. */
  lemma {:induction false} OutputFilenamesMembers(files: Files, workDir: Path, inputs: seq<Path>, t: string)
    requires OutputFilenames(files, workDir, inputs).Success?
    ensures t in OutputFilenames(files, workDir, inputs).value <==>
      exists i :: 0 <= i < |inputs| && ReadText(files, OutputFilenamePath(workDir, inputs[i])) == Success(t)
    decreases |inputs|
  {
    if inputs != [] {
      OutputFilenamesMembers(files, workDir, inputs[1..], t);
      assert forall i :: 1 <= i < |inputs| ==> inputs[i] == inputs[1..][i - 1];
      if exists i :: 0 <= i < |inputs| && ReadText(files, OutputFilenamePath(workDir, inputs[i])) == Success(t) {
        var i :| 0 <= i < |inputs| && ReadText(files, OutputFilenamePath(workDir, inputs[i])) == Success(t);
        if i > 0 {
          assert ReadText(files, OutputFilenamePath(workDir, inputs[1..][i - 1])) == Success(t);
        }
      }
    }
  }

  /** The outputs line of the dyndep file for a listing of the names. */
  function OutputsList(listing: seq<string>): string {
    Join(EscapeAll(listing), " ")
  }

  function DyndepText(copyStamp: Path, listing: seq<string>): string {
    "ninja_dyndep_version = 1\nbuild $\n        " + Escape(Str(copyStamp)) + " $\n        | $\n        "
      + OutputsList(listing) + " $\n        : $\n        dyndep\n"
  }

  /** The outputs line of the dyndep file reads back as the listing, which
      names each distinct output name once: as many entries as names. */
  lemma DyndepListsEachOnce(files: Files, workDir: Path, inputs: seq<Path>, listing: seq<string>)
    requires OutputFilenames(files, workDir, inputs).Success?
    requires Enumerates(listing, OutputFilenames(files, workDir, inputs).value)
    requires listing != []
    requires forall i :: 0 <= i < |listing| ==> Plain(listing[i])
    ensures Tokens(OutputsList(listing)) == Some(listing)
    ensures |listing| == |OutputFilenames(files, workDir, inputs).value|
    ensures forall i :: 0 <= i < |inputs| ==> ReadText(files, OutputFilenamePath(workDir, inputs[i])).value in listing
  {
    TokensJoin(listing);
    DistinctCard(listing, OutputFilenames(files, workDir, inputs).value);
    forall i | 0 <= i < |inputs|
      ensures ReadText(files, OutputFilenamePath(workDir, inputs[i])).value in listing
    {
      OutputFilenamesMembers(files, workDir, inputs, ReadText(files, OutputFilenamePath(workDir, inputs[i])).value);
    }
  }
}
