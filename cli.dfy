/**
 * The command-line converter: converting one HEIC file to a JPEG next to it or at a given path,
 * converting every HEIC file a directory listing names (skipping macOS metadata files and keeping
 * the directory layout under an output root), and reading the command line.
 */
module Cli {
  import opened Common
  import opened PurePaths
  import opened Pixels
  import opened Quality

  const MetadataPrefix := "._"
  const QualityFlag := "--quality="
  const RecursiveFlag := "--recursive"

  /** Why converting one file returned False. */
  datatype Failure =
    | Missing                        // the input path does not exist
    | EmptyName                      // `with_suffix` raised: the input has an empty name
    | OpenFailed(message: string)    // the input is not a decodable file
    | SaveFailed(message: string)    // the target is a directory, or the encoder failed

  /** A successful conversion: where the JPEG goes, the image handed to the encoder, and its bytes. */
  datatype Written = Written(target: Path, image: Image, data: Bytes)

  /** The output path: the one given, or the input with its final suffix replaced by ".jpg". */
  function Target(input: Path, output: Option<Path>): Result<Path, string> {
    if output.None? then WithSuffix(input, JpgSuffix) else Ok(output.value)
  }

  /**
   * What converting `input` to the JPEG file `target` does, given the files and directories on disk
   * before the call: a missing input fails first; then the input is decoded, normalised and encoded.
   */
  function ConvertAt(files: map<Path, Bytes>, dirs: set<Path>, input: Path, target: Path, quality: int,
                     codec: Codec): Result<Written, Failure>
  {
    if input !in files && input !in dirs then Err(Missing)
    else if input !in files then Err(OpenFailed("Is a directory"))
    else
      var decoded := codec.open(files[input]);
      if decoded.Err? then Err(OpenFailed(decoded.error))
      else
        var image := NormaliseForJpeg(decoded.value);
        if target in dirs then Err(SaveFailed("Is a directory"))
        else
          var encoded := codec.encode(image, quality);
          if encoded.Err? then Err(SaveFailed(encoded.error))
          else Ok(Written(target, image, encoded.value))
  }

  /**
   * What converting `input` does, given the files and directories on disk before the call: the
   * existence check comes before the target is chosen, so a missing input without an output path
   * fails as missing.
   */
  function ConvertOutcome(files: map<Path, Bytes>, dirs: set<Path>, input: Path, output: Option<Path>,
                          quality: int, codec: Codec): Result<Written, Failure>
  {
    if input !in files && input !in dirs then Err(Missing)
    else
      var target := Target(input, output);
      if target.Err? then Err(EmptyName)
      else ConvertAt(files, dirs, input, target.value, quality, codec)
  }

  /**
   * A missing input fails before anything is read; a success has read an existing file, handed the
   * encoder an RGB image and targets the given output path, or else the input with its final suffix
   * replaced by ".jpg" in the same directory.
   */
  lemma ConvertOutcomeSpec(files: map<Path, Bytes>, dirs: set<Path>, input: Path, output: Option<Path>,
                           quality: int, codec: Codec)
    ensures var r := ConvertOutcome(files, dirs, input, output, quality, codec);
      (input !in files && input !in dirs ==> r == Err(Missing)) &&
      (r.Ok? ==> input in files && r.value.target !in dirs) &&
      (r.Ok? ==> r.value.image.mode == "RGB" && codec.encode(r.value.image, quality) == Ok(r.value.data)) &&
      (r.Ok? ==> r.value.image == NormaliseForJpeg(codec.open(files[input]).value)) &&
      (r.Ok? && output.Some? ==> r.value.target == output.value) &&
      (r.Ok? && output.None? ==>
        |r.value.target| == |input| && Parent(r.value.target) == Parent(input) &&
        Stem(Name(r.value.target)) == Stem(Name(input)) && Suffix(Name(r.value.target)) == JpgSuffix) &&
      ((input in files || input in dirs) && output.None? && Name(input) == "" ==> r == Err(EmptyName)) &&
      (input in files && Target(input, output).Ok? && codec.open(files[input]).Err? ==>
        r == Err(OpenFailed(codec.open(files[input]).error))) &&
      (input in files && Target(input, output).Ok? && Target(input, output).value !in dirs &&
       codec.open(files[input]).Ok? && codec.encode(NormaliseForJpeg(codec.open(files[input]).value), quality).Err? ==>
        r == Err(SaveFailed(codec.encode(NormaliseForJpeg(codec.open(files[input]).value), quality).error))) &&
      (input in files && Target(input, output).Ok? && Target(input, output).value !in dirs &&
       codec.open(files[input]).Ok? && codec.encode(NormaliseForJpeg(codec.open(files[input]).value), quality).Ok? ==>
        r.Ok?)
  {
    if output.None? && Name(input) != "" {
      WithSuffixReplacesFinalSuffix(input, JpgSuffix);
    }
  }

  /** The files on disk after a conversion: the JPEG is written only on success. */
  function Store(files: map<Path, Bytes>, r: Result<Written, Failure>): map<Path, Bytes> {
    if r.Ok? then files[r.value.target := r.value.data] else files
  }

  /** `name.startswith('._')`: a macOS metadata shadow file. */
  predicate IsMetadata(p: Path) {
    StartsWith(Name(p), MetadataPrefix)
  }

  /** The listing without metadata files, in the listing's order. */
  function DropMetadata(ps: seq<Path>): (r: seq<Path>)
    ensures |r| <= |ps|
  {
    if ps == [] then []
    else DropMetadata(ps[..|ps| - 1]) + (if IsMetadata(ps[|ps| - 1]) then [] else [ps[|ps| - 1]])
  }

  /** Exactly the files that are not metadata files are kept. */
  lemma {:induction false} DropMetadataMembers(ps: seq<Path>)
    ensures forall p :: p in DropMetadata(ps) <==> p in ps && !IsMetadata(p)
  {
    if ps != [] {
      var init := ps[..|ps| - 1];
      DropMetadataMembers(init);
      assert ps == init + [ps[|ps| - 1]];
    }
  }

  /** Filtering commutes with concatenation, so the kept files stay in their relative order. */
  lemma {:induction false} DropMetadataAppend(a: seq<Path>, b: seq<Path>)
    ensures DropMetadata(a + b) == DropMetadata(a) + DropMetadata(b)
    decreases |b|
  {
    if b == [] {
      assert a + b == a;
    } else {
      var b' := b[..|b| - 1];
      assert (a + b)[..|a + b| - 1] == a + b';
      DropMetadataAppend(a, b');
    }
  }

  /** A listing with no metadata file is kept whole. */
  lemma {:induction false} DropMetadataKeepsOthers(ps: seq<Path>)
    requires forall k :: 0 <= k < |ps| ==> !IsMetadata(ps[k])
    ensures DropMetadata(ps) == ps
  {
    if ps != [] {
      var init := ps[..|ps| - 1];
      var last := ps[|ps| - 1];
      assert !IsMetadata(last);
      assert forall k :: 0 <= k < |init| ==> !IsMetadata(init[k]) by {
        forall k | 0 <= k < |init|
          ensures !IsMetadata(init[k])
        {
          assert init[k] == ps[k];
        }
      }
      DropMetadataKeepsOthers(init);
      assert ps == init + [last];
    }
  }

  predicate IsHeicName(name: string) {
    EndsWith(name, ".heic") || EndsWith(name, ".HEIC")
  }

  /**
   * What `glob('*.heic') + glob('*.HEIC')` (or `rglob`) under `root` can return: paths strictly
   * below the root whose name matches a pattern, directly in the root unless the scan is recursive.
   */
  predicate Listed(p: Path, root: Path, recursive: bool) {
    Below(p, root) && IsHeicName(Name(p)) && (!recursive ==> |p| == |root| + 1)
  }

  /** A path strictly below `root` with a non-empty name. */
  predicate Below(p: Path, root: Path) {
    |p| > |root| && IsPrefix(root, p) && Name(p) != ""
  }

  predicate AllBelow(heic: seq<Path>, root: Path) {
    forall k :: 0 <= k < |heic| ==> Below(heic[k], root)
  }

  /**
   * Where the batch writes the JPEG for `f`: next to it, or under `outputRoot` at the same relative
   * location, the final suffix replaced by ".jpg" either way.
   */
  function JobTarget(f: Path, inputRoot: Path, outputRoot: Option<Path>): Path
    requires Below(f, inputRoot)
  {
    if outputRoot.None? then WithSuffix(f, JpgSuffix).value
    else
      var relative := RelativeTo(f, inputRoot).value;
      assert Name(relative) == Name(f);
      outputRoot.value + WithSuffix(relative, JpgSuffix).value
  }

  /** The JPEG targets of the listed files, in the listing's order. */
  function Targets(heic: seq<Path>, inputRoot: Path, outputRoot: Option<Path>): seq<Path>
    requires AllBelow(heic, inputRoot)
  {
    seq(|heic|, k requires 0 <= k < |heic| => JobTarget(heic[k], inputRoot, outputRoot))
  }

  /** Without an output root, each file's JPEG goes next to it, with the same stem and the suffix ".jpg". */
  lemma JobTargetBeside(f: Path, inputRoot: Path)
    requires Below(f, inputRoot)
    ensures var t := JobTarget(f, inputRoot, None);
      Parent(t) == Parent(f) && Stem(Name(t)) == Stem(Name(f)) && Suffix(Name(t)) == JpgSuffix
  {
    WithSuffixReplacesFinalSuffix(f, JpgSuffix);
  }

  /**
   * With an output root, each file's JPEG goes to the same place relative to the output root as the
   * file has relative to the input root, with the same stem and the suffix ".jpg".
   */
  lemma JobTargetMirrored(f: Path, inputRoot: Path, outputRoot: Path)
    requires Below(f, inputRoot)
    ensures var t := JobTarget(f, inputRoot, Some(outputRoot));
      Stem(Name(t)) == Stem(Name(f)) && Suffix(Name(t)) == JpgSuffix &&
      |t| == |outputRoot| + |f| - |inputRoot| &&
      t[..|outputRoot|] == outputRoot &&
      t[|outputRoot|..|t| - 1] == f[|inputRoot|..|f| - 1]
  {
    var relative := RelativeTo(f, inputRoot).value;
    assert relative == f[|inputRoot|..] && Name(relative) == Name(f) && Parent(relative) == f[|inputRoot|..|f| - 1] by {
      assert inputRoot + relative == f;
    }
    var renamed := WithSuffix(relative, JpgSuffix).value;
    assert Stem(Name(renamed)) == Stem(Name(f)) && Suffix(Name(renamed)) == JpgSuffix by {
      WithSuffixReplacesFinalSuffix(relative, JpgSuffix);
    }
    var t := outputRoot + renamed;
    assert t == JobTarget(f, inputRoot, Some(outputRoot));
    assert Name(t) == Name(renamed);
    assert t[..|outputRoot|] == outputRoot;
    assert t[|outputRoot|..|t| - 1] == Parent(renamed);
  }

  /** Every file the glob calls list and the filter keeps lies below the input root. */
  lemma ListingBelow(listing: seq<Path>, root: Path, recursive: bool)
    requires forall f :: f in listing ==> Listed(f, root, recursive)
    ensures AllBelow(DropMetadata(listing), root)
  {
    var heic := DropMetadata(listing);
    DropMetadataMembers(listing);
    forall k | 0 <= k < |heic|
      ensures Below(heic[k], root)
    {
      assert heic[k] in heic;
    }
  }

  /**
   * `p.mkdir(parents=True, exist_ok=True)` on a disk with `files` and `dirs`: an existing directory
   * is accepted; otherwise, when `p` or one of its ancestors is a file, the underlying `os.mkdir(p)`
   * raises naming `p`; else `p` and its ancestors become directories.
   */
  function MakeDirs(files: map<Path, Bytes>, dirs: set<Path>, p: Path): Result<set<Path>, Path> {
    if p in dirs then Ok(dirs)
    else if exists k :: 0 < k <= |p| && p[..k] in files then Err(p)
    else Ok(dirs + set k | 0 < k <= |p| :: p[..k])
  }

  /**
   * Creating directories keeps the existing ones, adds only `p` and ancestors of `p`, none of them
   * a file, and then `p` is a directory; it raises exactly when `p` is not a directory and `p` or an
   * ancestor is a file.
   */
  lemma MakeDirsSpec(files: map<Path, Bytes>, dirs: set<Path>, p: Path)
    ensures var r := MakeDirs(files, dirs, p);
      (r.Err? <==> p !in dirs && exists k :: 0 < k <= |p| && p[..k] in files) &&
      (r.Err? ==> r.error == p) &&
      (r.Ok? ==> dirs <= r.value && (|p| == 0 || p in r.value)) &&
      (r.Ok? ==> forall d :: d in r.value && d !in dirs ==> d !in files && 0 < |d| <= |p| && p[..|d|] == d)
  {
    if p !in dirs && |p| > 0 {
      assert p[..|p|] == p;
    }
  }

  /** The disk after the first `n` files of `heic` in order, and which conversions succeeded. */
  datatype Batch = Batch(files: map<Path, Bytes>, results: seq<bool>)

  /** One pass of the loop body: the file is converted to its target on the disk `before` left. */
  function BatchStep(before: Batch, dirs: set<Path>, f: Path, target: Path, quality: int, codec: Codec): Batch {
    var r := ConvertAt(before.files, dirs, f, target, quality, codec);
    Batch(Store(before.files, r), before.results + [r.Ok?])
  }

  function RunBatch(files: map<Path, Bytes>, dirs: set<Path>, heic: seq<Path>, targets: seq<Path>, n: nat,
                    quality: int, codec: Codec): (b: Batch)
    requires |targets| == |heic| && n <= |heic|
    ensures |b.results| == n
  {
    if n == 0 then Batch(files, [])
    else BatchStep(RunBatch(files, dirs, heic, targets, n - 1, quality, codec), dirs, heic[n - 1], targets[n - 1], quality, codec)
  }

  /** The batch of `i + 1` files is one more pass over the batch of `i`. */
  lemma RunBatchNext(files: map<Path, Bytes>, dirs: set<Path>, heic: seq<Path>, targets: seq<Path>, i: nat,
                     quality: int, codec: Codec)
    requires |targets| == |heic| && i < |heic|
    ensures RunBatch(files, dirs, heic, targets, i + 1, quality, codec) ==
      BatchStep(RunBatch(files, dirs, heic, targets, i, quality, codec), dirs, heic[i], targets[i], quality, codec)
  {
  }

  /** One pass deletes no file and writes at most its target. */
  lemma BatchStepFootprint(before: Batch, dirs: set<Path>, f: Path, target: Path, quality: int, codec: Codec)
    ensures var b := BatchStep(before, dirs, f, target, quality, codec);
      before.files.Keys <= b.files.Keys &&
      (forall p :: p in b.files && (p !in before.files || b.files[p] != before.files[p]) ==> p == target)
  {
    var r := ConvertAt(before.files, dirs, f, target, quality, codec);
    assert r.Ok? ==> r.value.target == target;
    StoreFootprint(before.files, r);
  }

  /** Storing a conversion's result changes at most its target. */
  lemma StoreFootprint(files: map<Path, Bytes>, r: Result<Written, Failure>)
    ensures files.Keys <= Store(files, r).Keys
    ensures forall p :: p in Store(files, r) && (p !in files || Store(files, r)[p] != files[p]) ==>
      r.Ok? && p == r.value.target
  {
  }

  /**
   * The batch deletes no file, and every file it writes or overwrites is the target of one of the
   * converted files.
   */
  lemma {:induction false} RunBatchFootprint(files: map<Path, Bytes>, dirs: set<Path>, heic: seq<Path>, targets: seq<Path>, n: nat,
                                             quality: int, codec: Codec)
    requires |targets| == |heic| && n <= |heic|
    ensures var b := RunBatch(files, dirs, heic, targets, n, quality, codec);
      files.Keys <= b.files.Keys &&
      (forall p :: p in b.files && (p !in files || b.files[p] != files[p]) ==>
        exists k :: 0 <= k < n && p == targets[k])
  {
    if n > 0 {
      var before := RunBatch(files, dirs, heic, targets, n - 1, quality, codec);
      RunBatchFootprint(files, dirs, heic, targets, n - 1, quality, codec);
      var b := BatchStep(before, dirs, heic[n - 1], targets[n - 1], quality, codec);
      BatchStepFootprint(before, dirs, heic[n - 1], targets[n - 1], quality, codec);
      forall p | p in b.files && (p !in files || b.files[p] != files[p])
        ensures exists k :: 0 <= k < n && p == targets[k]
      {
        if p !in before.files || b.files[p] != before.files[p] {
          assert p == targets[n - 1];
        }
      }
    }
  }

  lemma SuccessesAppend(results: seq<bool>, ok: bool)
    ensures Successes(results + [ok]) == Successes(results) + (if ok then 1 else 0)
  {
    assert (results + [ok])[..|results|] == results;
  }

  /** How many conversions succeeded. */
  function Successes(results: seq<bool>): nat {
    if |results| == 0 then 0
    else Successes(results[..|results| - 1]) + (if results[|results| - 1] then 1 else 0)
  }

  /** The summary never reports more successes than files, and reports all of them when none failed. */
  lemma {:induction false} SuccessesBounded(results: seq<bool>)
    ensures Successes(results) <= |results|
    ensures Successes(results) == |results| <==> forall k :: 0 <= k < |results| ==> results[k]
  {
    if results != [] {
      SuccessesBounded(results[..|results| - 1]);
    }
  }

  /** How `convert_directory` ends; `Raised` is the exception from creating the output root, naming it. */
  datatype DirOutcome =
    | InvalidDirectory
    | NoFiles
    | Summary(converted: nat, total: nat)
    | Raised(at: Path)

  /** The outcome of `convert_directory` and the disk it leaves. */
  datatype DirRun = DirRun(outcome: DirOutcome, files: map<Path, Bytes>, dirs: set<Path>)

  /**
   * What `convert_directory` does with the listing the glob calls returned: it checks the input
   * directory, creates the output root, drops the metadata files, and converts the rest in order.
   */
  function DirectoryRun(files: map<Path, Bytes>, dirs: set<Path>, inputRoot: Path, outputRoot: Option<Path>,
                        quality: int, recursive: bool, listing: seq<Path>, codec: Codec): DirRun
    requires forall f :: f in listing ==> Listed(f, inputRoot, recursive)
  {
    ListingBelow(listing, inputRoot, recursive);
    var heic := DropMetadata(listing);
    if inputRoot !in dirs then DirRun(InvalidDirectory, files, dirs)
    else
      var made := if outputRoot.Some? then MakeDirs(files, dirs, outputRoot.value) else Ok(dirs);
      if made.Err? then DirRun(Raised(made.error), files, dirs)
      else if heic == [] then DirRun(NoFiles, files, made.value)
      else
        var batch := RunBatch(files, made.value, heic, Targets(heic, inputRoot, outputRoot), |heic|, quality, codec);
        DirRun(Summary(Successes(batch.results), |heic|), batch.files, made.value)
  }

  /**
   * An invalid input directory changes nothing. Without an output root nothing raises and no
   * directory is created. Creating the output root raises exactly when it is not a directory and it
   * or an ancestor is a file, and then nothing changes; otherwise the output root is a directory
   * afterwards. A run that finds no files writes nothing. A summary counts at most one success per
   * file left after filtering. No file is ever deleted, and every file written is the JPEG target
   * of a listed file.
   */
  lemma DirectoryRunSpec(files: map<Path, Bytes>, dirs: set<Path>, inputRoot: Path, outputRoot: Option<Path>,
                         quality: int, recursive: bool, listing: seq<Path>, codec: Codec)
    requires forall f :: f in listing ==> Listed(f, inputRoot, recursive)
    ensures var run := DirectoryRun(files, dirs, inputRoot, outputRoot, quality, recursive, listing, codec);
      (inputRoot !in dirs ==> run == DirRun(InvalidDirectory, files, dirs)) &&
      (outputRoot.None? ==> !run.outcome.Raised? && run.dirs == dirs) &&
      (inputRoot in dirs && outputRoot.Some? ==>
        (run.outcome.Raised? <==>
          outputRoot.value !in dirs && exists k :: 0 < k <= |outputRoot.value| && outputRoot.value[..k] in files)) &&
      (run.outcome.Raised? ==> run.outcome.at == outputRoot.value && run.files == files && run.dirs == dirs) &&
      (inputRoot in dirs && outputRoot.Some? && !run.outcome.Raised? && |outputRoot.value| > 0 ==>
        outputRoot.value in run.dirs) &&
      (run.outcome.NoFiles? ==> run.files == files && DropMetadata(listing) == []) &&
      (run.outcome.Summary? ==>
        inputRoot in dirs && run.outcome.total == |DropMetadata(listing)| > 0 && run.outcome.converted <= run.outcome.total) &&
      (inputRoot in dirs && outputRoot.None? ==> (run.outcome.Summary? <==> DropMetadata(listing) != [])) &&
      files.Keys <= run.files.Keys && dirs <= run.dirs &&
      (forall p :: p in run.files && (p !in files || run.files[p] != files[p]) ==>
        exists f :: f in DropMetadata(listing) && Below(f, inputRoot) && p == JobTarget(f, inputRoot, outputRoot))
  {
    ListingBelow(listing, inputRoot, recursive);
    var heic := DropMetadata(listing);
    if inputRoot in dirs {
      if outputRoot.Some? {
        MakeDirsSpec(files, dirs, outputRoot.value);
      }
      var made := if outputRoot.Some? then MakeDirs(files, dirs, outputRoot.value) else Ok(dirs);
      if made.Ok? && heic != [] {
        var targets := Targets(heic, inputRoot, outputRoot);
        var batch := RunBatch(files, made.value, heic, targets, |heic|, quality, codec);
        RunBatchFootprint(files, made.value, heic, targets, |heic|, quality, codec);
        SuccessesBounded(batch.results);
        forall p | p in batch.files && (p !in files || batch.files[p] != files[p])
          ensures exists f :: f in heic && Below(f, inputRoot) && p == JobTarget(f, inputRoot, outputRoot)
        {
          var k :| 0 <= k < |heic| && p == targets[k];
          assert heic[k] in heic;
        }
      }
    }
  }

  /** The options read from the arguments after the input path. */
  datatype Options = Options(quality: int, recursive: bool, output: Option<string>)

  predicate IsQualityFlag(arg: string) {
    StartsWith(arg, QualityFlag)
  }

  /**
   * `arg.split('=')[1]`: the text after the flag's '=' up to the next '=', or to the end when no
   * other '=' follows.
   */
  function QualityText(arg: string): (r: string)
    requires IsQualityFlag(arg)
    ensures '=' !in r
    ensures StartsWith(arg[|QualityFlag|..], r)
    ensures |QualityFlag| + |r| == |arg| || arg[|QualityFlag| + |r|] == '='
  {
    var rest := arg[|QualityFlag|..];
    var n := FieldLength(rest, '=');
    rest[..n]
  }

  /** An argument that assigns the quality: a quality flag whose value parses as an integer. */
  predicate SetsQuality(arg: string) {
    IsQualityFlag(arg) && ParseInt(QualityText(arg)).Some?
  }

  /** An argument that is neither a quality flag nor the recursive flag. */
  predicate IsPositional(arg: string) {
    !IsQualityFlag(arg) && arg != RecursiveFlag
  }

  /** The quality after the arguments `args` have been read in order. */
  function FinalQuality(args: seq<string>): (q: int)
    ensures 1 <= q <= 100
  {
    if args == [] then DefaultQuality
    else
      var arg := args[|args| - 1];
      if SetsQuality(arg) then Sanitize(ParseInt(QualityText(arg)).value) else FinalQuality(args[..|args| - 1])
  }

  /** The output path after the arguments `args` have been read in order. */
  function FirstPositional(args: seq<string>): Option<string> {
    if args == [] then None
    else
      var earlier := FirstPositional(args[..|args| - 1]);
      if earlier.Some? then earlier
      else if IsPositional(args[|args| - 1]) then Some(args[|args| - 1])
      else None
  }

  /** Without a quality flag that has an integer value, the quality is 95. */
  lemma {:induction false} FinalQualityDefault(args: seq<string>)
    requires forall k :: 0 <= k < |args| ==> !SetsQuality(args[k])
    ensures FinalQuality(args) == DefaultQuality
  {
    if args != [] {
      var init := args[..|args| - 1];
      assert !SetsQuality(args[|args| - 1]);
      assert forall k :: 0 <= k < |init| ==> init[k] == args[k];
      FinalQualityDefault(init);
    }
  }

  /** The last quality flag with an integer value decides the quality (95 when out of range). */
  lemma {:induction false} FinalQualityLastSetting(args: seq<string>, k: nat)
    requires k < |args| && SetsQuality(args[k])
    requires forall j :: k < j < |args| ==> !SetsQuality(args[j])
    ensures FinalQuality(args) == Sanitize(ParseInt(QualityText(args[k])).value)
  {
    var last := |args| - 1;
    if k < last {
      var init := args[..last];
      assert !SetsQuality(args[last]);
      assert init[k] == args[k];
      assert forall j :: k < j < |init| ==> init[j] == args[j];
      FinalQualityLastSetting(init, k);
    }
  }

  /** The output path is the first argument that is neither flag, and there is none when every argument is a flag. */
  lemma {:induction false} FirstPositionalIsFirst(args: seq<string>)
    ensures FirstPositional(args).None? <==> forall k :: 0 <= k < |args| ==> !IsPositional(args[k])
    ensures forall k :: 0 <= k < |args| && IsPositional(args[k]) &&
                        (forall j :: 0 <= j < k ==> !IsPositional(args[j])) ==>
              FirstPositional(args) == Some(args[k])
  {
    if args != [] {
      var init := args[..|args| - 1];
      FirstPositionalIsFirst(init);
      assert forall k :: 0 <= k < |init| ==> init[k] == args[k];
    }
  }

  /**
   * The loop over `sys.argv[2:]`: a quality flag with an integer value sets the quality (95 when out
   * of range) and one without leaves it as it was; the recursive flag sets the flag; the first other
   * argument becomes the output path and later ones are ignored.
   */
  method ParseArgs(args: seq<string>) returns (opts: Options)
    ensures 1 <= opts.quality <= 100
    ensures opts.quality == FinalQuality(args)
    ensures opts.recursive <==> RecursiveFlag in args
    ensures opts.output == FirstPositional(args)
  {
    var quality := DefaultQuality;
    var recursive := false;
    var output: Option<string> := None;
    assert !IsQualityFlag(RecursiveFlag) by {
      assert RecursiveFlag[2] != QualityFlag[2];
    }
    for i := 0 to |args|
      invariant quality == FinalQuality(args[..i])
      invariant recursive <==> RecursiveFlag in args[..i]
      invariant output == FirstPositional(args[..i])
    {
      var arg := args[i];
      assert args[..i + 1][..i] == args[..i];
      assert args[..i + 1] == args[..i] + [arg];
      if IsQualityFlag(arg) {
        var parsed := ParseInt(QualityText(arg));
        if parsed.Some? {
          quality := parsed.value;
          if !(1 <= quality <= 100) {
            quality := DefaultQuality;
          }
        }
      } else if arg == RecursiveFlag {
        recursive := true;
      } else if output.None? {
        output := Some(arg);
      }
    }
    assert args[..|args|] == args;
    opts := Options(quality, recursive, output);
  }

  /** The output path given on the command line, as a path. */
  function OutputPath(args: seq<string>): (output: Option<Path>)
    ensures output.Some? <==> FirstPositional(args).Some?
  {
    match FirstPositional(args)
    case None => None
    case Some(text) => Some(ParsePath(text))
  }

  /** The file system as the converter sees it: regular files with their contents, and directories. */
  class Disk {
    var files: map<Path, Bytes>
    var dirs: set<Path>

    /** No path is both a file and a directory. */
    predicate Valid()
      reads this
    {
      files.Keys !! dirs
    }

    /**
     * `convert_heic_to_jpg`: False when the input is missing, before anything is read or written;
     * every failure afterwards is caught and also gives False with nothing written; on success the
     * encoded JPEG is written at the target.
     */
    method ConvertFile(input: Path, output: Option<Path>, quality: int, codec: Codec) returns (ok: bool)
      requires Valid()
      modifies this
      ensures Valid() && dirs == old(dirs)
      ensures
        var r := ConvertOutcome(old(files), old(dirs), input, output, quality, codec);
        (ok <==> r.Ok?) && files == Store(old(files), r)
    {
      if input !in files && input !in dirs {
        return false;
      }
      var target: Path;
      if output.None? {
        var renamed := WithSuffix(input, JpgSuffix);
        if renamed.Err? {
          return false;
        }
        target := renamed.value;
      } else {
        target := output.value;
      }
      if input !in files {
        return false;
      }
      var decoded := codec.open(files[input]);
      if decoded.Err? {
        return false;
      }
      var image := NormaliseForJpeg(decoded.value);
      if target in dirs {
        return false;
      }
      var encoded := codec.encode(image, quality);
      if encoded.Err? {
        return false;
      }
      files := files[target := encoded.value];
      ok := true;
    }

    /** `p.mkdir(parents=True, exist_ok=True)`; `raised` names the file in the way when it raises. */
    method MakeDirectories(p: Path) returns (raised: Option<Path>)
      requires Valid()
      modifies this
      ensures Valid() && files == old(files)
      ensures var r := MakeDirs(old(files), old(dirs), p);
        (r.Err? ==> raised == Some(r.error) && dirs == old(dirs)) && (r.Ok? ==> raised.None? && dirs == r.value)
    {
      var r := MakeDirs(files, dirs, p);
      MakeDirsSpec(files, dirs, p);
      if r.Err? {
        return Some(r.error);
      }
      dirs := r.value;
      raised := None;
    }

    /**
     * The loop of `convert_directory`: converts each file in order to its target (`targets[i]` for
     * `heic[i]`) and counts the successes.
     */
    method ConvertEach(heic: seq<Path>, targets: seq<Path>, quality: int, codec: Codec)
      returns (successCount: nat)
      requires Valid() && |targets| == |heic|
      modifies this
      ensures Valid() && dirs == old(dirs)
      ensures var batch := RunBatch(old(files), old(dirs), heic, targets, |heic|, quality, codec);
        files == batch.files && successCount == Successes(batch.results) && successCount <= |heic|
    {
      successCount := 0;
      for i := 0 to |heic|
        invariant Valid() && dirs == old(dirs)
        invariant files == RunBatch(old(files), old(dirs), heic, targets, i, quality, codec).files
        invariant successCount == Successes(RunBatch(old(files), old(dirs), heic, targets, i, quality, codec).results)
      {
        ghost var before := RunBatch(old(files), old(dirs), heic, targets, i, quality, codec);
        RunBatchNext(old(files), old(dirs), heic, targets, i, quality, codec);
        var ok := ConvertFile(heic[i], Some(targets[i]), quality, codec);
        SuccessesAppend(before.results, ok);
        if ok {
          successCount := successCount + 1;
        }
      }
      SuccessesBounded(RunBatch(old(files), old(dirs), heic, targets, |heic|, quality, codec).results);
    }

    /**
     * `convert_directory` over the listing the glob calls returned: the output root is created,
     * metadata files are dropped, and each remaining file is converted in order.
     */
    method ConvertDirectory(inputRoot: Path, outputRoot: Option<Path>, quality: int, recursive: bool,
                            listing: seq<Path>, codec: Codec) returns (outcome: DirOutcome)
      requires Valid()
      requires forall f :: f in listing ==> Listed(f, inputRoot, recursive)
      modifies this
      ensures Valid()
      ensures var run := DirectoryRun(old(files), old(dirs), inputRoot, outputRoot, quality, recursive, listing, codec);
        outcome == run.outcome && files == run.files && dirs == run.dirs
    {
      ListingBelow(listing, inputRoot, recursive);
      if inputRoot !in dirs {
        return InvalidDirectory;
      }
      if outputRoot.Some? {
        var raised := MakeDirectories(outputRoot.value);
        if raised.Some? {
          return Raised(raised.value);
        }
      }
      var heic := DropMetadata(listing);
      if heic == [] {
        return NoFiles;
      }
      var targets := Targets(heic, inputRoot, outputRoot);
      var successCount := ConvertEach(heic, targets, quality, codec);
      outcome := Summary(successCount, |heic|);
    }

    /**
     * `main`: status 1 when there is no input argument, when the input is neither a file nor a
     * directory, or when converting a directory raised; otherwise the file or the directory is
     * converted with the options read from the remaining arguments, and the status is 0.
     */
    method RunCli(argv: seq<string>, listing: seq<Path>, codec: Codec) returns (status: int)
      requires Valid()
      requires |argv| >= 2 ==> forall f :: f in listing ==> Listed(f, ParsePath(argv[1]), RecursiveFlag in argv[2..])
      modifies this
      ensures Valid()
      ensures status == 0 || status == 1
      ensures |argv| < 2 ==> status == 1 && files == old(files) && dirs == old(dirs)
      ensures |argv| >= 2 && ParsePath(argv[1]) in old(files) ==>
        status == 0 && dirs == old(dirs) &&
        files == Store(old(files), ConvertOutcome(old(files), old(dirs), ParsePath(argv[1]), OutputPath(argv[2..]),
                                                  FinalQuality(argv[2..]), codec))
      ensures |argv| >= 2 && ParsePath(argv[1]) !in old(files) && ParsePath(argv[1]) in old(dirs) ==>
        var run := DirectoryRun(old(files), old(dirs), ParsePath(argv[1]), OutputPath(argv[2..]), FinalQuality(argv[2..]),
                                RecursiveFlag in argv[2..], listing, codec);
        files == run.files && dirs == run.dirs && (status == 1 <==> run.outcome.Raised?)
      ensures |argv| >= 2 && ParsePath(argv[1]) !in old(files) && ParsePath(argv[1]) !in old(dirs) ==>
        status == 1 && files == old(files) && dirs == old(dirs)
    {
      if |argv| < 2 {
        return 1;
      }
      var input := ParsePath(argv[1]);
      var opts := ParseArgs(argv[2..]);
      var output := if opts.output.Some? then Some(ParsePath(opts.output.value)) else None;
      if input in files {
        var _ := ConvertFile(input, output, opts.quality, codec);
        status := 0;
      } else if input in dirs {
        var outcome := ConvertDirectory(input, output, opts.quality, opts.recursive, listing, codec);
        status := if outcome.Raised? then 1 else 0;
      } else {
        status := 1;
      }
    }
  }
}
