/**
 * The part of pathlib the converter relies on: a path's final component, its stem and suffix,
 * `with_suffix`, `relative_to`, joining, and turning a command-line string into a path.
 */
module PurePaths {
  import opened Common

  /** A path as pathlib keeps it: the sequence of its parts. An absolute path starts with the part "/". */
  type Path = seq<string>

  /** The part that anchors an absolute path. */
  const Root := "/"

  predicate IsAbsolute(p: Path) {
    |p| > 0 && p[0] == Root
  }

  /** `Path.name`: the final part; "" for a path with no parts (such as ".") and for the root "/". */
  function Name(p: Path): string {
    if |p| == 0 || p[|p| - 1] == Root then "" else p[|p| - 1]
  }

  /** `Path.parent`: the path without its final part; "." and "/" are their own parents. */
  function Parent(p: Path): Path {
    if |p| == 0 || p[|p| - 1] == Root then p else p[..|p| - 1]
  }

  /** A path with a name is its parent followed by that name. */
  lemma NameParentSplit(p: Path)
    ensures Name(p) != "" ==> Parent(p) + [Name(p)] == p && |Parent(p)| == |p| - 1
    ensures Name(p) == "" && |p| > 0 && p[|p| - 1] != "" ==> Parent(p) == p
  {
  }

  /** `s.rfind('.')`: the index of the last dot, or -1 when there is none. */
  function LastDot(s: string): (i: int)
    ensures -1 <= i < |s|
    ensures i >= 0 ==> s[i] == '.'
    ensures forall j :: i < j < |s| ==> s[j] != '.'
  {
    if |s| == 0 then -1
    else if s[|s| - 1] == '.' then |s| - 1
    else LastDot(s[..|s| - 1])
  }

  /**
   * Where a name's suffix starts: at its last dot, unless that dot is the first or the last
   * character (".bashrc" and "a." have no suffix); the name's length when there is no suffix.
   */
  function SuffixStart(name: string): (k: nat)
    ensures k <= |name|
    ensures k < |name| ==> 0 < k < |name| - 1 && name[k] == '.'
    ensures k < |name| ==> forall j :: k < j < |name| ==> name[j] != '.'
    ensures k == |name| <==> !(0 < LastDot(name) < |name| - 1)
  {
    var i := LastDot(name);
    if 0 < i < |name| - 1 then i else |name|
  }

  /** `PurePath.suffix` of a path whose name is `name`: empty, or a dot followed by dot-free text. */
  function Suffix(name: string): (r: string)
    ensures r == "" || IsSuffixToken(r)
  {
    name[SuffixStart(name)..]
  }

  /** `PurePath.stem` of a path whose name is `name`: never empty for a non-empty name. */
  function Stem(name: string): (r: string)
    ensures name != "" ==> r != ""
  {
    name[..SuffixStart(name)]
  }

  /** A suffix as the converter passes it to `with_suffix`: a dot followed by at least one dot-free character. */
  predicate IsSuffixToken(ext: string) {
    |ext| >= 2 && ext[0] == '.' && forall j :: 1 <= j < |ext| ==> ext[j] != '.'
  }

  lemma {:induction false} StemSuffixSplit(name: string)
    ensures Stem(name) + Suffix(name) == name
    ensures name != "" ==> Stem(name) != ""
  {
  }

  /** Appending a suffix token to a non-empty stem yields a name with exactly that stem and suffix. */
  lemma {:induction false} StemOfAppendedSuffix(stem: string, ext: string)
    requires stem != "" && IsSuffixToken(ext)
    ensures Stem(stem + ext) == stem && Suffix(stem + ext) == ext
  {
    var s := stem + ext;
    var i := LastDot(s);
    assert s[|stem|] == '.';
    assert forall j :: |stem| < j < |s| ==> s[j] == ext[j - |stem|];
    assert i == |stem|;
    assert s[..|stem|] == stem;
  }

  /**
   * `Path.with_suffix(suffix)` for a suffix such as ".jpg": the name's suffix is replaced by `suffix`,
   * or `suffix` is appended when the name has none; a path with an empty name raises ValueError.
   */
  function WithSuffix(p: Path, suffix: string): (r: Result<Path, string>)
    requires IsSuffixToken(suffix)
    ensures r.Err? <==> Name(p) == ""
    ensures r.Ok? ==> |r.value| == |p| && Parent(r.value) == Parent(p)
  {
    if Name(p) == "" then Err("has an empty name")
    else Ok(Parent(p) + [Stem(Name(p)) + suffix])
  }

  /** `with_suffix` replaces only the final suffix: the stem, earlier dots included, is kept. */
  lemma {:induction false} WithSuffixReplacesFinalSuffix(p: Path, suffix: string)
    requires Name(p) != "" && IsSuffixToken(suffix)
    ensures WithSuffix(p, suffix).Ok?
    ensures Stem(Name(WithSuffix(p, suffix).value)) == Stem(Name(p))
    ensures Suffix(Name(WithSuffix(p, suffix).value)) == suffix
  {
    StemSuffixSplit(Name(p));
    StemOfAppendedSuffix(Stem(Name(p)), suffix);
  }

  /** `root` is an ancestor of `p` or `p` itself; both are absolute or both are relative. */
  predicate IsPrefix(root: Path, p: Path) {
    |root| <= |p| && p[..|root|] == root && IsAbsolute(root) == IsAbsolute(p)
  }

  /** `p.relative_to(root)`: the parts after `root`, or None where pathlib raises ValueError. */
  function RelativeTo(p: Path, root: Path): (r: Option<Path>)
    ensures r.Some? <==> IsPrefix(root, p)
    ensures r.Some? ==> root + r.value == p
  {
    if IsPrefix(root, p) then Some(p[|root|..]) else None
  }

  /** The parts of a path string: its '/'-separated pieces without the empty ones and ".". */
  function Parts(s: string): (r: seq<string>)
    ensures forall k :: 0 <= k < |r| ==> r[k] != "" && r[k] != "." && '/' !in r[k]
    decreases |s|
  {
    if |s| == 0 then []
    else if s[0] == '/' then Parts(s[1..])
    else
      var n := FieldLength(s, '/');
      (if s[..n] == "." then [] else [s[..n]]) + Parts(s[n..])
  }

  /** `Path(s)`: a string as a path; a leading '/' becomes the root part. */
  function ParsePath(s: string): (p: Path)
    ensures forall k :: 0 <= k < |p| ==> p[k] != "" && p[k] != "."
    ensures forall k :: 0 <= k < |p| ==> p[k] == Root || '/' !in p[k]
    ensures |p| > 0 && p[0] == "/" <==> |s| > 0 && s[0] == '/'
  {
    (if |s| > 0 && s[0] == '/' then ["/"] else []) + Parts(s)
  }

  /** A plain file name, with no '/' and not "." or "", is a one-part path whose name is itself. */
  lemma {:induction false} ParsePlainName(name: string)
    requires name != "" && name != "." && '/' !in name
    ensures ParsePath(name) == [name]
  {
    var n := FieldLength(name, '/');
    assert name[..n] == name;
    assert name[n..] == [];
    assert name[0] != '/';
    assert Parts(name) == [name] + Parts([]);
  }

  /** A piece that does not start with '/' ends where the string before a joining '/' ends. */
  lemma {:induction false} SegmentLengthJoin(a: string, b: string)
    ensures FieldLength(a + "/" + b, '/') == FieldLength(a, '/')
    decreases |a|
  {
    if |a| > 0 && a[0] != '/' {
      assert (a + "/" + b)[1..] == a[1..] + "/" + b;
      SegmentLengthJoin(a[1..], b);
    }
  }

  /** The pieces of two strings joined by '/' are the pieces of the first followed by those of the second. */
  lemma {:induction false} PartsJoin(a: string, b: string)
    ensures Parts(a + "/" + b) == Parts(a) + Parts(b)
    decreases |a|
  {
    var s := a + "/" + b;
    if |a| == 0 {
      assert s[1..] == b;
    } else if a[0] == '/' {
      assert s[1..] == a[1..] + "/" + b;
      PartsJoin(a[1..], b);
    } else {
      var n := FieldLength(a, '/');
      SegmentLengthJoin(a, b);
      assert s[..n] == a[..n];
      assert s[n..] == a[n..] + "/" + b;
      PartsJoin(a[n..], b);
    }
  }

  /**
   * `Path(a + "/" + b)` is `Path(a) / b` for a relative `b`: the parts of the joined string are those
   * of `a` followed by those of `b`. With `ParsePlainName`, a string's parts are its '/'-separated
   * pieces in order.
   */
  lemma ParsePathJoin(a: string, b: string)
    requires a != "" && (b == "" || b[0] != '/')
    ensures ParsePath(a + "/" + b) == ParsePath(a) + ParsePath(b)
  {
    PartsJoin(a, b);
    assert (a + "/" + b)[0] == a[0];
  }
}
