/**
 * The pure string and path predicates of `intend4/file_utils.py`. Paths that
 * Python lets be `None` are `Option<string>`. What the operating system says
 * about a path (`os.path.isdir`, `os.path.isfile`, `os.access`) is an abstract
 * `FsView`; the separator is the POSIX `os.sep`, `/`.
 */
module FileUtils {
  import opened Wrappers
  import Strings

  const Sep: char := '/'

  // ---------------------------------------------------------------------------
  // `is_acceptable_filename`

  /** Python's `s.endswith(tuple(suffixes))`. */
  function EndsWithAny(s: string, suffixes: seq<string>): (r: bool)
    ensures r <==> exists i :: 0 <= i < |suffixes| && Strings.EndsWith(s, suffixes[i])
    decreases |suffixes|
  {
    if |suffixes| == 0 then false
    else
      assert forall i :: 1 <= i < |suffixes| ==> suffixes[i] == suffixes[1..][i - 1];
      Strings.EndsWith(s, suffixes[0]) || EndsWithAny(s, suffixes[1..])
  }

  /** `is_acceptable_filename`: `None` is never acceptable; a name is when it ends
      with one of the extensions, taken literally (the dot is part of each extension). */
  function IsAcceptableFilename(filename: Option<string>, extents: seq<string>): (r: bool)
    ensures filename.None? ==> !r
    ensures filename.Some? ==>
              (r <==> exists i :: 0 <= i < |extents| && Strings.EndsWith(filename.value, extents[i]))
  {
    filename.Some? && EndsWithAny(filename.value, extents)
  }

  /** Acceptance looks only at the end of the name: whatever precedes an acceptable
      name (a directory, a longer stem) keeps it acceptable. */
  lemma AcceptableUnderPrefix(prefix: string, name: string, extents: seq<string>)
    requires IsAcceptableFilename(Some(name), extents)
    ensures IsAcceptableFilename(Some(prefix + name), extents)
  {
    var i :| 0 <= i < |extents| && Strings.EndsWith(name, extents[i]);
    var s := prefix + name;
    assert s[|s| - |extents[i]|..] == name[|name| - |extents[i]|..];
  }

  /** A name shorter than every extension is never acceptable. */
  lemma ShortNameRejected(name: string, extents: seq<string>)
    requires forall i :: 0 <= i < |extents| ==> |name| < |extents[i]|
    ensures !IsAcceptableFilename(Some(name), extents)
  {
  }

  // ---------------------------------------------------------------------------
  // `path_has_dots`

  /** `path_has_dots`: some `/`-separated piece is `.` or `..`. */
  function PathHasDots(apath: Option<string>): (r: bool)
    ensures apath.None? ==> !r
  {
    match apath
    case None => false
    case Some(p) =>
      var pieces := Strings.Split(p, Sep);
      "." in pieces || ".." in pieces
  }

  /** Read through the path's components: a path built by joining components
      with `/` has dots exactly when one of those components is `.` or `..`. */
  lemma PathHasDotsMeans(components: seq<string>)
    requires |components| >= 1
    requires forall i :: 0 <= i < |components| ==> Sep !in components[i]
    ensures PathHasDots(Some(Strings.Join(components, Sep))) <==> ("." in components || ".." in components)
  {
    Strings.SplitJoin(components, Sep);
  }

  // ---------------------------------------------------------------------------
  // `filename_core`

  predicate AllDots(s: string) {
    forall i :: 0 <= i < |s| ==> s[i] == '.'
  }

  /** A final path component has an extension when some `.` in it follows a
      character other than `.`: a name of leading dots only (`.bashrc`, `..`) has none. */
  predicate HasExtension(c: string) {
    exists k, j :: 0 <= k < j < |c| && c[k] != '.' && c[j] == '.'
  }

  /** `os.path.splitext` on POSIX: the extension runs from the last `.` of the final
      component to its end, unless every `.` before it in that component is leading,
      in which case there is no extension. */
  function SplitExt(p: string): (r: (string, string))
    ensures r.0 + r.1 == p
    ensures r.1 == "" || (r.1[0] == '.' && Sep !in r.1 && '.' !in r.1[1..])
    ensures r.1 != "" <==> HasExtension(Basename(p))
  {
    var sepIndex := Strings.RFind(p, Sep);
    var dotIndex := Strings.RFind(p, '.');
    if dotIndex > sepIndex && !AllDots(p[sepIndex + 1..dotIndex]) then
      ExtensionBeforeLastDot(p, sepIndex, dotIndex);
      SplitAtLastDot(p, sepIndex, dotIndex);
      (p[..dotIndex], p[dotIndex..])
    else
      NoExtensionBeforeLastDot(p, sepIndex, dotIndex);
      (p, "")
  }

  /** Cutting at the last `.` after the last `/` leaves a dot-led, separator-free tail. */
  lemma SplitAtLastDot(p: string, sepIndex: int, dotIndex: int)
    requires sepIndex == Strings.RFind(p, Sep) && dotIndex == Strings.RFind(p, '.')
    requires sepIndex < dotIndex
    ensures p[..dotIndex] + p[dotIndex..] == p
    ensures p[dotIndex..][0] == '.' && '.' !in p[dotIndex..][1..] && Sep !in p[dotIndex..]
  {
    assert p[dotIndex..][1..] == p[dotIndex + 1..];
    assert p[dotIndex..] == p[sepIndex + 1..][dotIndex - sepIndex - 1..];
  }

  /** A character other than `.` between the last `/` and the last `.` makes an extension. */
  lemma ExtensionBeforeLastDot(p: string, sepIndex: int, dotIndex: int)
    requires -1 <= sepIndex < dotIndex < |p| && p[dotIndex] == '.'
    requires !AllDots(p[sepIndex + 1..dotIndex])
    ensures HasExtension(p[sepIndex + 1..])
    ensures sepIndex == Strings.RFind(p, Sep) ==> HasExtension(Basename(p))
  {
    var c := p[sepIndex + 1..];
    var k :| 0 <= k < |p[sepIndex + 1..dotIndex]| && p[sepIndex + 1..dotIndex][k] != '.';
    assert c[k] != '.' && c[dotIndex - sepIndex - 1] == '.';
  }

  /** With the last `.` before the last `/`, or only dots ahead of it, the final
      component has no extension. */
  lemma NoExtensionBeforeLastDot(p: string, sepIndex: int, dotIndex: int)
    requires sepIndex == Strings.RFind(p, Sep) && dotIndex == Strings.RFind(p, '.')
    requires dotIndex <= sepIndex || AllDots(p[sepIndex + 1..dotIndex])
    ensures !HasExtension(p[sepIndex + 1..])
    ensures !HasExtension(Basename(p))
  {
    var c := p[sepIndex + 1..];
    forall k, j | 0 <= k < j < |c| && c[j] == '.'
      ensures c[k] == '.'
    {
      assert p[sepIndex + 1 + j] == '.';
      assert p[sepIndex + 1..dotIndex][k] == c[k];
    }
  }

  /** `os.path.basename` on POSIX: what follows the last `/`. */
  function Basename(p: string): (r: string)
    ensures Sep !in r
    ensures Strings.EndsWith(p, r)
    ensures Sep in p ==> |r| < |p| && p[|p| - |r| - 1] == Sep
    ensures Sep !in p ==> r == p
  {
    var i := Strings.RFind(p, Sep);
    assert p[i + 1..] == p[|p| - |p[i + 1..]|..];
    p[i + 1..]
  }

  /** `filename_core`: the final path component without its extension; `''` for `None`. */
  function FilenameCore(apath: Option<string>): (r: string)
    ensures Sep !in r
    ensures apath.None? ==> r == ""
    ensures apath.Some? ==> r + SplitExt(apath.value).1 == Basename(apath.value)
    ensures apath.Some? && !HasExtension(Basename(apath.value)) ==> r == Basename(apath.value)
    ensures apath.Some? && HasExtension(Basename(apath.value)) ==>
              var base := Basename(apath.value);
              |r| < |base| && base[..|r|] == r && base[|r|] == '.' && '.' !in base[|r| + 1..]
  {
    match apath
    case None => ""
    case Some(p) =>
      var (root, ext) := SplitExt(p);
      BasenameOfRoot(root, ext);
      var base := Basename(root + ext);
      assert base[..|Basename(root)|] == Basename(root);
      assert ext != "" ==> base[|Basename(root)| + 1..] == ext[1..];
      Basename(root)
  }

  /** Removing a `/`-free tail does not move the last `/`. */
  lemma BasenameOfRoot(root: string, ext: string)
    requires Sep !in ext
    ensures Basename(root) + ext == Basename(root + ext)
  {
    var p := root + ext;
    var i := Strings.RFind(root, Sep);
    if i == -1 {
      assert Sep !in p by {
        forall j | 0 <= j < |p| ensures p[j] != Sep {
          if j < |root| { assert p[j] == root[j]; } else { assert p[j] == ext[j - |root|]; }
        }
      }
    } else {
      assert p[i] == Sep;
      assert p[i + 1..] == root[i + 1..] + ext;
      assert Strings.RFind(p, Sep) == i by {
        forall j | i + 1 <= j < |p| ensures p[j] != Sep {
          if j < |root| {
            assert p[j] == root[i + 1..][j - i - 1];
          } else {
            assert p[j] == ext[j - |root|];
          }
        }
        assert Sep !in p[i + 1..];
      }
    }
  }

  // ---------------------------------------------------------------------------
  // Directory and file checks over an abstract filesystem

  /** What `os.path.isdir`, `os.path.isfile` and `os.access(…, R_OK / W_OK)` report. */
  datatype FsView = FsView(
    isDir: string -> bool,
    isFile: string -> bool,
    readable: string -> bool,
    writable: string -> bool)

  /** Python truthiness of a path argument: neither `None` nor `''`. Where the
      source returns that falsy argument itself, the model returns `false`. */
  predicate Given(apath: Option<string>) {
    apath.Some? && apath.value != ""
  }

  function IsReadable(apath: Option<string>, fs: FsView): bool {
    Given(apath) && fs.readable(apath.value)
  }

  function IsWritable(apath: Option<string>, fs: FsView): bool {
    Given(apath) && fs.writable(apath.value)
  }

  /** `good_dir_path`: a readable directory, and writable too when asked. */
  function GoodDirPath(apath: Option<string>, writeable: bool, fs: FsView): (r: bool)
    ensures r <==> Given(apath) && fs.isDir(apath.value) && fs.readable(apath.value) &&
                   (writeable ==> fs.writable(apath.value))
  {
    Given(apath) && fs.isDir(apath.value) && IsReadable(apath, fs) && (!writeable || IsWritable(apath, fs))
  }

  /** `good_file_path`: a readable regular file, and writable too when asked. */
  function GoodFilePath(apath: Option<string>, writeable: bool, fs: FsView): (r: bool)
    ensures r <==> Given(apath) && fs.isFile(apath.value) && fs.readable(apath.value) &&
                   (writeable ==> fs.writable(apath.value))
  {
    Given(apath) && fs.isFile(apath.value) && IsReadable(apath, fs) && (!writeable || IsWritable(apath, fs))
  }

  /** Asking for writability only adds a condition: it never admits a path the
      plain check refuses, and on a writable path it changes nothing. */
  lemma WriteableOnlyNarrows(apath: Option<string>, fs: FsView)
    ensures GoodDirPath(apath, true, fs) ==> GoodDirPath(apath, false, fs)
    ensures GoodFilePath(apath, true, fs) ==> GoodFilePath(apath, false, fs)
    ensures IsWritable(apath, fs) ==>
              (GoodDirPath(apath, true, fs) == GoodDirPath(apath, false, fs) &&
               GoodFilePath(apath, true, fs) == GoodFilePath(apath, false, fs))
  {
  }

  /** `validate_file_path`: an acceptable file name that is a readable (and, when
      asked, writable) file. */
  function ValidateFilePath(apath: Option<string>, fileExtents: seq<string>, writable: bool, fs: FsView): (r: bool)
    ensures r <==> Given(apath) &&
                   (exists i :: 0 <= i < |fileExtents| && Strings.EndsWith(apath.value, fileExtents[i])) &&
                   fs.isFile(apath.value) && fs.readable(apath.value) &&
                   (writable ==> fs.writable(apath.value))
  {
    IsAcceptableFilename(apath, fileExtents) && GoodFilePath(apath, writable, fs)
  }

  // ---------------------------------------------------------------------------
  // `validate_path_strings`

  /** Whether `validate_path_strings` keeps a path. */
  predicate Keep(apath: Option<string>, fileExtents: seq<string>, fs: FsView) {
    ValidateFilePath(apath, fileExtents, false, fs) || GoodDirPath(apath, false, fs)
  }

  /** The kept paths, in input order: the reference the loop is checked against. */
  function Kept(paths: seq<Option<string>>, fileExtents: seq<string>, fs: FsView): seq<Option<string>>
    decreases |paths|
  {
    if |paths| == 0 then []
    else
      var last := paths[|paths| - 1];
      Kept(paths[..|paths| - 1], fileExtents, fs) + (if Keep(last, fileExtents, fs) then [last] else [])
  }

  /** `a` is `b` with some elements deleted, the rest in their original order. */
  predicate Subsequence<T(==)>(a: seq<T>, b: seq<T>)
    decreases |b|
  {
    if |a| == 0 then true
    else if |b| == 0 then false
    else if a[|a| - 1] == b[|b| - 1] then Subsequence(a[..|a| - 1], b[..|b| - 1])
    else Subsequence(a, b[..|b| - 1])
  }

  /** A path is kept exactly when it is in the input and passes the check. */
  lemma {:induction false} KeptMembers(paths: seq<Option<string>>, fileExtents: seq<string>, fs: FsView, p: Option<string>)
    ensures p in Kept(paths, fileExtents, fs) <==> p in paths && Keep(p, fileExtents, fs)
    decreases |paths|
  {
    if |paths| > 0 {
      var init := paths[..|paths| - 1];
      KeptMembers(init, fileExtents, fs, p);
      assert paths == init + [paths[|paths| - 1]];
    }
  }

  /** The kept paths are the input with the refused ones deleted, order unchanged. */
  lemma {:induction false} KeptIsSubsequence(paths: seq<Option<string>>, fileExtents: seq<string>, fs: FsView)
    ensures Subsequence(Kept(paths, fileExtents, fs), paths)
    decreases |paths|
  {
    if |paths| > 0 {
      var init := paths[..|paths| - 1];
      var last := paths[|paths| - 1];
      var k := Kept(paths, fileExtents, fs);
      var k' := Kept(init, fileExtents, fs);
      KeptIsSubsequence(init, fileExtents, fs);
      if Keep(last, fileExtents, fs) {
        assert k[..|k| - 1] == k';
      } else if |k'| > 0 {
        assert k == k';
        assert k'[|k'| - 1] in k';
        KeptMembers(init, fileExtents, fs, k'[|k'| - 1]);
        assert k'[|k'| - 1] != last;
      }
    }
  }

  /** `validate_path_strings`: walk the paths once, keeping the acceptable files
      and the readable directories. */
  method ValidatePathStrings(pathstrings: seq<Option<string>>, fileExtents: seq<string>, fs: FsView)
    returns (pathList: seq<Option<string>>)
    ensures pathList == Kept(pathstrings, fileExtents, fs)
    ensures |pathList| <= |pathstrings|
    ensures forall p :: p in pathList ==> Keep(p, fileExtents, fs)
  {
    pathList := [];
    var i := 0;
    while i < |pathstrings|
      invariant 0 <= i <= |pathstrings|
      invariant pathList == Kept(pathstrings[..i], fileExtents, fs)
      invariant |pathList| <= i
      invariant forall p :: p in pathList ==> Keep(p, fileExtents, fs)
    {
      var pathname := pathstrings[i];
      assert pathstrings[..i + 1][..i] == pathstrings[..i];
      if ValidateFilePath(pathname, fileExtents, false, fs) {
        pathList := pathList + [pathname];
      } else if GoodDirPath(pathname, false, fs) {
        pathList := pathList + [pathname];
      }
      i := i + 1;
    }
    assert pathstrings[..i] == pathstrings;
  }
}
