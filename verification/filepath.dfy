/**
 The two path functions of Go's `path/filepath` package that main.go uses to
 name a component after its file: `Base` (the last path element) and `Ext`
 (the final extension). They are modelled for a Unix host, where the only
 path separator is '/' and there is no volume name. Go strings are byte
 strings; here a path is a `string` whose characters stand for its bytes, which
 changes nothing because '/' and '.' are single ASCII bytes.
 */
module FilePath {

  const Separator: char := '/'

  /** True when every character of `p` is a separator (vacuously for ""). */
  predicate AllSeparators(p: string) {
    forall i | 0 <= i < |p| :: p[i] == Separator
  }

  /** `p` without its trailing separators (the first loop of `filepath.Base`). */
  function TrimTrailingSeparators(p: string): (r: string)
    ensures r <= p
    ensures r == "" || r[|r| - 1] != Separator
    ensures forall i | |r| <= i < |p| :: p[i] == Separator
    decreases |p|
  {
    if |p| > 0 && p[|p| - 1] == Separator then TrimTrailingSeparators(p[..|p| - 1]) else p
  }

  /** The longest suffix of `p` free of separators: what the backward scan for
      the last separator in `filepath.Base` leaves. */
  function LastElement(p: string): (r: string)
    ensures |r| <= |p| && r == p[|p| - |r|..]
    ensures Separator !in r
    ensures |r| < |p| ==> p[|p| - |r| - 1] == Separator
    decreases |p|
  {
    if p == [] || p[|p| - 1] == Separator then []
    else LastElement(p[..|p| - 1]) + [p[|p| - 1]]
  }

  /** `filepath.Base`: the last element of `path` after trailing separators are
      removed; "." for the empty path and "/" for a path of separators only. */
  function Base(path: string): (r: string)
    ensures r != ""
    ensures Separator in r ==> r == [Separator]
  {
    if path == "" then "."
    else
      var element := LastElement(TrimTrailingSeparators(path));
      if element == "" then [Separator] else element
  }

  /** `filepath.Ext`: the suffix of `path` that starts at the last '.' of its
      last element, or "" when that element has no '.'. */
  function Ext(path: string): (r: string)
    ensures |r| <= |path| && r == path[|path| - |r|..]
    ensures r != "" ==> r[0] == '.'
    ensures Separator !in r
    ensures forall i | 1 <= i < |r| :: r[i] != '.'
    decreases |path|
  {
    if path == "" || path[|path| - 1] == Separator then ""
    else if path[|path| - 1] == '.' then [path[|path| - 1]]
    else
      var e := Ext(path[..|path| - 1]);
      if e == "" then "" else e + [path[|path| - 1]]
  }

  /** A directory prefix as `filepath.Join` leaves it before a file name: empty,
      or ending in a separator. */
  predicate IsDirPrefix(dir: string) {
    dir == "" || dir[|dir| - 1] == Separator
  }

  /** The last element of `dir + name` is `name` when `name` has no separator. */
  lemma {:induction false} LastElementOfJoin(dir: string, name: string)
    requires IsDirPrefix(dir)
    requires Separator !in name
    ensures LastElement(dir + name) == name
    decreases |name|
  {
    if name == [] {
      assert dir + name == dir;
    } else {
      var path := dir + name;
      var init, last := name[..|name| - 1], name[|name| - 1];
      assert path[|path| - 1] == last;
      assert path[..|path| - 1] == dir + init;
      LastElementOfJoin(dir, init);
      assert LastElement(path) == LastElement(dir + init) + [last];
      assert init + [last] == name;
    }
  }

  /** The base name of a file path built as `dir + name` is `name`. */
  lemma BaseOfJoin(dir: string, name: string)
    requires IsDirPrefix(dir)
    requires name != "" && Separator !in name
    ensures Base(dir + name) == name
  {
    var path := dir + name;
    assert path[|path| - 1] == name[|name| - 1];
    assert TrimTrailingSeparators(path) == path;
    LastElementOfJoin(dir, name);
  }

  /** `Base` yields the separator itself exactly when the path is a non-empty
      run of separators; otherwise the base name holds no separator at all. */
  lemma BaseIsSeparatorOnlyForRoot(path: string)
    ensures Base(path) == [Separator] <==> path != "" && AllSeparators(path)
  {
  }

  /** `Ext` is empty exactly when the last element of the path holds no '.'. */
  lemma {:induction false} ExtEmptyIffNoDot(path: string)
    ensures Ext(path) == "" <==> '.' !in LastElement(path)
    decreases |path|
  {
    if path != "" && path[|path| - 1] != Separator && path[|path| - 1] != '.' {
      ExtEmptyIffNoDot(path[..|path| - 1]);
    }
  }

  /** The extension of `stem + "." + ext` is `"." + ext` whenever `ext`
      holds neither '.' nor a separator: only the final extension is taken, so
      `a.tar.gz` has extension `.gz`, whatever precedes the last '.'. */
  lemma {:induction false} ExtOfDottedName(stem: string, ext: string)
    requires Separator !in ext && '.' !in ext
    ensures Ext(stem + "." + ext) == "." + ext
    decreases |ext|
  {
    var path := stem + "." + ext;
    if ext == "" {
      assert path[|path| - 1] == '.';
      assert path[|path| - 1..] == ".";
    } else {
      var init := ext[..|ext| - 1];
      var c := ext[|ext| - 1];
      assert path[|path| - 1] == c;
      assert path[..|path| - 1] == stem + "." + init;
      ExtOfDottedName(stem, init);
      assert "." + init + [c] == "." + ext;
    }
  }

  /** The file `dir + name`, with `name` spelled `stem + "." + ext`, has base
      name `name` and extension `"." + ext`. */
  lemma BaseAndExtOfFile(dir: string, stem: string, ext: string, name: string)
    requires IsDirPrefix(dir)
    requires Separator !in stem
    requires Separator !in ext && '.' !in ext
    requires name == stem + "." + ext
    ensures Base(dir + name) == name
    ensures Ext(name) == "." + ext
    ensures name == stem + ("." + ext)
  {
    assert stem + "." + ext == stem + ("." + ext);
    BaseOfJoin(dir, name);
    ExtOfDottedName(stem, ext);
  }

  /** A string is the part before a suffix of it followed by that suffix. */
  lemma SplitBeforeSuffix(s: string, suffix: string)
    requires |suffix| <= |s| && suffix == s[|s| - |suffix|..]
    ensures s[..|s| - |suffix|] + suffix == s
  {
  }
}
