/** `parsePath`: splits a file path into the grouping folders above the
    file's own folder, the file's base name and its extension. */
module PathParser {
  import opened Wrappers
  import opened Text

  datatype ParsedPath = ParsedPath(paths: seq<string>, file: string, ext: string)

  /** The original dereferences `undefined` (and throws) when no path
      component survives; the model reports that as an error value. */
  datatype PathError = EmptyPath

  /** Every character is outside `A`..`Z`. */
  predicate NoUpper(s: string) { forall c :: c in s ==> !IsUpper(c) }

  /** `^[a-z]:` on the lower-cased path. */
  predicate HasDrivePrefix(path: string) { |path| >= 2 && IsLower(path[0]) && path[1] == ':' }

  /** `^([a-z]:|\\\\)`: a drive letter or a leading double backslash. */
  predicate IsWindowsPath(path: string)
  {
    HasDrivePrefix(path) || (|path| >= 2 && path[0] == '\\' && path[1] == '\\')
  }

  /** `replace(/^[a-z]:/, "")` followed by `replace(/\\/g, "/")` on a
      Windows path; any other path is left alone. */
  function NormalizeSeparators(path: string): (r: string)
    ensures !IsWindowsPath(path) ==> r == path
    ensures IsWindowsPath(path) ==> '\\' !in r
    ensures IsWindowsPath(path) ==>
      var skip := if HasDrivePrefix(path) then 2 else 0;
      |r| == |path| - skip &&
      forall i :: 0 <= i < |r| ==> r[i] == (if path[i + skip] == '\\' then '/' else path[i + skip])
    ensures NoUpper(path) ==> NoUpper(r)
  {
    if IsWindowsPath(path) then
      var rest := if HasDrivePrefix(path) then path[2..] else path;
      seq(|rest|, i requires 0 <= i < |rest| => if rest[i] == '\\' then '/' else rest[i])
    else path
  }

  /** The characters `String.prototype.trim` removes: the WhiteSpace and
      LineTerminator code points of ECMAScript. */
  predicate IsWhitespace(c: char)
  {
    var n := c as int;
    (9 <= n <= 13) || n == 0x20 || n == 0xA0 || n == 0x1680 || (0x2000 <= n <= 0x200A)
    || n == 0x2028 || n == 0x2029 || n == 0x202F || n == 0x205F || n == 0x3000 || n == 0xFEFF
  }

  /** `s.trim().length === 0`. */
  predicate IsBlank(s: string) { forall i :: 0 <= i < |s| ==> IsWhitespace(s[i]) }

  /** `filter((component) => component.trim().length > 0)`. */
  function NonBlank(parts: seq<string>): (r: seq<string>)
    ensures |r| <= |parts|
    ensures forall k :: 0 <= k < |r| ==> r[k] != "" && !IsBlank(r[k])
    ensures forall x :: x in r <==> x in parts && !IsBlank(x)
    ensures forall x :: multiset(r)[x] == if IsBlank(x) then 0 else multiset(parts)[x]
  {
    if parts == [] then []
    else
      assert parts == [parts[0]] + parts[1..];
      if IsBlank(parts[0]) then NonBlank(parts[1..])
      else [parts[0]] + NonBlank(parts[1..])
  }

  /** The blank filter keeps the order of the pieces: filtering a
      concatenation concatenates the filtered parts. */
  lemma {:induction false} NonBlankConcat(xs: seq<string>, ys: seq<string>)
    ensures NonBlank(xs + ys) == NonBlank(xs) + NonBlank(ys)
  {
    if xs == [] {
      assert xs + ys == ys;
    } else {
      assert (xs + ys)[0] == xs[0];
      assert (xs + ys)[1..] == xs[1..] + ys;
      NonBlankConcat(xs[1..], ys);
    }
  }

  /** What every surviving component is: non-empty, not blank, lower-case. */
  predicate IsComponent(c: string) { c != "" && !IsBlank(c) && NoUpper(c) }

  /** The path components that survive lower-casing, normalisation,
      splitting on `/` and dropping blank pieces. */
  function Components(filePath: string): (comps: seq<string>)
    ensures forall k :: 0 <= k < |comps| ==> IsComponent(comps[k])
  {
    var parts := Split(NormalizeSeparators(ToLower(filePath)), '/');
    NonBlank(parts)
  }

  /** The characters of `[a-z0-9]`. */
  predicate IsExtChar(c: char) { IsLower(c) || '0' <= c <= '9' }

  /** `/\.[a-z0-9]*$/` matches at position `p` of `name`. */
  predicate ExtMatchAt(name: string, p: nat)
  {
    p < |name| && name[p] == '.' && forall k :: p < k < |name| ==> IsExtChar(name[k])
  }

  /** `/\.[a-z0-9]*$/` matches nowhere in `name`. */
  predicate NoExtMatch(name: string) { forall q :: 0 <= q < |name| ==> !ExtMatchAt(name, q) }

  /** The regular expression's search: the leftmost match at or after `p`,
      or `""` (the `?? ""` default) when there is none. */
  function ExtensionFrom(name: string, p: nat): (r: string)
    requires p <= |name|
    ensures r == "" ==> forall q :: p <= q < |name| ==> !ExtMatchAt(name, q)
    ensures r != "" ==> exists q :: p <= q < |name| && ExtMatchAt(name, q) && r == name[q..]
    decreases |name| - p
  {
    if p == |name| then ""
    else if ExtMatchAt(name, p) then name[p..]
    else ExtensionFrom(name, p + 1)
  }

  /** The text a match at `q` covers is a dot, then only `[a-z0-9]`, up to
      the end of the name. */
  lemma ExtMatchShape(name: string, q: nat)
    requires ExtMatchAt(name, q)
    ensures var r := name[q..];
      && r[0] == '.'
      && (forall k :: 1 <= k < |r| ==> IsExtChar(r[k]))
      && '.' !in r[1..]
  {
    var r := name[q..];
    forall k | 1 <= k < |r| ensures IsExtChar(r[k]) { assert r[k] == name[q + k]; }
  }

  /** `fileName.match(/\.[a-z0-9]*$/)?.[0] ?? ""`: either empty, or a dot
      followed only by `[a-z0-9]`, taken from the end of the name, so that
      it starts at the name's final dot. */
  function Extension(name: string): (ext: string)
    ensures ext == "" <==> NoExtMatch(name)
    ensures ext != "" ==> ext[0] == '.' && forall k :: 1 <= k < |ext| ==> IsExtChar(ext[k])
    ensures |ext| <= |name| && ext == name[|name| - |ext|..]
    ensures ext != "" ==> '.' !in ext[1..]
  {
    var r := ExtensionFrom(name, 0);
    assert r != "" ==> r[0] == '.' && (forall k :: 1 <= k < |r| ==> IsExtChar(r[k])) && '.' !in r[1..] by {
      if r != "" {
        var q :| 0 <= q < |name| && ExtMatchAt(name, q) && r == name[q..];
        ExtMatchShape(name, q);
      }
    }
    r
  }

  /** `s.slice(0, end)` for a non-negative start: a negative end counts
      from the back, and `-0` is `0`. */
  function SliceTo(s: string, end: int): (r: string)
    ensures |r| <= |s| && r == s[..|r|]
    ensures end == 0 ==> r == ""
    ensures -|s| <= end < 0 ==> |r| == |s| + end
  {
    if end < 0 then s[..if |s| + end < 0 then 0 else |s| + end]
    else s[..if end < |s| then end else |s|]
  }

  /** Slicing a non-empty suffix off the back leaves the rest of the name. */
  lemma CutSuffix(name: string, ext: string)
    requires |ext| <= |name| && ext == name[|name| - |ext|..]
    ensures var file := SliceTo(name, |ext| * -1);
      && (ext != "" ==> file + ext == name)
      && (ext == "" ==> file == "")
      && (forall c :: c in file ==> c in name)
      && (forall c :: c in ext ==> c in name)
  {
    assert name == name[..|name| - |ext|] + ext;
  }

  /** Lines 21-30 of `parsePath`, from the surviving components on: the
      last component is the file name, the two last are dropped from the
      grouping folders. */
  function FromComponents(comps: seq<string>): (r: Result<ParsedPath, PathError>)
    ensures r.Failure? <==> comps == []
    // the grouping folders: every component but the last two
    ensures r.Success? ==>
      |r.value.paths| == (if |comps| > 2 then |comps| - 2 else 0) && r.value.paths == comps[..|r.value.paths|]
    // the extension: empty, or the last component's suffix from its final dot
    ensures r.Success? ==> var ext := r.value.ext;
      ext == "" || (ext[0] == '.' && '.' !in ext[1..] && forall k :: 1 <= k < |ext| ==> IsExtChar(ext[k]))
    ensures r.Success? && r.value.ext != "" ==> r.value.file + r.value.ext == comps[|comps| - 1]
    ensures r.Success? ==>
      (r.value.ext == "" <==> NoExtMatch(comps[|comps| - 1]))
    // `slice(0, -0)`: no extension means an empty base name
    ensures r.Success? && r.value.ext == "" ==> r.value.file == ""
    // nothing but characters of the last component in the base name and extension
    ensures r.Success? ==> forall c :: c in r.value.file + r.value.ext ==> c in comps[|comps| - 1]
  {
    if |comps| == 0 then Failure(EmptyPath)
    else
      var fileName := comps[|comps| - 1];
      var ext := Extension(fileName);
      var file := SliceTo(fileName, |ext| * -1);
      var paths := if |comps| > 2 then comps[..|comps| - 2] else [];
      CutSuffix(fileName, ext);
      Success(ParsedPath(paths, file, ext))
  }

  lemma NoUpperParts(file: string, ext: string, last: string)
    requires NoUpper(last) && forall c :: c in file + ext ==> c in last
    ensures NoUpper(file) && NoUpper(ext)
  {
    assert forall c :: c in file ==> c in file + ext;
    assert forall c :: c in ext ==> c in file + ext;
  }

  lemma PrefixComponents(comps: seq<string>, n: nat)
    requires n <= |comps| && forall k :: 0 <= k < |comps| ==> IsComponent(comps[k])
    ensures forall k :: 0 <= k < n ==> IsComponent(comps[..n][k])
  {
  }

  /** `parsePath`. */
  function ParsePath(filePath: string): (r: Result<ParsedPath, PathError>)
    ensures r.Failure? <==> Components(filePath) == []
    // every grouping folder is a non-blank component; everything is lower-case
    ensures r.Success? ==> forall k :: 0 <= k < |r.value.paths| ==> IsComponent(r.value.paths[k])
    ensures r.Success? ==> NoUpper(r.value.file) && NoUpper(r.value.ext)
  {
    var comps := Components(filePath);
    var r := FromComponents(comps);
    if r.Success? then
      NoUpperParts(r.value.file, r.value.ext, comps[|comps| - 1]);
      PrefixComponents(comps, |r.value.paths|);
      r
    else r
  }
}
