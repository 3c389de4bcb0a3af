/** The two path rules of the loader: `normalizeImagePath`, which splits an
    image path into a folder and a file name, and the `./` prefix put in front
    of a relative path before it is assigned to `img.src`. */
module Paths {
  import opened Strings

  datatype ImagePath = ImagePath(folder: string, filename: string)

  /** `normalizeImagePath`. A bare file name lives in the project root; an
      `img/` path is split on `/` as it is; any other path has its backslashes
      turned into slashes first. */
  function NormalizeImagePath(imagePath: string): ImagePath {
    if '/' !in imagePath && '\\' !in imagePath then
      ImagePath("", imagePath)
    else if StartsWith(imagePath, "img/") then
      var parts := Split(imagePath, '/');
      ImagePath(Join(parts[..|parts| - 1], '/') + "/", parts[|parts| - 1])
    else
      var normalizedPath := ReplaceAll(imagePath, '\\', '/');
      var parts := Split(normalizedPath, '/');
      var rest := parts[..|parts| - 1];
      ImagePath(if |rest| > 0 then Join(rest, '/') + "/" else "", parts[|parts| - 1])
  }

  /** Splitting a path that contains a `/` at its last `/`: the folder is
      everything up to and including that `/`, the file name the rest. */
  lemma SplitAtLastSlash(path: string)
    requires '/' in path
    ensures var parts := Split(path, '/');
      |parts| >= 2 &&
      Join(parts[..|parts| - 1], '/') + "/" + parts[|parts| - 1] == path &&
      '/' !in parts[|parts| - 1]
  {
    var parts := Split(path, '/');
    SplitPieces(path, '/');
    JoinLast(parts, '/');
    JoinSplit(path, '/');
  }

  /** A path with a backslash has a slash once backslashes are replaced. */
  lemma ReplaceKeepsSeparator(path: string)
    requires '/' in path || '\\' in path
    ensures '/' in ReplaceAll(path, '\\', '/')
  {
    var normalizedPath := ReplaceAll(path, '\\', '/');
    var i :| 0 <= i < |path| && (path[i] == '/' || path[i] == '\\');
    assert normalizedPath[i] == '/';
  }

  /** What `normalizeImagePath` promises: a bare name is a file in the root;
      otherwise the folder ends in `/`, the file name has no `/`, and the two
      put together give back the path, with backslashes turned into slashes
      unless the path starts with `img/`. */
  lemma NormalizeImagePathParts(imagePath: string)
    ensures var r := NormalizeImagePath(imagePath);
      ('/' !in imagePath && '\\' !in imagePath ==> r == ImagePath("", imagePath)) &&
      ('/' in imagePath || '\\' in imagePath ==>
        EndsWith(r.folder, "/") && '/' !in r.filename &&
        r.folder + r.filename == (if StartsWith(imagePath, "img/") then imagePath else ReplaceAll(imagePath, '\\', '/')))
  {
    var r := NormalizeImagePath(imagePath);
    if '/' in imagePath || '\\' in imagePath {
      if StartsWith(imagePath, "img/") {
        assert imagePath[3] == '/';
        SplitAtLastSlash(imagePath);
      } else {
        ReplaceKeepsSeparator(imagePath);
        SplitAtLastSlash(ReplaceAll(imagePath, '\\', '/'));
      }
    }
  }

  /** A path the browser loads as it is: a URL, a data URL or a blob URL. */
  predicate IsRemote(imagePath: string) {
    StartsWith(imagePath, "http") || StartsWith(imagePath, "data:") || StartsWith(imagePath, "blob:")
  }

  /** `fullImagePath`: a path that is not remote is taken relative to the
      project root by putting `./` in front unless it already starts so. */
  function FullImagePath(imagePath: string): string {
    if !IsRemote(imagePath) then
      if StartsWith(imagePath, "./") then imagePath else "./" + imagePath
    else imagePath
  }

  /** The path is kept as its suffix; a remote path or one already starting
      with `./` is unchanged, and every other path gets exactly `./` in front. */
  lemma FullImagePathShape(imagePath: string)
    ensures var full := FullImagePath(imagePath);
      EndsWith(full, imagePath) &&
      (IsRemote(imagePath) || StartsWith(imagePath, "./") <==> full == imagePath) &&
      (!IsRemote(imagePath) ==> StartsWith(full, "./")) &&
      (!IsRemote(imagePath) && !StartsWith(imagePath, "./") ==> full == "./" + imagePath)
  {
    var full := FullImagePath(imagePath);
    if !IsRemote(imagePath) && !StartsWith(imagePath, "./") {
      assert full[|full| - |imagePath|..] == imagePath;
      assert |full| == |imagePath| + 2;
    }
  }

  /** Prefixing twice is prefixing once. */
  lemma FullImagePathIdempotent(imagePath: string)
    ensures FullImagePath(FullImagePath(imagePath)) == FullImagePath(imagePath)
  {
    var full := FullImagePath(imagePath);
    if !IsRemote(imagePath) && !StartsWith(imagePath, "./") {
      assert full[..2] == "./";
      assert !StartsWith(full, "http") by { assert full[0] == '.'; }
      assert !StartsWith(full, "data:") by { assert full[0] == '.'; }
      assert !StartsWith(full, "blob:") by { assert full[0] == '.'; }
    }
  }
}
