/** The few `node:path` operations the engine uses, on `/`-separated
    strings: `join`, `relative` (for a path inside the directory),
    `dirname`, and the `\` to `/` rewrite of display labels. */
module Paths {
  import opened Types

  /** `path.join(dir, file)` for a normalised relative `file`. */
  function Join(dir: Path, file: string): Path {
    dir + "/" + file
  }

  /** Distinct entries of one workspace resolve to distinct paths. */
  lemma JoinInjective(dir: Path, file1: string, file2: string)
    requires Join(dir, file1) == Join(dir, file2)
    ensures file1 == file2
  {
    var n := |dir| + 1;
    assert file1 == Join(dir, file1)[n..];
    assert file2 == Join(dir, file2)[n..];
  }

  /** `path.relative(from, to)` when `to` lies inside `from`; any other
      `to` is returned as it is. */
  function Relative(from: Path, to: Path): Path {
    var prefix := from + "/";
    if |prefix| <= |to| && to[..|prefix|] == prefix then to[|prefix|..] else to
  }

  /** `relative` undoes `join`. */
  lemma RelativeJoin(dir: Path, file: string)
    ensures Relative(dir, Join(dir, file)) == file
  {
    var p := Join(dir, file);
    assert p[..|dir| + 1] == dir + "/";
    assert p[|dir| + 1..] == file;
  }

  /** `s.replace(/\\/g, "/")`. */
  function ForwardSlashes(s: string): (r: string)
    ensures |r| == |s|
    ensures forall i :: 0 <= i < |s| ==> r[i] == (if s[i] == '\\' then '/' else s[i])
    ensures '\\' !in r
  {
    if s == [] then [] else [if s[0] == '\\' then '/' else s[0]] + ForwardSlashes(s[1..])
  }

  /** A label with no `\` in it is shown as it is. */
  lemma ForwardSlashesKeeps(s: string)
    requires '\\' !in s
    ensures ForwardSlashes(s) == s
  {
    assert forall i :: 0 <= i < |s| ==> s[i] != '\\';
  }

  /** Index of the last `/` in `p`, or -1 when there is none. */
  function LastSlash(p: Path): (k: int)
    ensures -1 <= k < |p|
    ensures k >= 0 ==> p[k] == '/'
    ensures forall i :: k < i < |p| ==> p[i] != '/'
  {
    if p == [] then -1
    else if p[|p| - 1] == '/' then |p| - 1
    else LastSlash(p[..|p| - 1])
  }

  /** `path.dirname(p)`: everything before the last `/`; `/` for a file at
      the root and `.` for a bare name (trailing separators are not
      modelled). */
  function Dirname(p: Path): (d: Path)
    ensures d != []
  {
    var k := LastSlash(p);
    if k < 0 then "." else if k == 0 then "/" else p[..k]
  }

  /** The directory of a workspace entry with no `/` in its name is the
      workspace directory itself. */
  lemma DirnameJoin(dir: Path, file: string)
    requires dir != [] && '/' !in file
    ensures Dirname(Join(dir, file)) == dir
  {
    var p := Join(dir, file);
    assert p[|dir|] == '/';
    assert forall i :: |dir| < i < |p| ==> p[i] == file[i - |dir| - 1];
    assert LastSlash(p) == |dir|;
  }

  /** What `fs.mkdirSync(dir, { recursive: true })` ensures exists: `dir`
      and every ancestor of it that ends before a `/`. */
  function Ancestors(dir: Path): (r: set<Path>)
    ensures dir != [] ==> dir in r
  {
    assert dir != [] ==> dir == dir[..|dir|];
    set i | 0 < i <= |dir| && (i == |dir| || dir[i] == '/') :: dir[..i]
  }
}
