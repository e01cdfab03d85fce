/** The filesystem as the engine sees it through src/io.ts: a map from path
    to file text and the set of directories that exist. */
module Io {
  import opened Types
  import opened Paths

  /** A snapshot of the filesystem. */
  datatype FileTree = FileTree(files: map<Path, string>, dirs: set<Path>)

  /** The message `fs.unlinkSync` throws for a missing file. */
  function UnlinkError(path: Path): string {
    "ENOENT: no such file or directory, unlink '" + path + "'"
  }

  /** `findWorkspaceDir`: the current directory when it holds a
      `package.json`, otherwise the error the source throws. */
  function FindWorkspaceDir(cwd: Path, files: map<Path, string>): (r: Result<Path>)
    ensures r.Ok? <==> Join(cwd, "package.json") in files
    ensures r.Ok? ==> r.value == cwd
    ensures r.Err? ==> r.error == "Can't find workspace root containing 'package.json' at '" + cwd + "'"
  {
    if Join(cwd, "package.json") in files then Ok(cwd)
    else Err("Can't find workspace root containing 'package.json' at '" + cwd + "'")
  }

  /** The mutable filesystem that `fileExists`, `readFile`, `writeFile`,
      `removeFile` and `makeDirs` act on. */
  class Disk {
    var files: map<Path, string>
    var dirs: set<Path>

    constructor (files0: map<Path, string>, dirs0: set<Path>)
      ensures files == files0 && dirs == dirs0
    {
      files := files0;
      dirs := dirs0;
    }

    function Tree(): FileTree
      reads this
    {
      FileTree(files, dirs)
    }

    /** `fileExists`. */
    function FileExists(path: Path): bool
      reads this
    {
      path in files
    }

    /** `writeFile`: creates or replaces the file with `data`. */
    method WriteFile(path: Path, data: string)
      modifies this
      ensures files == old(files)[path := data]
      ensures dirs == old(dirs)
    {
      files := files[path := data];
    }

    /** `removeFile`: deletes the file, or reports the error `unlinkSync`
        throws when there is none. */
    method RemoveFile(path: Path) returns (err: Option<string>)
      modifies this
      ensures old(path in files) ==> err == None && files == old(files) - {path}
      ensures old(path !in files) ==> err == Some(UnlinkError(path)) && files == old(files)
      ensures dirs == old(dirs)
    {
      if path in files {
        files := files - {path};
        err := None;
      } else {
        err := Some(UnlinkError(path));
      }
    }

    /** `makeDirs`: creates the directory and its ancestors. */
    method MakeDirs(dir: Path)
      modifies this
      ensures dirs == old(dirs) + Ancestors(dir)
      ensures files == old(files)
    {
      dirs := dirs + Ancestors(dir);
    }
  }
}
