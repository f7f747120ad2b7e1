/** The part of the file system the composition touches: files written by the
    encoder inside per-job temporary directories, and their removal. Paths
    are plain strings joined with `/`; `path`'s normalisation is not
    modelled. */
module Files {
  import opened Wrappers
  import opened Text

  /** The index of the last `/` in a path. */
  function LastSlash(p: string): (r: Option<nat>)
    ensures r.Some? ==> r.value < |p| && p[r.value] == '/' && forall k :: r.value < k < |p| ==> p[k] != '/'
    ensures r.None? ==> forall k :: 0 <= k < |p| ==> p[k] != '/'
  {
    if p == [] then None
    else if p[|p| - 1] == '/' then Some(|p| - 1)
    else LastSlash(p[..|p| - 1])
  }

  /** `path.dirname` of a path without trailing separators. */
  function Dirname(p: string): (d: string)
    ensures d != []
    ensures d == "." || d == "/" || (|d| < |p| && StartsWith(p, d + "/"))
  {
    match LastSlash(p)
    case None => "."
    case Some(i) =>
      if i == 0 then "/"
      else
        assert p[..i + 1] == p[..i] + "/";
        p[..i]
  }

  /** A file joined onto a directory lies in that directory. */
  lemma DirnameOfJoin(dir: string, name: string)
    requires dir != [] && forall k :: 0 <= k < |name| ==> name[k] != '/'
    ensures Dirname(Join(dir, name)) == dir
  {
    var p := Join(dir, name);
    assert p[|dir|] == '/';
    assert forall k :: |dir| < k < |p| ==> p[k] == name[k - |dir| - 1];
    assert LastSlash(p) == Some(|dir|) by {
      LastSlashAt(p, |dir|);
    }
    assert p[..|dir|] == dir;
  }

  lemma {:induction false} LastSlashAt(p: string, i: nat)
    requires i < |p| && p[i] == '/' && forall k :: i < k < |p| ==> p[k] != '/'
    ensures LastSlash(p) == Some(i)
  {
    if i < |p| - 1 {
      var q := p[..|p| - 1];
      assert q[i] == '/' && forall k :: i < k < |q| ==> q[k] != '/';
      LastSlashAt(q, i);
    }
  }

  /** The directory entries under one path. */
  function InDir(files: set<string>, dir: string): (r: set<string>)
    ensures r <= files && forall p :: p in r <==> p in files && Dirname(p) == dir
  {
    set p | p in files && Dirname(p) == dir
  }

  class FileSystem {
    var files: set<string>
    var dirs: set<string>

    constructor ()
      ensures files == {} && dirs == {}
    {
      files, dirs := {}, {};
    }

    /** `fs.mkdir(dir, { recursive: true })`. */
    method MakeDir(dir: string)
      modifies this
      ensures files == old(files) && dirs == old(dirs) + {dir}
    {
      dirs := dirs + {dir};
    }

    /** An encoder run that wrote `path`. */
    method Write(path: string)
      modifies this
      ensures files == old(files) + {path} && dirs == old(dirs)
    {
      files := files + {path};
    }

    /** `cleanupTempFiles`: unlinks every entry of the directory and removes
        it; when the directory cannot be read the error is only logged. */
    method CleanupTempFiles(dir: string)
      modifies this
      ensures dir !in old(dirs) ==> files == old(files) && dirs == old(dirs)
      ensures dir in old(dirs) ==> files == old(files) - InDir(old(files), dir) && dirs == old(dirs) - {dir}
      ensures forall p :: p in files ==> Dirname(p) != dir || dir !in old(dirs)
    {
      if dir !in dirs {
        return;
      }
      files := files - InDir(files, dir);
      dirs := dirs - {dir};
    }
  }
}
