/**
 * The filesystem as the command gate and the hooks see it: a set of
 * existing paths, plus a record of what the code did to it. Only the
 * operations the modelled code performs are here: `os.path.exists`,
 * `util.mkdir` (`gitosis/util.py`), creating a repository, and the two
 * follow-up steps the gate runs after creating one.
 */
module Files {

  /** What happened to the filesystem, in order. */
  datatype Event =
    | MadeDir(path: string)
    | InitRepo(path: string)
    | VisitedRepo(name: string)
    | UpdatedProjectList

  /** `os.path.join(a, b)` on POSIX for two parts. */
  function PathJoin(a: string, b: string): (r: string)
    ensures |b| > 0 && b[0] == '/' ==> r == b
    ensures (|b| == 0 || b[0] != '/') ==> |r| >= |a| + |b| && r[..|a|] == a && r[|r| - |b|..] == b
  {
    if |b| > 0 && b[0] == '/' then b
    else if a == [] || a[|a| - 1] == '/' then a + b
    else a + "/" + b
  }

  class FileSystem {
    /** The paths that exist. */
    var paths: set<string>
    /** Paths `os.mkdir` cannot create for a reason other than their already
        existing (a missing parent, permissions). */
    const refused: set<string>
    /** What the modelled code has done. */
    ghost var log: seq<Event>

    constructor(paths: set<string>, refused: set<string>)
      ensures this.paths == paths && this.refused == refused && log == []
    {
      this.paths := paths;
      this.refused := refused;
      log := [];
    }

    /** `os.path.exists(p)` */
    function Exists(p: string): bool
      reads this
    {
      p in paths
    }

    /** `util.mkdir(p)`: an existing path is success and changes nothing; a
        refused one raises; otherwise the directory is created. */
    method Mkdir(p: string) returns (ok: bool)
      modifies this
      ensures ok <==> p in old(paths) || p !in refused
      ensures p !in old(paths) && ok ==> paths == old(paths) + {p} && log == old(log) + [MadeDir(p)]
      ensures p in old(paths) || !ok ==> paths == old(paths) && log == old(log)
    {
      if p in paths {
        return true;
      }
      if p in refused {
        return false;
      }
      paths := paths + {p};
      log := log + [MadeDir(p)];
      return true;
    }

    /** `repository.init(path)`: the repository directory comes into being. */
    method InitRepository(p: string)
      modifies this
      ensures paths == old(paths) + {p} && log == old(log) + [InitRepo(p)]
    {
      paths := paths + {p};
      log := log + [InitRepo(p)];
    }

    /** A step whose effect on files is modelled elsewhere, recorded here. */
    method Record(e: Event)
      modifies this
      ensures paths == old(paths) && log == old(log) + [e]
    {
      log := log + [e];
    }
  }
}
