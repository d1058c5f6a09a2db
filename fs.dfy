/**
 * The operating system as the core sees it.
 *
 * Reading side: a directory is a `Node` tree, the entries `os.listdir` and
 * `os.walk` report, children in the (arbitrary) order the OS lists them.
 *
 * Writing side: `FileSystem` holds the set of directory paths and the file
 * contents by path, and offers the calls the core makes on it: `os.remove`,
 * `os.mkdir`, `shutil.rmtree` and `open(path, "w")` followed by a write.
 */
module Fs {
  import opened Wrappers
  import opened Text

  datatype Node = File(name: string) | Dir(name: string, children: seq<Node>)

  function NameOf(n: Node): string { n.name }

  /**
   * What a secret file holds: nothing (a file that was opened for writing and
   * never written), an OpenPGP message addressed to one key, or any other text.
   */
  datatype Blob = Empty | Armored(recipient: string, plaintext: string) | Raw(text: string)

  /** `q` lies strictly inside directory `p`. */
  predicate Beneath(p: string, q: string) {
    StartsWith(q, PathJoin(p, ""))
  }

  /** The directory paths left after `shutil.rmtree(p)`. */
  function PrunedDirs(dirs: set<string>, p: string): (r: set<string>)
    ensures p !in r && r <= dirs
    ensures forall d :: d in r ==> !Beneath(p, d)
  {
    set d | d in dirs && d != p && !Beneath(p, d)
  }

  /** The files left after `shutil.rmtree(p)`. */
  function PrunedFiles(files: map<string, Blob>, p: string): (r: map<string, Blob>)
    ensures r.Keys <= files.Keys
    ensures forall f :: f in r ==> !Beneath(p, f) && r[f] == files[f]
  {
    map f | f in files && !Beneath(p, f) :: files[f]
  }

  /** Removing a directory just made, with nothing beneath it, restores the tree. */
  lemma MkdirThenRmtree(dirs: set<string>, files: map<string, Blob>, p: string)
    requires p !in dirs
    requires forall d :: d in dirs ==> !Beneath(p, d)
    requires forall f :: f in files ==> !Beneath(p, f)
    ensures PrunedDirs(dirs + {p}, p) == dirs
    ensures PrunedFiles(files, p) == files
  {
  }

  class FileSystem {
    var dirs: set<string>
    var files: map<string, Blob>

    /** No path is both a directory and a file. */
    ghost predicate Valid()
      reads this
    {
      dirs !! files.Keys
    }

    /** `os.path.exists`. */
    predicate Exists(p: string)
      reads this
    {
      p in dirs || p in files
    }

    constructor (dirs: set<string>, files: map<string, Blob>)
      requires dirs !! files.Keys
      ensures Valid() && this.dirs == dirs && this.files == files
    {
      this.dirs := dirs;
      this.files := files;
    }

    /** `os.remove(p)`: only a file can be removed. */
    method Remove(p: string) returns (r: Result<()>)
      requires Valid()
      modifies this
      ensures Valid() && dirs == old(dirs)
      ensures r.Success? <==> p in old(files)
      ensures r.Success? ==> files == old(files) - {p}
      ensures r.Failure? ==> files == old(files)
    {
      if p in files {
        files := files - {p};
        r := Success(());
      } else if p in dirs {
        r := Failure("[Errno 21] Is a directory: '" + p + "'");
      } else {
        r := Failure("[Errno 2] No such file or directory: '" + p + "'");
      }
    }

    /** `open(p, "w")` then a write of `b`: creates or truncates the file. */
    method WriteFile(p: string, b: Blob)
      requires Valid() && p !in dirs
      modifies this
      ensures Valid() && dirs == old(dirs)
      ensures files == old(files)[p := b]
    {
      files := files[p := b];
    }

    /** `os.mkdir(p)`. */
    method Mkdir(p: string) returns (r: Result<()>)
      requires Valid()
      modifies this
      ensures Valid() && files == old(files)
      ensures r.Success? <==> !old(Exists(p))
      ensures dirs == if r.Success? then old(dirs) + {p} else old(dirs)
    {
      if Exists(p) {
        r := Failure("[Errno 17] File exists: '" + p + "'");
      } else {
        dirs := dirs + {p};
        r := Success(());
      }
    }

    /** `shutil.rmtree(p)` on a directory: it and everything beneath it go. */
    method Rmtree(p: string)
      requires Valid() && p in dirs
      modifies this
      ensures Valid()
      ensures dirs == PrunedDirs(old(dirs), p)
      ensures files == PrunedFiles(old(files), p)
    {
      dirs := PrunedDirs(dirs, p);
      files := PrunedFiles(files, p);
    }
  }
}
