/**
 * ppass/modules/folders.py: the top-level folders of the store, and their
 * creation and removal.
 */
module Folders {
  import opened Wrappers
  import opened Text
  import opened Seqs
  import opened Fs

  /** One folder of the store: its full path and its name. */
  datatype FolderItem = FolderItem(path: string, name: string)

  function FolderName(it: FolderItem): string { it.name }

  /** `os.listdir`: the names of the entries of a directory. */
  function ListDir(kids: seq<Node>): (names: seq<string>)
    ensures |names| == |kids|
    ensures forall i :: 0 <= i < |kids| ==> names[i] == kids[i].name
  {
    MapSeq(kids, NameOf)
  }

  /** `os.path.isdir(os.path.join(path, name))` for an entry of the directory. */
  predicate IsSubdir(kids: seq<Node>, name: string) {
    exists i :: 0 <= i < |kids| && kids[i].name == name && kids[i].Dir?
  }

  predicate Visible(name: string) {
    !StartsWith(name, ".")
  }

  function VisibleName(): string -> bool {
    (p: string) => Visible(p)
  }

  function SubdirOf(kids: seq<Node>): string -> bool {
    (p: string) => IsSubdir(kids, p)
  }

  function ItemAt(path: string): string -> FolderItem {
    (p: string) => FolderItem(PathJoin(path, p), p)
  }

  /** The names `get_list` keeps: sorted, then without hidden names, then without non-directories. */
  function FolderNames(kids: seq<Node>): seq<string> {
    Filter(Filter(SortBy(ListDir(kids), Self), VisibleName()), SubdirOf(kids))
  }

  /** folders.get_list for the directory `path`, given what lies at that path. */
  function GetList(path: string, top: Option<Node>): (r: Result<seq<FolderItem>>)
    ensures top.None? ==> r == Failure("Path <" + path + "> does not exist")
    ensures top.Some? && top.value.File? ==> r == Failure("Path <" + path + "> is not a valid directory")
    ensures r.Success? <==> top.Some? && top.value.Dir?
  {
    match top
    case None => Failure("Path <" + path + "> does not exist")
    case Some(File(_)) => Failure("Path <" + path + "> is not a valid directory")
    case Some(Dir(_, kids)) => Success(MapSeq(FolderNames(kids), ItemAt(path)))
  }

  /** The folders come in name order. */
  lemma GetListSorted(path: string, kids: seq<Node>, n: string)
    ensures SortedBy(GetList(path, Some(Dir(n, kids))).value, FolderName)
  {
    var sorted := SortBy(ListDir(kids), Self);
    FilterSorted(sorted, VisibleName(), Self);
    FilterSorted(Filter(sorted, VisibleName()), SubdirOf(kids), Self);
  }

  /**
   * A folder is listed exactly when it is a subdirectory of `path` whose name
   * does not start with "."; its path is the name joined to `path`.
   */
  lemma GetListIff(path: string, kids: seq<Node>, n: string, it: FolderItem)
    ensures it in GetList(path, Some(Dir(n, kids))).value <==>
      IsSubdir(kids, it.name) && Visible(it.name) && it.path == PathJoin(path, it.name)
  {
    var names := ListDir(kids);
    var sorted := SortBy(names, Self);
    var visible := Filter(sorted, VisibleName());
    var result := FolderNames(kids);
    MapFilterIff(visible, SubdirOf(kids), ItemAt(path), it);
    if it in GetList(path, Some(Dir(n, kids))).value {
      var j :| 0 <= j < |visible| && SubdirOf(kids)(visible[j]) && it == ItemAt(path)(visible[j]);
      assert VisibleName()(visible[j]);
    }
    if IsSubdir(kids, it.name) && Visible(it.name) && it.path == PathJoin(path, it.name) {
      var i :| 0 <= i < |kids| && kids[i].name == it.name && kids[i].Dir?;
      assert names[i] == it.name;
      SortedMember(names, Self, it.name);
      var k :| 0 <= k < |sorted| && sorted[k] == it.name;
      assert VisibleName()(sorted[k]);
      var j :| 0 <= j < |visible| && visible[j] == it.name;
      assert SubdirOf(kids)(visible[j]) && it == ItemAt(path)(visible[j]);
    }
  }

  /** folders.create: a non-blank name for a path that does not exist yet becomes a directory. */
  method Create(fs: FileSystem, name: string, path: string) returns (r: Result<()>)
    requires fs.Valid()
    modifies fs
    ensures fs.Valid() && fs.files == old(fs.files)
    ensures Strip(name) == "" ==> r == Failure("Incorrect folder name")
    ensures Strip(name) != "" && old(fs.Exists(path)) ==> r == Failure("Folder <" + name + "> already exists")
    ensures r.Success? <==> Strip(name) != "" && !old(fs.Exists(path))
    ensures fs.dirs == if r.Success? then old(fs.dirs) + {path} else old(fs.dirs)
  {
    if Strip(name) == "" {
      return Failure("Incorrect folder name");
    }
    if fs.Exists(path) {
      return Failure("Folder <" + name + "> already exists");
    }
    r := fs.Mkdir(path);
  }

  /** folders.delete: a non-blank name whose path is a directory loses it and everything beneath it. */
  method Delete(fs: FileSystem, name: string, path: string) returns (r: Result<()>)
    requires fs.Valid()
    modifies fs
    ensures fs.Valid()
    ensures Strip(name) == "" ==> r == Failure("Incorrect folder name")
    ensures Strip(name) != "" && !old(fs.Exists(path)) ==> r == Failure("Folder <" + name + "> does not exist")
    ensures Strip(name) != "" && path in old(fs.files) ==> r == Failure("Path <" + path + "> is not a valid directory")
    ensures r.Success? <==> Strip(name) != "" && path in old(fs.dirs)
    ensures r.Success? ==> fs.dirs == PrunedDirs(old(fs.dirs), path) && fs.files == PrunedFiles(old(fs.files), path)
    ensures r.Failure? ==> fs.dirs == old(fs.dirs) && fs.files == old(fs.files)
  {
    if Strip(name) == "" {
      return Failure("Incorrect folder name");
    }
    if !fs.Exists(path) {
      return Failure("Folder <" + name + "> does not exist");
    }
    if path !in fs.dirs {
      return Failure("Path <" + path + "> is not a valid directory");
    }
    fs.Rmtree(path);
    r := Success(());
  }
}
