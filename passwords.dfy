/**
 * ppass/modules/passwords.py: the store scanner that lists the secret files
 * under the store directory, with the name filter the `ls` command applies.
 */
module Passwords {
  import opened Wrappers
  import opened Text
  import opened Seqs
  import opened Fs

  /** One secret file found in the store. */
  datatype PasswordItem = PasswordItem(root: string, rootName: string, f: string, fName: string, path: string)

  /** One triple `os.walk` yields: a directory and the names of its subdirectories and files. */
  datatype WalkStep = WalkStep(root: string, dirs: seq<string>, files: seq<string>)

  function DirsOf(kids: seq<Node>): (r: seq<Node>)
    ensures forall i :: 0 <= i < |r| ==> r[i].Dir? && r[i] in kids
  {
    Filter(kids, (n: Node) => n.Dir?)
  }

  function FileNamesOf(kids: seq<Node>): seq<string> {
    seq(|Filter(kids, (n: Node) => n.File?)|, i requires 0 <= i < |Filter(kids, (n: Node) => n.File?)| => Filter(kids, (n: Node) => n.File?)[i].name)
  }

  function NamesOf(ds: seq<Node>): seq<string> {
    seq(|ds|, i requires 0 <= i < |ds| => ds[i].name)
  }

  /**
   * `os.walk(root)`, top-down, over a directory whose entries are `kids`; the
   * caller sorts each step's lists in place, so the walk descends into the
   * subdirectories in name order and the files are reported in name order.
   */
  function Walk(root: string, kids: seq<Node>): (steps: seq<WalkStep>)
    ensures steps != [] && steps[0].root == root
    decreases kids
  {
    var ds := SortBy(DirsOf(kids), NameOf);
    assert forall i :: 0 <= i < |ds| ==> ds[i] in multiset(DirsOf(kids));
    [WalkStep(root, NamesOf(ds), SortBy(FileNamesOf(kids), Self))] + WalkDirs(root, kids, ds)
  }

  /** The walks of the subdirectories `ds` of `root`, one after the other. */
  function WalkDirs(root: string, ghost all: seq<Node>, ds: seq<Node>): seq<WalkStep>
    requires forall i :: 0 <= i < |ds| ==> ds[i].Dir? && ds[i] in all
    decreases all, |ds|
  {
    if ds == [] then []
    else
      assert ds[0] in all;
      Walk(PathJoin(root, ds[0].name), ds[0].children) + WalkDirs(root, all, ds[1..])
  }

  /** `root.replace(os.path.join(path, ""), "")`: the directory's name relative to the store. */
  function RootName(path: string, root: string): string {
    RemoveAll(root, PathJoin(path, ""))
  }

  /** `filter == "" or filter.lower() in name.lower()`. */
  predicate Matches(filter: string, name: string) {
    filter == "" || Contains(Lower(name), Lower(filter))
  }

  /** The item for file `f` of directory `root`. */
  function MakeItem(root: string, rootName: string, f: string): PasswordItem {
    PasswordItem(root, rootName, f, RemoveAll(f, ".gpg"), PathJoin(root, f))
  }

  /** A file is listed when it ends in ".gpg" and its name without ".gpg" matches the filter. */
  predicate Keep(filter: string, f: string) {
    EndsWith(f, ".gpg") && Matches(filter, RemoveAll(f, ".gpg"))
  }

  function KeepFile(filter: string): string -> bool {
    (f: string) => Keep(filter, f)
  }

  function ItemMaker(root: string, rootName: string): string -> PasswordItem {
    (f: string) => MakeItem(root, rootName, f)
  }

  /** The items for the files `files` of one directory, in their order. */
  function FileItems(root: string, rootName: string, filter: string, files: seq<string>): seq<PasswordItem> {
    MapSeq(Filter(files, KeepFile(filter)), ItemMaker(root, rootName))
  }

  /** The items one walk step contributes: none inside a ".git" directory. */
  function StepItems(path: string, filter: string, s: WalkStep): seq<PasswordItem> {
    var rootName := RootName(path, s.root);
    if Contains(rootName, ".git") then [] else FileItems(s.root, rootName, filter, s.files)
  }

  function StepItemsOf(path: string, filter: string): WalkStep -> seq<PasswordItem> {
    (s: WalkStep) => StepItems(path, filter, s)
  }

  /** One more file adds its item exactly when it is kept. */
  lemma FileItemsStep(root: string, rootName: string, filter: string, files: seq<string>, j: nat)
    requires j < |files|
    ensures FileItems(root, rootName, filter, files[..j + 1]) ==
      FileItems(root, rootName, filter, files[..j]) + (if Keep(filter, files[j]) then [MakeItem(root, rootName, files[j])] else [])
  {
    assert files[..j + 1] == files[..j] + [files[j]];
    MapFilterSnoc(files[..j], files[j], KeepFile(filter), ItemMaker(root, rootName));
  }

  /** The items of the walk steps `steps`, in walk order. */
  function ItemsOf(path: string, filter: string, steps: seq<WalkStep>): seq<PasswordItem> {
    Flatten(steps, StepItemsOf(path, filter))
  }

  /** What `passwords.get_list` returns for the store directory `path`, given what lies at that path. */
  function ListPasswords(path: string, filter: string, top: Option<Node>): Result<seq<PasswordItem>> {
    match top
    case None => Failure("Path <" + path + "> does not exist")
    case Some(File(_)) => Failure("Path <" + path + "> is not a valid directory")
    case Some(Dir(_, kids)) => Success(ItemsOf(path, filter, Walk(path, kids)))
  }

  /** The file loop of passwords.get_list: appends the items of one directory's files. */
  method ScanFiles(root: string, rootName: string, filter: string, files: seq<string>, items0: seq<PasswordItem>)
    returns (items: seq<PasswordItem>)
    ensures items == items0 + FileItems(root, rootName, filter, files)
  {
    items := items0;
    var j := 0;
    ghost var done: seq<PasswordItem> := [];
    assert files[..0] == [];
    while j < |files|
      invariant 0 <= j <= |files|
      invariant done == FileItems(root, rootName, filter, files[..j])
      invariant items == items0 + done
    {
      var f := files[j];
      FileItemsStep(root, rootName, filter, files, j);
      ghost var next := FileItems(root, rootName, filter, files[..j + 1]);
      var fName := RemoveAll(f, ".gpg");
      var isFileOk := false;
      if !EndsWith(f, ".gpg") {
        assert next == done;
        j := j + 1;
        continue;
      }
      if filter == "" || Contains(Lower(fName), Lower(filter)) {
        isFileOk := true;
      }
      assert isFileOk == Keep(filter, f);
      if isFileOk {
        var item := PasswordItem(root, rootName, f, fName, PathJoin(root, f));
        assert next == done + [item];
        assert items0 + (done + [item]) == items + [item];
        done := done + [item];
        items := items + [item];
      } else {
        assert next == done;
      }
      j := j + 1;
    }
    assert files[..j] == files;
  }

  /** passwords.get_list: the walk loop, one directory at a time. */
  method GetList(path: string, filter: string, top: Option<Node>) returns (r: Result<seq<PasswordItem>>)
    ensures r == ListPasswords(path, filter, top)
  {
    if top.None? {
      return Failure("Path <" + path + "> does not exist");
    }
    if top.value.File? {
      return Failure("Path <" + path + "> is not a valid directory");
    }
    var items: seq<PasswordItem> := [];
    var steps := Walk(path, top.value.children);
    var i := 0;
    while i < |steps|
      invariant 0 <= i <= |steps|
      invariant items == ItemsOf(path, filter, steps[..i])
    {
      var step := steps[i];
      FlattenSnoc(steps, i, StepItemsOf(path, filter));
      assert ItemsOf(path, filter, steps[..i + 1]) == items + StepItems(path, filter, step);
      var rootName := RemoveAll(step.root, PathJoin(path, ""));
      if Contains(rootName, ".git") {
        assert StepItems(path, filter, step) == [];
        assert items + [] == items;
        i := i + 1;
        continue;
      }
      assert StepItems(path, filter, step) == FileItems(step.root, rootName, filter, step.files);
      items := ScanFiles(step.root, rootName, filter, step.files, items);
      i := i + 1;
    }
    assert steps[..i] == steps;
    assert ListPasswords(path, filter, top) == Success(ItemsOf(path, filter, steps));
    r := Success(items);
  }

  // ---------------------------------------------------------------------------
  // What the listing promises
  // ---------------------------------------------------------------------------

  /** An item is listed exactly when some walk step contributes it. */
  lemma ListedIff(path: string, filter: string, steps: seq<WalkStep>, it: PasswordItem)
    ensures it in ItemsOf(path, filter, steps) <==> exists k :: 0 <= k < |steps| && it in StepItems(path, filter, steps[k])
  {
    FlattenIff(steps, StepItemsOf(path, filter), it);
  }

  /** `it` is the item of the kept file `f`. */
  predicate ItemOfFile(root: string, rootName: string, filter: string, f: string, it: PasswordItem) {
    Keep(filter, f) && it == MakeItem(root, rootName, f)
  }

  /** An item of a directory is listed exactly when it is the item of one of its kept files. */
  lemma FileListedIff(root: string, rootName: string, filter: string, files: seq<string>, it: PasswordItem)
    ensures it in FileItems(root, rootName, filter, files) <==>
      exists j :: 0 <= j < |files| && ItemOfFile(root, rootName, filter, files[j], it)
  {
    MapFilterIff(files, KeepFile(filter), ItemMaker(root, rootName), it);
    if exists j :: 0 <= j < |files| && ItemOfFile(root, rootName, filter, files[j], it) {
      var j :| 0 <= j < |files| && ItemOfFile(root, rootName, filter, files[j], it);
      assert KeepFile(filter)(files[j]) && it == ItemMaker(root, rootName)(files[j]);
    }
  }

  /** Every listed item ends in ".gpg", lost its ".gpg" in its name, matches the filter and lies in its directory. */
  lemma ListedItemShape(root: string, rootName: string, filter: string, files: seq<string>, it: PasswordItem)
    requires it in FileItems(root, rootName, filter, files)
    ensures it.root == root && it.rootName == rootName && it.f in files
    ensures EndsWith(it.f, ".gpg") && EndsWith(it.path, ".gpg") && it.path == PathJoin(root, it.f)
    ensures it.fName == RemoveAll(it.f, ".gpg") && Matches(filter, it.fName)
  {
    FileListedIff(root, rootName, filter, files, it);
    var j :| 0 <= j < |files| && ItemOfFile(root, rootName, filter, files[j], it);
    EndsWithTrans(it.path, it.f, ".gpg");
  }

  lemma EndsWithTrans(s: string, t: string, p: string)
    requires EndsWith(s, t) && EndsWith(t, p)
    ensures EndsWith(s, p)
  {
    assert s[|s| - |p|..] == s[|s| - |t|..][|t| - |p|..];
  }

  /** The items of one directory come in file-name order. */
  lemma FileItemsSorted(root: string, rootName: string, filter: string, files: seq<string>)
    requires SortedBy(files, Self)
    ensures SortedBy(FileItems(root, rootName, filter, files), (it: PasswordItem) => it.f)
  {
    FilterSorted(files, KeepFile(filter), Self);
  }

  /** Both name lists of a walk step are in order. */
  predicate StepSorted(s: WalkStep) {
    SortedBy(s.dirs, Self) && SortedBy(s.files, Self)
  }

  /** Every step of the walk reports its subdirectories and files in name order. */
  lemma {:induction false} WalkSorted(root: string, kids: seq<Node>)
    ensures forall k :: 0 <= k < |Walk(root, kids)| ==> StepSorted(Walk(root, kids)[k])
    decreases kids
  {
    var ds := SortBy(DirsOf(kids), NameOf);
    assert forall i :: 0 <= i < |ds| ==> ds[i] in multiset(DirsOf(kids));
    var head := WalkStep(root, NamesOf(ds), SortBy(FileNamesOf(kids), Self));
    assert StepSorted(head);
    WalkDirsSorted(root, kids, ds);
    var steps := Walk(root, kids);
    assert steps == [head] + WalkDirs(root, kids, ds);
    forall k | 0 <= k < |steps| ensures StepSorted(steps[k]) {
      if k > 0 {
        assert steps[k] == WalkDirs(root, kids, ds)[k - 1];
      }
    }
  }

  lemma {:induction false} WalkDirsSorted(root: string, all: seq<Node>, ds: seq<Node>)
    requires forall i :: 0 <= i < |ds| ==> ds[i].Dir? && ds[i] in all
    ensures forall k :: 0 <= k < |WalkDirs(root, all, ds)| ==> StepSorted(WalkDirs(root, all, ds)[k])
    decreases all, |ds|
  {
    if ds != [] {
      assert ds[0] in all;
      var first := Walk(PathJoin(root, ds[0].name), ds[0].children);
      var rest := WalkDirs(root, all, ds[1..]);
      WalkSorted(PathJoin(root, ds[0].name), ds[0].children);
      WalkDirsSorted(root, all, ds[1..]);
      var steps := WalkDirs(root, all, ds);
      assert steps == first + rest;
      forall k | 0 <= k < |steps| ensures StepSorted(steps[k]) {
        if k < |first| {
          assert steps[k] == first[k];
        } else {
          assert steps[k] == rest[k - |first|];
        }
      }
    }
  }

  /**
   * Top-down: a directory is followed at once by the walk of its first
   * subdirectory in name order, and it is the last step exactly when it has
   * no subdirectory.
   */
  lemma WalkDescendsFirst(root: string, kids: seq<Node>)
    ensures |Walk(root, kids)| > 1 <==> Walk(root, kids)[0].dirs != []
    ensures |Walk(root, kids)| > 1 ==> Walk(root, kids)[1].root == PathJoin(root, Walk(root, kids)[0].dirs[0])
  {
    var ds := SortBy(DirsOf(kids), NameOf);
    assert forall i :: 0 <= i < |ds| ==> ds[i] in multiset(DirsOf(kids));
    var head := WalkStep(root, NamesOf(ds), SortBy(FileNamesOf(kids), Self));
    var rest := WalkDirs(root, kids, ds);
    var steps := Walk(root, kids);
    assert steps == [head] + rest;
    WalkDirsHead(root, kids, ds);
    assert |NamesOf(ds)| == |ds|;
    if ds != [] {
      assert head.dirs[0] == ds[0].name;
      assert steps[1] == rest[0];
    }
  }

  /** The walks of the subdirectories `ds` start with the walk of the first one, and are empty only when `ds` is. */
  lemma WalkDirsHead(root: string, all: seq<Node>, ds: seq<Node>)
    requires forall i :: 0 <= i < |ds| ==> ds[i].Dir? && ds[i] in all
    ensures WalkDirs(root, all, ds) == [] <==> ds == []
    ensures ds != [] ==> WalkDirs(root, all, ds)[0].root == PathJoin(root, ds[0].name)
  {
    if ds != [] {
      var first := Walk(PathJoin(root, ds[0].name), ds[0].children);
      assert WalkDirs(root, all, ds) == first + WalkDirs(root, all, ds[1..]);
      assert WalkDirs(root, all, ds)[0] == first[0];
    }
  }

  /** Within each walk step, the listed items come in file-name order. */
  lemma StepItemsSorted(path: string, filter: string, kids: seq<Node>, k: nat)
    requires k < |Walk(path, kids)|
    ensures SortedBy(StepItems(path, filter, Walk(path, kids)[k]), (it: PasswordItem) => it.f)
  {
    var s := Walk(path, kids)[k];
    WalkSorted(path, kids);
    assert StepSorted(s);
    if !Contains(RootName(path, s.root), ".git") {
      FileItemsSorted(s.root, RootName(path, s.root), filter, s.files);
    }
  }

  /**
   * The store directory itself is named "" only when its path ends in "/";
   * otherwise its name is the whole path, so a store path containing ".git"
   * hides the secrets at the top of the store.
   */
  lemma TopRootName(path: string)
    ensures RootName(path, path) == if path == [] || EndsWith(path, "/") then [] else path
  {
    if path == [] || EndsWith(path, "/") {
      RemoveAllSelf(path);
    } else {
      assert PathJoin(path, "") == path + "/";
      NotContainsLonger(path, path + "/");
      RemoveAllAbsent(path, path + "/");
    }
  }

  /** A store path with ".git" in it and no trailing "/" lists none of its top-level secrets. */
  lemma GitPathHidesTop(path: string, filter: string, kids: seq<Node>)
    requires Contains(path, ".git") && !EndsWith(path, "/")
    ensures StepItems(path, filter, Walk(path, kids)[0]) == []
  {
    TopRootName(path);
  }

  lemma RemoveAllSelf(s: string)
    ensures RemoveAll(s, s) == []
  {
    if s != [] {
      assert StartsWith(s, s) && s[|s|..] == [];
    }
  }

  lemma {:induction false} NotContainsLonger(s: string, p: string)
    requires |s| < |p|
    ensures !Contains(s, p)
    decreases |s|
  {
    if s != [] {
      NotContainsLonger(s[1..], p);
    }
  }
}
