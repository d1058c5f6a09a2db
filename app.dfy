/**
 * ppass/app.py: the plaintext body of a password file (get_content), the
 * shell-completion filters, the store path of a new section, and the store
 * effects of the commands that create, change and delete password files and
 * folders.
 */
module App {
  import opened Wrappers
  import opened Text
  import opened Seqs
  import opened Fs
  import opened Gpg
  import Passwords
  import Folders
  import opened Params
  import opened AppConfig

  // ---------------------------------------------------------------------------
  // The record body (get_content) and its round trip through the parser
  // ---------------------------------------------------------------------------

  /**
   * get_content: the password line, the username marker line, the url marker
   * line, then the comment, closed by a newline only when it is not empty.
   */
  function GetContent(config: Settings, password: string, user: string, url: string, comment: string): (content: string)
    ensures StartsWith(content, password + "\n")
    ensures content[|content| - 1] == '\n'
  {
    var head := password + "\n" + config.sepUsername + user + "\n" + config.sepUrl + url + "\n";
    assert head[..|password + "\n"|] == password + "\n";
    assert head[|head| - 1] == '\n';
    head + comment + (if comment == "" then "" else "\n")
  }

  /** The body of a decoded record, as the modify commands rebuild it. */
  function Body(config: Settings, p: Password): string {
    GetContent(config, p.password, p.username, p.url, p.comment)
  }

  /** The lines the comment contributes to a body. */
  function CommentBlock(comment: string): seq<string> {
    if comment == "" then [] else SplitOn(comment, '\n')
  }

  /**
   * Read back with `splitlines`, a body is its three header lines followed by
   * the comment's lines, provided the header lines hold no line boundary and
   * the comment's only boundaries are `\n`.
   */
  lemma ContentLines(config: Settings, password: string, user: string, url: string, comment: string)
    requires NoLineBreak(password) && NoLineBreak(config.sepUsername + user) && NoLineBreak(config.sepUrl + url)
    requires OnlyNewlines(comment)
    ensures SplitLines(GetContent(config, password, user, url, comment))
         == [password, config.sepUsername + user, config.sepUrl + url] + CommentBlock(comment)
  {
    var userLine, urlLine := config.sepUsername + user, config.sepUrl + url;
    var tail := comment + (if comment == "" then "" else "\n");
    var s2 := urlLine + "\n" + tail;
    var s1 := userLine + "\n" + s2;
    assert GetContent(config, password, user, url, comment) == password + "\n" + s1;
    var block := CommentBlock(comment);
    assert SplitLines(tail) == block by {
      if comment != "" {
        SplitLinesBlock(comment);
      }
    }
    SplitLinesCons(urlLine, tail);
    assert SplitLines(s2) == [urlLine] + block;
    SplitLinesCons(userLine, s2);
    assert SplitLines(s1) == [userLine] + ([urlLine] + block);
    SplitLinesCons(password, s1);
    var content := GetContent(config, password, user, url, comment);
    assert SplitLines(content) == [password] + ([userLine] + ([urlLine] + block));
    ThreeHeads(password, userLine, urlLine, block);
  }

  lemma ThreeHeads<T>(a: T, b: T, c: T, rest: seq<T>)
    ensures [a] + ([b] + ([c] + rest)) == [a, b, c] + rest
  {
  }

  /** With an empty comment the body is exactly three newline-terminated lines. */
  lemma EmptyCommentThreeLines(config: Settings, password: string, user: string, url: string)
    requires NoLineBreak(password) && NoLineBreak(config.sepUsername + user) && NoLineBreak(config.sepUrl + url)
    ensures SplitLines(GetContent(config, password, user, url, "")) == [password, config.sepUsername + user, config.sepUrl + url]
    ensures multiset(GetContent(config, password, user, url, ""))['\n'] == 3
  {
    var userLine, urlLine := config.sepUsername + user, config.sepUrl + url;
    ContentLines(config, password, user, url, "");
    var block := CommentBlock("");
    assert block == [];
    assert [password, userLine, urlLine] + block == [password, userLine, urlLine];
    EmptyCommentContent(config, password, user, url);
    ThreeLinesCount(password, userLine, urlLine);
  }

  /** With an empty comment the body is the three header lines, each closed by `\n`. */
  lemma EmptyCommentContent(config: Settings, password: string, user: string, url: string)
    ensures GetContent(config, password, user, url, "")
         == password + "\n" + (config.sepUsername + user) + "\n" + (config.sepUrl + url) + "\n"
  {
    var nl := "\n";
    var a := password + nl;
    assert a + config.sepUsername + user == a + (config.sepUsername + user);
    var b := a + (config.sepUsername + user) + nl;
    assert b + config.sepUrl + url == b + (config.sepUrl + url);
    var c := b + (config.sepUrl + url) + nl;
    assert c + "" + "" == c;
  }

  /** Three lines without a break, each ended by `\n`, hold exactly three `\n`. */
  lemma ThreeLinesCount(a: string, b: string, c: string)
    requires NoLineBreak(a) && NoLineBreak(b) && NoLineBreak(c)
    ensures multiset(a + "\n" + b + "\n" + c + "\n")['\n'] == 3
  {
    NoNewlineCount(a);
    NoNewlineCount(b);
    NoNewlineCount(c);
    var nl := "\n";
    assert multiset(nl)['\n'] == 1;
    assert multiset(a + nl) == multiset(a) + multiset(nl);
    assert multiset(a + nl + b) == multiset(a + nl) + multiset(b);
    assert multiset(a + nl + b + nl) == multiset(a + nl + b) + multiset(nl);
    assert multiset(a + nl + b + nl + c) == multiset(a + nl + b + nl) + multiset(c);
    assert multiset(a + nl + b + nl + c + nl) == multiset(a + nl + b + nl + c) + multiset(nl);
  }

  lemma NoNewlineCount(s: string)
    requires NoLineBreak(s)
    ensures multiset(s)['\n'] == 0
  {
    assert '\n' !in s by {
      forall i | 0 <= i < |s| ensures s[i] != '\n' {
        assert !IsLineBreak(s[i]);
      }
    }
  }

  /**
   * What a record must satisfy for get_content and gpg_to_password to be
   * inverse: no line boundary in the header lines and only `\n` in the
   * comment; stripped header fields; no marker inside its own field; a url
   * line that does not read as a username line; no comment line that reads
   * as a marker line; and no blank line at the head of the comment.
   */
  predicate Parsable(config: Settings, password: string, user: string, url: string, comment: string) {
    && NoLineBreak(password) && NoLineBreak(config.sepUsername + user) && NoLineBreak(config.sepUrl + url)
    && OnlyNewlines(comment)
    && IsStripped(password) && IsStripped(user) && IsStripped(url)
    && !Contains(user, config.sepUsername) && !Contains(url, config.sepUrl)
    && !StartsWith(config.sepUrl + url, config.sepUsername)
    && (comment == "" || comment[0] != '\n')
    && forall line | line in SplitOn(comment, '\n') :: IsCommentLine(config.sepUsername, config.sepUrl)(line)
  }

  /**
   * The round trip: parsing what get_content wrote, with the same markers,
   * gives back the four fields, and the label comes from the file name.
   */
  lemma RoundTrip(config: Settings, filepath: string, password: string, user: string, url: string, comment: string)
    requires Parsable(config, password, user, url, comment)
    ensures Decode(filepath, GetContent(config, password, user, url, comment), config.sepUsername, config.sepUrl)
         == Password(Label(filepath), password, user, url, comment)
  {
    var up, urlp := config.sepUsername, config.sepUrl;
    var app := Label(filepath);
    var block := CommentBlock(comment);
    var lines := BodyLines(password, up + user, urlp + url, block);
    ContentLines(config, password, user, url, comment);
    assert SplitLines(GetContent(config, password, user, url, comment)) == lines;
    assert forall j | 3 <= j < |lines| :: IsCommentLine(up, urlp)(lines[j]) by {
      forall j | 3 <= j < |lines| ensures IsCommentLine(up, urlp)(lines[j]) {
        assert block[j - 3] in SplitOn(comment, '\n');
      }
    }
    ParsedLabel(app, lines, up, urlp);
    ParsedPassword(app, lines, up, urlp);
    StripIdentity(password);
    ParsedBodyUser(app, lines, up, urlp, user);
    ParsedBodyUrl(app, lines, up, urlp, url);
    ParsedComment(app, lines, up, urlp);
    assert lines[3..] == block;
    CommentLinesOfBody(lines, block, up, urlp);
    if comment != "" {
      FirstSplitNonEmpty(comment);
      JoinSplit(comment);
    }
  }

  /** The lines of a body: three header lines, then the comment's. */
  function BodyLines(password: string, userLine: string, urlLine: string, block: seq<string>): (lines: seq<string>)
    ensures |lines| == 3 + |block| && lines[0] == password && lines[1] == userLine && lines[2] == urlLine
    ensures forall j :: 3 <= j < |lines| ==> lines[j] == block[j - 3]
  {
    [password, userLine, urlLine] + block
  }

  /** The username marker line of a body gives back the username. */
  lemma ParsedBodyUser(app: string, lines: seq<string>, up: string, urlp: string, user: string)
    requires |lines| >= 3 && lines[1] == up + user && !StartsWith(lines[2], up)
    requires forall j | 3 <= j < |lines| :: IsCommentLine(up, urlp)(lines[j])
    requires !Contains(user, up) && IsStripped(user)
    ensures ParseLines(app, lines, up, urlp).username == user
  {
    assert (up + user)[..|up|] == up;
    assert forall j :: 1 < j < |lines| ==> !StartsWith(lines[j], up) by {
      forall j | 1 < j < |lines| ensures !StartsWith(lines[j], up) {
        if j >= 3 {
          assert IsCommentLine(up, urlp)(lines[j]);
        }
      }
    }
    ParsedUsername(app, lines, up, urlp, 1);
    RemoveMarker(up, user);
    StripIdentity(user);
  }

  /** The url marker line of a body gives back the url. */
  lemma ParsedBodyUrl(app: string, lines: seq<string>, up: string, urlp: string, url: string)
    requires |lines| >= 3 && lines[2] == urlp + url && !StartsWith(lines[2], up)
    requires forall j | 3 <= j < |lines| :: IsCommentLine(up, urlp)(lines[j])
    requires !Contains(url, urlp) && IsStripped(url)
    ensures ParseLines(app, lines, up, urlp).url == url
  {
    assert (urlp + url)[..|urlp|] == urlp;
    assert IsUrlLine(lines, 2, up, urlp);
    assert forall j :: 2 < j < |lines| ==> !IsUrlLine(lines, j, up, urlp) by {
      forall j | 2 < j < |lines| ensures !IsUrlLine(lines, j, up, urlp) {
        assert IsCommentLine(up, urlp)(lines[j]);
      }
    }
    ParsedUrl(app, lines, up, urlp, 2);
    RemoveMarker(urlp, url);
    StripIdentity(url);
  }

  /** The header lines are never comment lines; the comment's lines all are. */
  lemma CommentLinesOfBody(lines: seq<string>, block: seq<string>, up: string, urlp: string)
    requires |lines| == 3 + |block| && lines[3..] == block
    requires StartsWith(lines[1], up) && StartsWith(lines[2], urlp)
    requires forall line | line in block :: IsCommentLine(up, urlp)(line)
    ensures CommentLines(lines, up, urlp) == block
  {
    var keep := IsCommentLine(up, urlp);
    assert lines[1..] == [lines[1], lines[2]] + block;
    FilterConcat([lines[1], lines[2]], block, keep);
    assert Filter([lines[1], lines[2]], keep) == [] by {
      assert [lines[1], lines[2]][1..] == [lines[2]];
      assert [lines[2]][1..] == [];
    }
    FilterAll(block, keep);
  }

  /** Filtering by a predicate every element passes changes nothing. */
  lemma {:induction false} FilterAll<T>(xs: seq<T>, keep: T -> bool)
    requires forall x | x in xs :: keep(x)
    ensures Filter(xs, keep) == xs
    decreases |xs|
  {
    if xs != [] {
      FilterAll(xs[1..], keep);
    }
  }

  /** A comment that does not start with `\n` has a non-empty first line, so none is dropped. */
  lemma FirstSplitNonEmpty(comment: string)
    requires comment != "" && comment[0] != '\n'
    ensures DropLeadingBlank(SplitOn(comment, '\n')) == SplitOn(comment, '\n')
  {
    var i := IndexOf(comment, '\n');
    assert i > 0;
    assert SplitOn(comment, '\n')[0] == comment[..i];
  }

  /** The markers of the default configuration never make a url line read as a username line. */
  lemma DefaultMarkersDistinct(url: string)
    ensures !StartsWith(Defaults().sepUrl + url, Defaults().sepUsername)
  {
    var s := Defaults().sepUrl + url;
    assert s[4] == 'R';
    assert Defaults().sepUsername[4] == 'S';
  }

  // ---------------------------------------------------------------------------
  // Shell completion
  // ---------------------------------------------------------------------------

  /** `incomplete.lower() in s.lower()`. */
  predicate Mentions(s: string, incomplete: string) {
    Contains(Lower(s), Lower(incomplete))
  }

  function MentionsOf(incomplete: string): string -> bool {
    (s: string) => Mentions(s, incomplete)
  }

  function NameMentions(incomplete: string): Folders.FolderItem -> bool {
    (it: Folders.FolderItem) => Mentions(it.name, incomplete)
  }

  function Quoted(it: Folders.FolderItem): string {
    "\"" + it.name + "\""
  }

  /** complete_store: the section names that contain the typed text, ignoring case, in their order. */
  function CompleteStore(sections: seq<string>, incomplete: string): (r: seq<string>)
    ensures forall s :: s in r <==> s in sections && Mentions(s, incomplete)
  {
    var r := Filter(sections, MentionsOf(incomplete));
    assert forall s :: s in sections && Mentions(s, incomplete) ==> s in r by {
      forall s | s in sections && Mentions(s, incomplete) ensures s in r {
        var i :| 0 <= i < |sections| && sections[i] == s;
        assert MentionsOf(incomplete)(sections[i]);
      }
    }
    r
  }

  /** complete_folder: the quoted names of the listed folders that contain the typed text. */
  function CompleteFolder(folders: seq<Folders.FolderItem>, incomplete: string): seq<string> {
    MapSeq(Filter(folders, NameMentions(incomplete)), Quoted)
  }

  /** A folder is offered exactly when its name contains the typed text, ignoring case. */
  lemma CompleteFolderIff(folders: seq<Folders.FolderItem>, incomplete: string, q: string)
    ensures q in CompleteFolder(folders, incomplete) <==>
      exists j :: 0 <= j < |folders| && Mentions(folders[j].name, incomplete) && q == "\"" + folders[j].name + "\""
  {
    MapFilterIff(folders, NameMentions(incomplete), Quoted, q);
    if exists j :: 0 <= j < |folders| && Mentions(folders[j].name, incomplete) && q == "\"" + folders[j].name + "\"" {
      var j :| 0 <= j < |folders| && Mentions(folders[j].name, incomplete) && q == "\"" + folders[j].name + "\"";
      assert NameMentions(incomplete)(folders[j]) && q == Quoted(folders[j]);
    }
  }

  // ---------------------------------------------------------------------------
  // The store path of `init --new-section`
  // ---------------------------------------------------------------------------

  /** cli_init: with `--new-section` the default path loses its last character and gains "-<context>". */
  function InitPath(path: string, home: string, newSection: bool, context: string): (r: string)
    ensures !(path == DefaultPath(home) && newSection) ==> r == path
  {
    if path == DefaultPath(home) && newSection then path[..|path| - 1] + "-" + Lower(context) else path
  }

  /** The store of a new section sits next to the default one: `<home>/.ppass-<context>`. */
  lemma NewSectionPath(home: string, context: string)
    ensures InitPath(DefaultPath(home), home, true, context) == PathJoin(home, ".ppass") + "-" + Lower(context)
  {
    var d := DefaultPath(home);
    assert d == PathJoin(home, ".ppass") + "/";
    assert d[..|d| - 1] == PathJoin(home, ".ppass");
  }

  // ---------------------------------------------------------------------------
  // Store effects of the commands
  // ---------------------------------------------------------------------------

  /**
   * What a failed command leaves behind: no file disappears and every file is
   * as it was, except one the command was writing when the identity turned out
   * not to be in the keyring, which is left empty.
   */
  predicate KeptOrEmptied(files: map<string, Blob>, files0: map<string, Blob>, kr: Keyring, identity: string) {
    && files0.Keys <= files.Keys
    && forall p | p in files :: (p in files0 && files[p] == files0[p]) || (files[p] == Empty && identity !in kr.keyIds)
  }

  /** Nothing that existed is overwritten or removed. */
  predicate NoneOverwritten(files: map<string, Blob>, files0: map<string, Blob>) {
    forall p | p in files0 :: p in files && files[p] == files0[p]
  }

  /** `os.path.join(config.path, folder, name + ".gpg")`. */
  function NewFilePath(store: string, folder: string, name: string): (path: string)
    ensures EndsWith(path, name + ".gpg") && EndsWith(path, ".gpg")
  {
    var path := PathJoin(PathJoin(store, folder), name + ".gpg");
    assert (name + ".gpg")[|name + ".gpg"| - 4..] == ".gpg";
    Passwords.EndsWithTrans(path, name + ".gpg", ".gpg");
    path
  }

  /**
   * The tail of cli_insert and cli_generate: the body of a new record with no
   * comment is encrypted to `<store>/<folder>/<name>.gpg`, which must not exist.
   */
  method WriteNew(fs: FileSystem, kr: Keyring, config: Settings, folder: string, name: string,
                  password: string, user: string, url: string)
    returns (r: Result<string>)
    requires fs.Valid()
    modifies fs
    ensures fs.Valid() && fs.dirs == old(fs.dirs)
    ensures old(fs.Exists(NewFilePath(config.path, folder, name))) ==> r == Failure("File already exists")
    ensures r.Success? <==> !old(fs.Exists(NewFilePath(config.path, folder, name))) && config.identity in kr.keyIds
    ensures r.Success? ==> r.value == NewFilePath(config.path, folder, name)
    ensures r.Success? ==> fs.files == old(fs.files)[r.value := GnupgEncrypt(kr, GetContent(config, password, user, url, ""), config.identity)]
    ensures r.Failure? ==> KeptOrEmptied(fs.files, old(fs.files), kr, config.identity)
    ensures NoneOverwritten(fs.files, old(fs.files))
  {
    var content := GetContent(config, password, user, url, "");
    var filepath := NewFilePath(config.path, folder, name);
    var written := EncryptToFile(fs, kr, content, config.identity, filepath);
    if written.Failure? {
      return Failure(written.error);
    }
    r := Success(filepath);
  }

  /** The answers the user gives while a command prompts: the row picked and each typed value. */
  datatype Replies = Replies(pick: nat, name: string, first: string, second: string, user: string, url: string)

  /** A password file written by insert or generate, with the values that went into it. */
  datatype Created = Created(path: string, folder: string, name: string, password: string, user: string, url: string)

  /** The folder a create command resolves: validate_folder over folders.get_list. */
  function ChosenFolder(config: Settings, top: Option<Node>, isJson: bool, folder: string, pick: nat): Result<string> {
    match Folders.GetList(config.path, top)
    case Failure(e) => Failure(e)
    case Success(folders) => ValidateFolder(isJson, folder, folders, pick)
  }

  /** What a successful insert or generate wrote, and that it wrote nothing else. */
  predicate CreatedAs(files: map<string, Blob>, files0: map<string, Blob>, kr: Keyring, config: Settings, c: Created) {
    && c.path == NewFilePath(config.path, c.folder, c.name)
    && c.path !in files0
    && config.identity in kr.keyIds
    && Strip(c.name) != "" && Strip(c.user) != "" && Strip(c.url) != ""
    && files == files0[c.path := GnupgEncrypt(kr, GetContent(config, c.password, c.user, c.url, ""), config.identity)]
  }

  /**
   * cli_insert: resolve the folder, validate the name, the password (typed
   * twice when not given), the user and the url, then create the file.
   */
  method InsertPassword(fs: FileSystem, kr: Keyring, config: Settings, top: Option<Node>, isJson: bool,
                        folder: string, name: string, password: string, user: string, url: string, replies: Replies)
    returns (r: Result<Created>)
    requires fs.Valid()
    modifies fs
    ensures fs.Valid() && fs.dirs == old(fs.dirs)
    ensures ChosenFolder(config, top, isJson, folder, replies.pick).Failure? ==> r.Failure? && fs.files == old(fs.files)
    ensures r.Success? ==> CreatedAs(fs.files, old(fs.files), kr, config, r.value)
    ensures r.Success? ==> r.value.folder == ChosenFolder(config, top, isJson, folder, replies.pick).value
    ensures r.Success? ==> r.value.password != "" && IsStripped(r.value.password)
    ensures r.Success? && Strip(password) != "" ==> r.value.password == Strip(password)
    ensures r.Failure? ==> KeptOrEmptied(fs.files, old(fs.files), kr, config.identity)
    ensures NoneOverwritten(fs.files, old(fs.files))
    ensures r.Success? <==>
      && ChosenFolder(config, top, isJson, folder, replies.pick).Success?
      && Accepted(isJson, name, replies.name)
      && PasswordAccepted(isJson, password, replies.first, replies.second)
      && Accepted(isJson, user, replies.user) && Accepted(isJson, url, replies.url)
      && !old(fs.Exists(NewFilePath(config.path, ChosenFolder(config, top, isJson, folder, replies.pick).value,
                                    Validated(name, replies.name))))
      && config.identity in kr.keyIds
    ensures r.Success? ==>
      var chosen := ChosenFolder(config, top, isJson, folder, replies.pick).value;
      r.value == Created(NewFilePath(config.path, chosen, Validated(name, replies.name)), chosen,
                         Validated(name, replies.name), ValidatedPassword(password, replies.first),
                         Validated(user, replies.user), Validated(url, replies.url))
  {
    var chosen :- ChosenFolder(config, top, isJson, folder, replies.pick);
    var fileName :- Validate(isJson, name, "Password name", "", replies.name);
    var secret :- ValidatePasswordValue(isJson, password, replies.first, replies.second);
    var userName :- Validate(isJson, user, "User name", "", replies.user);
    var site :- Validate(isJson, url, "Site url", "", replies.url);
    var filepath :- WriteNew(fs, kr, config, chosen, fileName, secret, userName, site);
    r := Success(Created(filepath, chosen, fileName, secret, userName, site));
  }

  /** cli_generate: as insert, with the password drawn by the generator instead of typed. */
  method GeneratePassword(fs: FileSystem, kr: Keyring, config: Settings, top: Option<Node>, isJson: bool,
                          folder: string, name: string, user: string, url: string, generated: string, replies: Replies)
    returns (r: Result<Created>)
    requires fs.Valid()
    modifies fs
    ensures fs.Valid() && fs.dirs == old(fs.dirs)
    ensures ChosenFolder(config, top, isJson, folder, replies.pick).Failure? ==> r.Failure? && fs.files == old(fs.files)
    ensures r.Success? ==> CreatedAs(fs.files, old(fs.files), kr, config, r.value)
    ensures r.Success? ==> r.value.folder == ChosenFolder(config, top, isJson, folder, replies.pick).value
    ensures r.Success? ==> r.value.password == generated
    ensures r.Failure? ==> KeptOrEmptied(fs.files, old(fs.files), kr, config.identity)
    ensures NoneOverwritten(fs.files, old(fs.files))
    ensures r.Success? <==>
      && ChosenFolder(config, top, isJson, folder, replies.pick).Success?
      && Accepted(isJson, name, replies.name)
      && Accepted(isJson, user, replies.user) && Accepted(isJson, url, replies.url)
      && !old(fs.Exists(NewFilePath(config.path, ChosenFolder(config, top, isJson, folder, replies.pick).value,
                                    Validated(name, replies.name))))
      && config.identity in kr.keyIds
    ensures r.Success? ==>
      var chosen := ChosenFolder(config, top, isJson, folder, replies.pick).value;
      r.value == Created(NewFilePath(config.path, chosen, Validated(name, replies.name)), chosen,
                         Validated(name, replies.name), generated,
                         Validated(user, replies.user), Validated(url, replies.url))
  {
    var chosen :- ChosenFolder(config, top, isJson, folder, replies.pick);
    var fileName :- Validate(isJson, name, "Password name", "", replies.name);
    var userName :- Validate(isJson, user, "User name", "", replies.user);
    var site :- Validate(isJson, url, "Site url", "", replies.url);
    var filepath :- WriteNew(fs, kr, config, chosen, fileName, generated, userName, site);
    r := Success(Created(filepath, chosen, fileName, generated, userName, site));
  }

  /**
   * A created file decrypts and parses back to the values that went into it,
   * labelled by its name, whenever those values satisfy `Parsable`.
   */
  lemma CreatedReadsBack(files: map<string, Blob>, files0: map<string, Blob>, kr: Keyring, config: Settings, c: Created)
    requires CreatedAs(files, files0, kr, config, c)
    requires Parsable(config, c.password, c.user, c.url, "")
    ensures Decode(c.path, GnupgDecrypt(kr, files[c.path]), config.sepUsername, config.sepUrl)
         == Password(Label(c.path), c.password, c.user, c.url, "")
  {
    RoundTrip(config, c.path, c.password, c.user, c.url, "");
  }

  /** The item a command on one password file works on: validate_password over passwords.get_list. */
  function Selection(config: Settings, filter: string, top: Option<Node>, isJson: bool, pick: nat): Result<Passwords.PasswordItem> {
    match Passwords.ListPasswords(config.path, filter, top)
    case Failure(e) => Failure(e)
    case Success(items) => ValidatePassword(isJson, items, pick)
  }

  /** A selected item is one of the listed items. */
  lemma SelectionListed(config: Settings, filter: string, top: Option<Node>, isJson: bool, pick: nat)
    requires Selection(config, filter, top, isJson, pick).Success?
    ensures Passwords.ListPasswords(config.path, filter, top).Success?
    ensures Selection(config, filter, top, isJson, pick).value in Passwords.ListPasswords(config.path, filter, top).value
  {
  }

  method SelectItem(config: Settings, filter: string, top: Option<Node>, isJson: bool, pick: nat)
    returns (r: Result<Passwords.PasswordItem>)
    ensures r == Selection(config, filter, top, isJson, pick)
  {
    var items :- Passwords.GetList(config.path, filter, top);
    r := ValidatePassword(isJson, items, pick);
  }

  /**
   * `os.remove` then `gpg.encrypt_to_file` on the same path, as edit and the
   * modify commands do: once the file is removed the "File already exists"
   * guard cannot fire, so the path is always written again.
   */
  method Replace(fs: FileSystem, kr: Keyring, content: string, identity: string, path: string)
    returns (r: Result<()>)
    requires fs.Valid()
    modifies fs
    ensures fs.Valid() && fs.dirs == old(fs.dirs)
    ensures path !in old(fs.files) ==> r.Failure? && fs.files == old(fs.files)
    ensures path in old(fs.files) ==> fs.files == old(fs.files)[path := WrittenBlob(kr, content, identity)]
    ensures r.Success? <==> path in old(fs.files) && identity in kr.keyIds
  {
    var removed :- fs.Remove(path);
    assert !fs.Exists(path);
    r := EncryptToFile(fs, kr, content, identity, path);
    assert old(fs.files) - {path} + map[path := WrittenBlob(kr, content, identity)] == old(fs.files)[path := WrittenBlob(kr, content, identity)];
  }

  /** cli_delete: select one file, confirm unless `--yes` or JSON mode, remove it. */
  method DeletePassword(fs: FileSystem, config: Settings, top: Option<Node>, isJson: bool, isYes: bool,
                        filter: string, pick: nat, confirmed: bool)
    returns (r: Result<Passwords.PasswordItem>)
    requires fs.Valid()
    modifies fs
    ensures fs.Valid() && fs.dirs == old(fs.dirs)
    ensures r.Success? ==> Selection(config, filter, top, isJson, pick) == Success(r.value)
    ensures r.Success? ==> r.value.path in old(fs.files) && fs.files == old(fs.files) - {r.value.path}
    ensures r.Failure? ==> fs.files == old(fs.files)
    ensures Selection(config, filter, top, isJson, pick).Success? && !isYes && !isJson && !confirmed ==>
      r == Failure("Password deletion has been cancelled")
    ensures r.Success? <==>
      && Selection(config, filter, top, isJson, pick).Success?
      && (isYes || isJson || confirmed)
      && Selection(config, filter, top, isJson, pick).value.path in old(fs.files)
  {
    var item :- SelectItem(config, filter, top, isJson, pick);
    if !isYes && !isJson && !confirmed {
      return Failure("Password deletion has been cancelled");
    }
    var removed :- fs.Remove(item.path);
    r := Success(item);
  }

  /** cli_edit: select one file, decrypt it, and store what the editor returns in its place. */
  method EditPassword(fs: FileSystem, kr: Keyring, config: Settings, top: Option<Node>, isJson: bool,
                      filter: string, pick: nat, edited: Option<string>)
    returns (r: Result<Passwords.PasswordItem>)
    requires fs.Valid()
    modifies fs
    ensures fs.Valid() && fs.dirs == old(fs.dirs)
    ensures r.Success? ==> Selection(config, filter, top, isJson, pick) == Success(r.value)
    ensures r.Success? ==> old(DecryptFile(fs, kr, r.value.path)).Success? && edited.Some?
    ensures r.Success? ==> config.identity in kr.keyIds
    ensures r.Success? ==> fs.files == old(fs.files)[r.value.path := GnupgEncrypt(kr, edited.value, config.identity)]
    ensures edited.None? ==> fs.files == old(fs.files)
    ensures r.Failure? ==> KeptOrEmptied(fs.files, old(fs.files), kr, config.identity)
    ensures r.Success? <==>
      && Selection(config, filter, top, isJson, pick).Success?
      && old(DecryptFile(fs, kr, Selection(config, filter, top, isJson, pick).value.path)).Success?
      && edited.Some?
      && config.identity in kr.keyIds
  {
    var item :- SelectItem(config, filter, top, isJson, pick);
    var content :- DecryptFile(fs, kr, item.path);
    if edited.None? {
      return Failure("Edition cancelled");
    }
    var written := Replace(fs, kr, edited.value, config.identity, item.path);
    if written.Failure? {
      return Failure(written.error);
    }
    r := Success(item);
  }

  /** A record as a modify command read it from its file and as it wrote it back. */
  datatype Rewrite = Rewrite(item: Passwords.PasswordItem, before: Password, after: Password)

  /**
   * What a successful modify did: the selected file held a non-empty body that
   * parses to `before`, and it now holds the body of `after`, and no other file
   * changed.
   */
  predicate Rewritten(files: map<string, Blob>, files0: map<string, Blob>, kr: Keyring, config: Settings, rw: Rewrite) {
    && rw.item.path in files0
    && EndsWith(rw.item.path, ".gpg")
    && GnupgDecrypt(kr, files0[rw.item.path]) != ""
    && rw.before == Decode(rw.item.path, GnupgDecrypt(kr, files0[rw.item.path]), config.sepUsername, config.sepUrl)
    && config.identity in kr.keyIds
    && files == files0[rw.item.path := GnupgEncrypt(kr, Body(config, rw.after), config.identity)]
  }

  /**
   * What the modify commands need of the store before they change anything:
   * the selection succeeds and the selected file decrypts to a non-empty body.
   */
  predicate Readable(fs: FileSystem, kr: Keyring, config: Settings, filter: string, top: Option<Node>, isJson: bool, pick: nat)
    reads fs
  {
    && Selection(config, filter, top, isJson, pick).Success?
    && DecryptFile(fs, kr, Selection(config, filter, top, isJson, pick).value.path).Success?
    && DecryptFile(fs, kr, Selection(config, filter, top, isJson, pick).value.path).value != ""
  }

  /**
   * The shared steps of the modify commands: the selected file is decrypted
   * and parsed, and the rebuilt record `after` replaces it.
   */
  method Rebuild(fs: FileSystem, kr: Keyring, config: Settings, item: Passwords.PasswordItem, before: Password, after: Password)
    returns (r: Result<Rewrite>)
    requires fs.Valid()
    requires DecryptFile(fs, kr, item.path).Success? && DecryptFile(fs, kr, item.path).value != ""
    requires before == Decode(item.path, DecryptFile(fs, kr, item.path).value, config.sepUsername, config.sepUrl)
    modifies fs
    ensures fs.Valid() && fs.dirs == old(fs.dirs)
    ensures r.Success? <==> config.identity in kr.keyIds
    ensures r.Success? ==> r.value == Rewrite(item, before, after) && Rewritten(fs.files, old(fs.files), kr, config, r.value)
    ensures r.Failure? ==> KeptOrEmptied(fs.files, old(fs.files), kr, config.identity)
  {
    var written := Replace(fs, kr, Body(config, after), config.identity, item.path);
    if written.Failure? {
      return Failure(written.error);
    }
    r := Success(Rewrite(item, before, after));
  }

  /** cli_modify_user: only the username changes, to the validated new value. */
  method ModifyUser(fs: FileSystem, kr: Keyring, config: Settings, top: Option<Node>, isJson: bool,
                    filter: string, pick: nat, newValue: string, reply: string)
    returns (r: Result<Rewrite>)
    requires fs.Valid()
    modifies fs
    ensures fs.Valid() && fs.dirs == old(fs.dirs)
    ensures r.Success? ==> Selection(config, filter, top, isJson, pick) == Success(r.value.item)
    ensures r.Success? ==> Rewritten(fs.files, old(fs.files), kr, config, r.value)
    ensures r.Success? ==> r.value.after == r.value.before.(username := r.value.after.username)
    ensures r.Success? ==> r.value.after.username == if Strip(newValue) != "" then Strip(newValue) else reply
    ensures r.Failure? ==> KeptOrEmptied(fs.files, old(fs.files), kr, config.identity)
    ensures r.Success? <==>
      old(Readable(fs, kr, config, filter, top, isJson, pick)) && Accepted(isJson, newValue, reply) && config.identity in kr.keyIds
  {
    var item :- SelectItem(config, filter, top, isJson, pick);
    var before :- DecryptToPassword(fs, kr, item.path, config.sepUsername, config.sepUrl);
    var user :- Validate(isJson, newValue, "New username", "", reply);
    r := Rebuild(fs, kr, config, item, before, before.(username := user));
  }

  /** cli_modify_url: only the url changes, to the validated new value. */
  method ModifyUrl(fs: FileSystem, kr: Keyring, config: Settings, top: Option<Node>, isJson: bool,
                   filter: string, pick: nat, newValue: string, reply: string)
    returns (r: Result<Rewrite>)
    requires fs.Valid()
    modifies fs
    ensures fs.Valid() && fs.dirs == old(fs.dirs)
    ensures r.Success? ==> Selection(config, filter, top, isJson, pick) == Success(r.value.item)
    ensures r.Success? ==> Rewritten(fs.files, old(fs.files), kr, config, r.value)
    ensures r.Success? ==> r.value.after == r.value.before.(url := r.value.after.url)
    ensures r.Success? ==> r.value.after.url == if Strip(newValue) != "" then Strip(newValue) else reply
    ensures r.Failure? ==> KeptOrEmptied(fs.files, old(fs.files), kr, config.identity)
    ensures r.Success? <==>
      old(Readable(fs, kr, config, filter, top, isJson, pick)) && Accepted(isJson, newValue, reply) && config.identity in kr.keyIds
  {
    var item :- SelectItem(config, filter, top, isJson, pick);
    var before :- DecryptToPassword(fs, kr, item.path, config.sepUsername, config.sepUrl);
    var url :- Validate(isJson, newValue, "New url", "", reply);
    r := Rebuild(fs, kr, config, item, before, before.(url := url));
  }

  /**
   * cli_modify_comment: only the comment changes, to the stripped argument or
   * to what the editor returns; when the editor returns nothing, get_content
   * fails on the missing text before any file is touched.
   */
  method ModifyComment(fs: FileSystem, kr: Keyring, config: Settings, top: Option<Node>, isJson: bool,
                       filter: string, pick: nat, newValue: string, edited: Option<string>)
    returns (r: Result<Rewrite>)
    requires fs.Valid()
    modifies fs
    ensures fs.Valid() && fs.dirs == old(fs.dirs)
    ensures r.Success? ==> Selection(config, filter, top, isJson, pick) == Success(r.value.item)
    ensures r.Success? ==> Rewritten(fs.files, old(fs.files), kr, config, r.value)
    ensures r.Success? ==> r.value.after == r.value.before.(comment := r.value.after.comment)
    ensures r.Success? ==> Some(r.value.after.comment) == ValidateMultiline(isJson, newValue, edited)
    ensures ValidateMultiline(isJson, newValue, edited).None? ==> r.Failure? && fs.files == old(fs.files)
    ensures r.Failure? ==> KeptOrEmptied(fs.files, old(fs.files), kr, config.identity)
    ensures r.Success? <==>
      && old(Readable(fs, kr, config, filter, top, isJson, pick))
      && ValidateMultiline(isJson, newValue, edited).Some?
      && config.identity in kr.keyIds
  {
    var item :- SelectItem(config, filter, top, isJson, pick);
    var before :- DecryptToPassword(fs, kr, item.path, config.sepUsername, config.sepUrl);
    var comment := ValidateMultiline(isJson, newValue, edited);
    if comment.None? {
      return Failure("unsupported operand type(s) for +: 'NoneType' and 'str'");
    }
    r := Rebuild(fs, kr, config, item, before, before.(comment := comment.value));
  }

  /** cli_modify_password_generate: only the password changes, to the generated one. */
  method ModifyPasswordGenerate(fs: FileSystem, kr: Keyring, config: Settings, top: Option<Node>, isJson: bool,
                                filter: string, pick: nat, generated: string)
    returns (r: Result<Rewrite>)
    requires fs.Valid()
    modifies fs
    ensures fs.Valid() && fs.dirs == old(fs.dirs)
    ensures r.Success? ==> Selection(config, filter, top, isJson, pick) == Success(r.value.item)
    ensures r.Success? ==> Rewritten(fs.files, old(fs.files), kr, config, r.value)
    ensures r.Success? ==> r.value.after == r.value.before.(password := generated)
    ensures r.Failure? ==> KeptOrEmptied(fs.files, old(fs.files), kr, config.identity)
    ensures r.Success? <==> old(Readable(fs, kr, config, filter, top, isJson, pick)) && config.identity in kr.keyIds
  {
    var item :- SelectItem(config, filter, top, isJson, pick);
    var before :- DecryptToPassword(fs, kr, item.path, config.sepUsername, config.sepUrl);
    r := Rebuild(fs, kr, config, item, before, before.(password := generated));
  }

  /** cli_modify_password_insert: only the password changes, to the validated new one. */
  method ModifyPasswordInsert(fs: FileSystem, kr: Keyring, config: Settings, top: Option<Node>, isJson: bool,
                              filter: string, pick: nat, newValue: string, first: string, second: string)
    returns (r: Result<Rewrite>)
    requires fs.Valid()
    modifies fs
    ensures fs.Valid() && fs.dirs == old(fs.dirs)
    ensures r.Success? ==> Selection(config, filter, top, isJson, pick) == Success(r.value.item)
    ensures r.Success? ==> Rewritten(fs.files, old(fs.files), kr, config, r.value)
    ensures r.Success? ==> r.value.after == r.value.before.(password := r.value.after.password)
    ensures r.Success? ==> r.value.after.password != "" && IsStripped(r.value.after.password)
    ensures r.Success? && Strip(newValue) != "" ==> r.value.after.password == Strip(newValue)
    ensures r.Success? ==> r.value.after.password == ValidatedPassword(newValue, first)
    ensures r.Failure? ==> KeptOrEmptied(fs.files, old(fs.files), kr, config.identity)
    ensures r.Success? <==>
      && old(Readable(fs, kr, config, filter, top, isJson, pick))
      && PasswordAccepted(isJson, newValue, first, second)
      && config.identity in kr.keyIds
  {
    var item :- SelectItem(config, filter, top, isJson, pick);
    var before :- DecryptToPassword(fs, kr, item.path, config.sepUsername, config.sepUrl);
    var password :- ValidatePasswordValue(isJson, newValue, first, second);
    r := Rebuild(fs, kr, config, item, before, before.(password := password));
  }

  /**
   * After a modify, the file parses back to the rebuilt record whenever that
   * record satisfies `Parsable`: the changed field reads as written and the
   * other three as they were read.
   */
  lemma RewrittenReadsBack(files: map<string, Blob>, files0: map<string, Blob>, kr: Keyring, config: Settings, rw: Rewrite)
    requires Rewritten(files, files0, kr, config, rw)
    requires rw.after.app == rw.before.app
    requires Parsable(config, rw.after.password, rw.after.username, rw.after.url, rw.after.comment)
    ensures Decode(rw.item.path, GnupgDecrypt(kr, files[rw.item.path]), config.sepUsername, config.sepUrl) == rw.after
  {
    ParsedLabel(Label(rw.item.path), SplitLines(GnupgDecrypt(kr, files0[rw.item.path])), config.sepUsername, config.sepUrl);
    RoundTrip(config, rw.item.path, rw.after.password, rw.after.username, rw.after.url, rw.after.comment);
  }

  /** cli_folders_create: validate the name, then create `<store>/<name>`. */
  method CreateFolder(fs: FileSystem, config: Settings, isJson: bool, name: string, reply: string)
    returns (r: Result<string>)
    requires fs.Valid()
    modifies fs
    ensures fs.Valid() && fs.files == old(fs.files)
    ensures r.Success? ==> Strip(r.value) != "" && !old(fs.Exists(PathJoin(config.path, r.value)))
    ensures r.Success? ==> fs.dirs == old(fs.dirs) + {PathJoin(config.path, r.value)}
    ensures r.Success? && Strip(name) != "" ==> r.value == Strip(name)
    ensures r.Failure? ==> fs.dirs == old(fs.dirs)
    ensures r.Success? <==> Accepted(isJson, name, reply) && !old(fs.Exists(PathJoin(config.path, Validated(name, reply))))
    ensures r.Success? ==> r.value == Validated(name, reply)
  {
    var folder :- Validate(isJson, name, "Name", "", reply);
    var created :- Folders.Create(fs, folder, PathJoin(config.path, folder));
    r := Success(folder);
  }

  /**
   * cli_folders_delete: resolve the folder among the listed ones, confirm
   * unless `--yes` or JSON mode, then remove it with everything beneath it.
   */
  method DeleteFolder(fs: FileSystem, config: Settings, top: Option<Node>, isJson: bool, isYes: bool,
                      name: string, pick: nat, confirmed: bool)
    returns (r: Result<string>)
    requires fs.Valid()
    modifies fs
    ensures fs.Valid()
    ensures r.Success? ==> ChosenFolder(config, top, isJson, name, pick) == Success(r.value)
    ensures r.Success? ==> PathJoin(config.path, r.value) in old(fs.dirs)
    ensures r.Success? ==> fs.dirs == PrunedDirs(old(fs.dirs), PathJoin(config.path, r.value))
    ensures r.Success? ==> fs.files == PrunedFiles(old(fs.files), PathJoin(config.path, r.value))
    ensures r.Failure? ==> fs.dirs == old(fs.dirs) && fs.files == old(fs.files)
    ensures ChosenFolder(config, top, isJson, name, pick).Success? && !isYes && !isJson && !confirmed ==>
      r == Failure("Folder deletion has been cancelled")
    ensures r.Success? <==>
      && ChosenFolder(config, top, isJson, name, pick).Success?
      && (isYes || isJson || confirmed)
      && Strip(ChosenFolder(config, top, isJson, name, pick).value) != ""
      && PathJoin(config.path, ChosenFolder(config, top, isJson, name, pick).value) in old(fs.dirs)
  {
    var folder :- ChosenFolder(config, top, isJson, name, pick);
    if !isYes && !isJson && !confirmed {
      return Failure("Folder deletion has been cancelled");
    }
    var deleted :- Folders.Delete(fs, folder, PathJoin(config.path, folder));
    r := Success(folder);
  }
}
