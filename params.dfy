/**
 * ppass/modules/params.py: validation of command-line parameters, with the
 * interactive prompts, the editor and the selector as oracles (what the user
 * types, what the editor returns, which row the user picks).
 */
module Params {
  import opened Wrappers
  import opened Text
  import opened Seqs
  import opened Fs
  import opened Ui
  import opened Passwords
  import opened Folders

  /** What `Prompt.ask` returns for the user's `reply`: an empty reply takes the default, if any. */
  function Answer(reply: string, defaultValue: string): string {
    if defaultValue != "" && reply == "" then defaultValue else reply
  }

  /** Whether `validate`, with no default, accepts: a non-blank argument, or else a non-blank reply outside JSON mode. */
  predicate Accepted(isJson: bool, value: string, reply: string) {
    Strip(value) != "" || (!isJson && Strip(reply) != "")
  }

  /** The value `validate`, with no default, then returns: the stripped argument, or else the reply as typed. */
  function Validated(value: string, reply: string): string {
    if Strip(value) != "" then Strip(value) else reply
  }

  /**
   * params.validate: a non-blank argument is used stripped; a blank one fails
   * in JSON mode and is otherwise prompted for, and a prompted value must not
   * be blank but is kept as typed.
   */
  method Validate(isJson: bool, value: string, message: string, defaultValue: string, reply: string)
    returns (r: Result<string>)
    ensures r.Success? ==> Strip(r.value) != ""
    ensures Strip(value) != "" ==> r == Success(Strip(value))
    ensures Strip(value) == "" && isJson ==> r == Failure("Incorrect <" + message + "> value")
    ensures Strip(value) == "" && !isJson ==>
      r == if Strip(Answer(reply, defaultValue)) == "" then Failure("Incorrect <" + message + "> value")
           else Success(Answer(reply, defaultValue))
    ensures defaultValue == "" ==> (r.Success? <==> Accepted(isJson, value, reply))
    ensures defaultValue == "" && r.Success? ==> r.value == Validated(value, reply)
  {
    var newValue := Strip(value);
    if newValue == "" && isJson {
      return Failure("Incorrect <" + message + "> value");
    }
    if newValue == "" {
      if defaultValue == "" {
        newValue := reply;
      } else {
        newValue := if reply == "" then defaultValue else reply;
      }
      if Strip(newValue) == "" {
        return Failure("Incorrect <" + message + "> value");
      }
    }
    r := Success(newValue);
  }

  /** params.validate_path: a validated path that does not exist is created as a directory. */
  method ValidatePath(fs: FileSystem, isJson: bool, value: string, message: string, reply: string)
    returns (r: Result<string>)
    requires fs.Valid()
    modifies fs
    ensures fs.Valid() && fs.files == old(fs.files)
    ensures r.Success? ==> Strip(r.value) != "" && fs.Exists(r.value)
    ensures r.Success? ==> fs.dirs == if old(fs.Exists(r.value)) then old(fs.dirs) else old(fs.dirs) + {r.value}
    ensures r.Failure? ==> fs.dirs == old(fs.dirs)
    ensures Strip(value) != "" ==> r == Success(Strip(value))
    ensures Strip(value) == "" && isJson ==> r == Failure("Incorrect <" + message + "> value")
    ensures Strip(value) == "" && !isJson ==>
      r == if Strip(reply) == "" then Failure("Incorrect <" + message + "> value") else Success(reply)
  {
    var newValue :- Validate(isJson, value, message, "", reply);
    if !fs.Exists(newValue) {
      var _ := fs.Mkdir(newValue);
    }
    r := Success(newValue);
  }

  /**
   * params.validate_identity: the stripped argument must be a known key id in
   * JSON mode; interactively an unknown or blank one is replaced by the key the
   * user selects; the result is never blank.
   */
  method ValidateIdentity(isJson: bool, value: string, keyIds: seq<string>, pick: nat)
    returns (r: Result<string>)
    ensures isJson && Strip(value) !in keyIds ==> r == Failure("Invalid identity key <" + value + ">")
    ensures Strip(value) != "" && Strip(value) in keyIds ==> r == Success(Strip(value))
    ensures r.Success? ==> r.value != "" && r.value in keyIds
    ensures !isJson && keyIds != [] && (Strip(value) == "" || Strip(value) !in keyIds) ==>
      r == if SelectTable(keyIds, pick).value == "" then Failure("Invalid identity key")
           else Success(SelectTable(keyIds, pick).value)
  {
    var newValue := Strip(value);
    if isJson && newValue !in keyIds {
      return Failure("Invalid identity key <" + value + ">");
    }
    if newValue != "" && newValue !in keyIds {
      newValue := "";
    }
    if newValue == "" {
      var identity :- SelectTable(keyIds, pick);
      newValue := identity;
    }
    if newValue == "" {
      return Failure("Invalid identity key");
    }
    r := Success(newValue);
  }

  /** params.validate_multiline: a blank argument is replaced by what the editor returns, unless in JSON mode. */
  function ValidateMultiline(isJson: bool, value: string, edited: Option<string>): (r: Option<string>)
    ensures !isJson && Strip(value) == "" ==> r == edited
    ensures isJson || Strip(value) != "" ==> r == Some(Strip(value)) && IsStripped(r.value)
  {
    if !isJson && Strip(value) == "" then edited else Some(Strip(value))
  }

  /** Whether `validate_passwordvalue` accepts: a non-blank argument, or else two equal, non-blank entries outside JSON mode. */
  predicate PasswordAccepted(isJson: bool, value: string, first: string, second: string) {
    Strip(value) != "" || (!isJson && first == second && Strip(first) != "")
  }

  /** The password `validate_passwordvalue` then returns. */
  function ValidatedPassword(value: string, first: string): string {
    if Strip(value) != "" then Strip(value) else Strip(first)
  }

  /**
   * params.validate_passwordvalue: a blank argument fails in JSON mode and is
   * otherwise typed twice; the two entries must agree and the result is the
   * stripped entry, never blank.
   */
  method ValidatePasswordValue(isJson: bool, value: string, first: string, second: string)
    returns (r: Result<string>)
    ensures r.Success? ==> r.value != "" && IsStripped(r.value)
    ensures Strip(value) != "" ==> r == Success(Strip(value))
    ensures Strip(value) == "" && isJson ==> r == Failure("Incorrect password value")
    ensures Strip(value) == "" && !isJson && first != second ==> r == Failure("Incorrect password confirmation")
    ensures Strip(value) == "" && !isJson && first == second ==>
      r == if Strip(first) == "" then Failure("Incorrect password value") else Success(Strip(first))
    ensures r.Success? <==> PasswordAccepted(isJson, value, first, second)
    ensures r.Success? ==> r.value == ValidatedPassword(value, first)
  {
    var newValue := Strip(value);
    if newValue == "" && isJson {
      return Failure("Incorrect password value");
    }
    if newValue == "" {
      var newValue1 := first;
      var newValue2 := second;
      if newValue1 != newValue2 {
        return Failure("Incorrect password confirmation");
      }
      newValue := Strip(newValue1);
      if newValue == "" {
        return Failure("Incorrect password value");
      }
    }
    r := Success(newValue);
  }

  // ---------------------------------------------------------------------------
  // Folder and password selection
  // ---------------------------------------------------------------------------

  /** The folder's lowercased name starts with the lowercased input. */
  predicate IsCandidate(name: string, it: FolderItem) {
    StartsWith(Lower(it.name), Lower(name))
  }

  function CandidateOf(name: string): FolderItem -> bool {
    (it: FolderItem) => IsCandidate(name, it)
  }

  /** The folders the input designates, in listing order. */
  function Candidates(name: string, folders: seq<FolderItem>): seq<FolderItem> {
    Filter(folders, CandidateOf(name))
  }

  /** params.validate_folder: case-insensitive prefix resolution of a folder name. */
  function ValidateFolder(isJson: bool, name: string, folders: seq<FolderItem>, pick: nat): (r: Result<string>)
    ensures folders == [] ==> r == Failure("No folder available")
    ensures folders != [] && |Candidates(name, folders)| == 1 ==> r == Success(Candidates(name, folders)[0].name)
    ensures folders != [] && isJson && |Candidates(name, folders)| > 1 ==> r == Failure("Multiple folders")
    ensures folders != [] && Candidates(name, folders) == [] && name != "" ==> r == Failure("Folder <" + name + "> does not exist")
  {
    if folders == [] then Failure("No folder available")
    else
      var found := Candidates(name, folders);
      if |found| == 1 then Success(found[0].name)
      else if isJson && |found| > 1 then Failure("Multiple folders")
      else if isJson && name != "" then Failure("Folder <" + name + "> does not exist")
      else if isJson then Failure("Invalid folder name")
      else if |found| == 0 && name != "" then Failure("Folder <" + name + "> does not exist")
      else
        match SelectTable(found, pick)
        case Success(folder) => Success(folder.name)
        case Failure(e) => Failure(e)
  }

  /** Every folder is a candidate for the empty input. */
  lemma EmptyNameMatchesAll(folders: seq<FolderItem>)
    ensures Candidates("", folders) == folders
    decreases |folders|
  {
    if folders != [] {
      assert IsCandidate("", folders[0]);
      EmptyNameMatchesAll(folders[1..]);
      assert folders == [folders[0]] + folders[1..];
    }
  }

  /** A resolved name is the name of one of the candidates, and so of one of the folders. */
  lemma ValidateFolderIsCandidate(isJson: bool, name: string, folders: seq<FolderItem>, pick: nat)
    requires ValidateFolder(isJson, name, folders, pick).Success?
    ensures exists it :: it in Candidates(name, folders) && it.name == ValidateFolder(isJson, name, folders, pick).value
  {
    var found := Candidates(name, folders);
    if |found| != 1 {
      var sel := SelectTable(found, pick);
      assert sel.value in found;
    } else {
      assert found[0] in found;
    }
  }

  /** The "Invalid folder name" branch cannot be reached: the empty input designates every folder. */
  lemma InvalidFolderNameUnreachable(isJson: bool, name: string, folders: seq<FolderItem>, pick: nat)
    ensures ValidateFolder(isJson, name, folders, pick) != Failure("Invalid folder name")
  {
    if folders != [] && name == "" {
      EmptyNameMatchesAll(folders);
    }
  }

  /** In JSON mode a folder is resolved exactly when the input designates one folder. */
  lemma ValidateFolderJson(name: string, folders: seq<FolderItem>, pick: nat)
    ensures ValidateFolder(true, name, folders, pick).Success? <==> folders != [] && |Candidates(name, folders)| == 1
  {
  }

  /** params.validate_password: one item is taken as is; several need a selection, refused in JSON mode. */
  function ValidatePassword(isJson: bool, items: seq<PasswordItem>, pick: nat): (r: Result<PasswordItem>)
    ensures items == [] ==> r == Failure("No password")
    ensures |items| == 1 ==> r == Success(items[0])
    ensures isJson && |items| > 1 ==> r == Failure("Multiple password items")
    ensures r.Success? ==> r.value in items
  {
    if items == [] then Failure("No password")
    else if isJson then
      if |items| == 1 then Success(items[0]) else Failure("Multiple password items")
    else if |items| != 1 then SelectTable(items, pick)
    else Success(items[0])
  }

  /** Interactively every listed item can be the one selected. */
  lemma ValidatePasswordReachesAll(items: seq<PasswordItem>, i: nat)
    requires i < |items|
    ensures ValidatePassword(false, items, i) == Success(items[i])
  {
    if |items| > 1 {
      EveryRowSelectable(items, i);
    }
  }
}
