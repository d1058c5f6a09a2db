# ppass secret-record engine, modelled in Dafny

ppass is a command-line password manager. It keeps one OpenPGP-encrypted file per
secret under a store directory, one level of folders deep, and keeps its settings
in an INI file with one section per store ("context"). This project models the part
of ppass that turns store files into records and writes them back:

- **Record codec** (`gpg.dfy`, `app.dfy`). `Gpg.Password` is the five-field record.
  `App.GetContent` writes its plaintext body. `Gpg.GpgToPassword` is the line
  classifier that parses the body back, and `Gpg.Decode` is the function it is
  proved equal to. `App.RoundTrip` is the main theorem: under the conditions
  collected in `App.Parsable`, parsing a body that `get_content` wrote gives back
  the fields that went into it.
- **Store scanner** (`passwords.dfy`, `folders.dfy`). `os.walk` and `os.listdir`
  read a snapshot tree (`Fs.Node`). `Passwords.GetList` is the imperative walk
  loop, proved equal to `Passwords.ListPasswords`. `Folders.GetList` lists the
  visible top-level directories.
- **Selection and validation** (`params.dfy`, `ui.dfy`). These model the rules of
  `params.validate*`. Prompts, the editor and the row picker are oracle parameters.
- **Configuration store** (`app_config.dfy`). The settings are the nine
  attributes of `Config`, modelled as a fixed schema (`AppConfig.Field`). The INI
  document is an abstract section → key → text map. This module also holds
  `load`, `save`, `create`, `add_section`, `get_sections`, the command-alias
  resolution of `AliasedGroup.get_command`, and `app.default_path`.
- **Mutation flows** (`app.dfy`). These are the store effects of `insert`,
  `generate`, `edit`, `delete`, the five `modify` commands and the two folder
  commands.
  - They run on `Fs.FileSystem`, a class whose `dirs` and `files` fields the
    methods update in place.
  - gnupg is a symbolic oracle (`Gpg.Keyring`, `Fs.Blob`). Encrypting to a key
    id the keyring does not hold yields nothing. Decrypting a message for a held
    key gives back its plaintext.

Shared helpers model the Python built-ins the source relies on, with their exact
semantics (`text.dfy`, `seqs.dfy`):
- `str.strip` uses the full `isspace` set;
- `str.splitlines` uses all of its line boundaries;
- `str.replace(p, "")` removes every non-overlapping occurrence;
- `startswith`, `endswith`, `in`, `"\n".join`, `str.split("\n")`;
- `posixpath.join` and `basename`;
- code-point string order, and the stable `sorted`.

Behaviour of the code that the model keeps as written:
- `encrypt_to_file` opens its target before encrypting. An identity the keyring
  does not hold therefore leaves an empty file behind.
- The modify and edit commands remove the file first. With such an identity they
  leave the selected file empty: the secret is lost. `App.KeptOrEmptied` states
  exactly this.
- Clearing the comment through the editor (`modify comment` when the editor
  returns nothing) fails inside `get_content` before any file is touched.
- In `validate_folder` the branch "Invalid folder name" cannot be reached: an
  empty name is a prefix of every folder name.

## Model

| member | source | states |
|---|---|---|
| Gpg.ToJson | ppass/modules/gpg.py:35-47 | the JSON form has exactly the keys app, password, username, url and comment, each mapped to its own field |
| Gpg.ToJsonInjective | ppass/modules/gpg.py:41-47 | two records with the same JSON form are the same record: nothing is dropped |
| Gpg.Label | ppass/modules/gpg.py:101 | the label can contain ".gpg" only if the file's basename does |
| Gpg.GpgToPassword | ppass/modules/gpg.py:88-117 | the line loop computes `Decode` of the path and body: its invariant is that the record equals the fold of `Classify` over the lines seen so far |
| Gpg.ConsumeLine | ppass/modules/gpg.py:104-116 | one pass of the loop body: the first line sets the stripped password and clears `first_line`, a later line sets the username, else the url, else is appended to the comment after a newline unless the comment is empty |
| Gpg.ParseStep | ppass/modules/gpg.py:103-116 | each further line is one classification step on the record built so far |
| Gpg.ClassifyLater | ppass/modules/gpg.py:109-116 | a line after the first never touches the label or the password; it sets the username when it starts with the username marker, otherwise the url when it starts with the url marker, otherwise it joins the comment |
| Gpg.ParsedLabel | ppass/modules/gpg.py:101 | the label comes from the path and never from the body |
| Gpg.ParsedPassword | ppass/modules/gpg.py:103-108 | the password is the first line stripped (empty for an empty body), even when it starts with a marker |
| Gpg.ParsedUsername | ppass/modules/gpg.py:109-111 | the username comes from the last non-first line that starts with the username marker: every occurrence of the marker is removed from it and the result is stripped |
| Gpg.ParsedNoUsername | ppass/modules/gpg.py:109-111 | with no such line the username stays empty |
| Gpg.ParsedUrl | ppass/modules/gpg.py:109-114 | the url comes the same way from the last non-first line that starts with the url marker and not with the username marker (the username test comes first) |
| Gpg.ParsedNoUrl | ppass/modules/gpg.py:112-114 | with no url line the url stays empty |
| Gpg.ParsedComment | ppass/modules/gpg.py:115-116 | the comment is the remaining lines joined with "\n", except that blank lines before the first non-blank one are lost |
| Gpg.AppendCommentJoin | ppass/modules/gpg.py:115-116 | appending a line with the "no separator while empty" rule is joining with the leading blanks dropped |
| Gpg.DecryptFile | ppass/modules/gpg.py:66-85 | succeeds exactly for an existing file whose path ends in ".gpg", with the decrypted text; otherwise fails with "does not exist" or "is not a file" in that order |
| Gpg.DecryptToPassword | ppass/modules/gpg.py:120-133 | passes decryption failures through, rejects an empty body with "Decrypted file is empty", and otherwise returns `Decode` of the body |
| Gpg.EncryptData | ppass/modules/gpg.py:136-151 | succeeds exactly when the keyring holds the identity, and the ciphertext then decrypts to the content; otherwise fails with "Invalid identity" |
| Gpg.EncryptToFile | ppass/modules/gpg.py:154-165 | an existing path gives "File already exists" and no change; otherwise the path is written, with the ciphertext or, for an unusable identity, left empty; directories never change |
| Passwords.Walk | ppass/modules/passwords.py:55-58 | the walk is non-empty and starts at the store directory |
| Passwords.WalkDescendsFirst | ppass/modules/passwords.py:55-58 | top-down order: a directory is followed at once by the walk of its first subdirectory in name order, and is the last step exactly when it has no subdirectory |
| Passwords.ScanFiles | ppass/modules/passwords.py:72-85 | the file loop appends exactly the items of the kept files, in order |
| Passwords.FileItemsStep | ppass/modules/passwords.py:72-85 | one more file adds its item exactly when it ends in ".gpg" and its name matches the filter |
| Passwords.GetList | ppass/modules/passwords.py:41-87 | the walk loop computes `ListPasswords`: a missing path or a non-directory fails with the two messages, otherwise the items of every step in walk order |
| Passwords.ListedIff | ppass/modules/passwords.py:55-85 | an item is listed exactly when some walk step contributes it |
| Passwords.FileListedIff | ppass/modules/passwords.py:66-85 | within a directory, an item is listed exactly when it is the item of a file that ends in ".gpg" and whose label contains the filter case-insensitively (the folder name never matters) |
| Passwords.ListedItemShape | ppass/modules/passwords.py:61-85 | a listed item has f_name = f without ".gpg", path = join(root, f) ending in ".gpg", the step's root and root name, and a label that matches the filter |
| Passwords.FileItemsSorted | ppass/modules/passwords.py:58-85 | sorted file names give items in ascending file-name order |
| Passwords.WalkSorted | ppass/modules/passwords.py:55-58 | every walk step reports its subdirectories and files in name order |
| Passwords.WalkDirsSorted | ppass/modules/passwords.py:55-58 | the same holds for the steps of every visited subdirectory |
| Passwords.StepItemsSorted | ppass/modules/passwords.py:57-85 | within every folder the items appear in ascending file-name order |
| Passwords.TopRootName | ppass/modules/passwords.py:61 | the store directory's own root name is empty only when its path is empty or ends in "/"; otherwise it is the whole path |
| Passwords.GitPathHidesTop | ppass/modules/passwords.py:61-65 | a store path containing ".git" and not ending in "/" lists nothing from its top directory |
| Folders.GetList | ppass/modules/folders.py:41-60 | fails with "does not exist" or "is not a valid directory", and succeeds exactly on a directory |
| Folders.GetListSorted | ppass/modules/folders.py:52-53 | the folders come in ascending name order |
| Folders.GetListIff | ppass/modules/folders.py:55-59 | a folder is listed exactly when it is a subdirectory of the path whose name does not start with ".", and its path is join(path, name) |
| Folders.Create | ppass/modules/folders.py:63-75 | a blank name and an existing path are refused with their messages, and otherwise the directory is added; files never change |
| Folders.Delete | ppass/modules/folders.py:78-91 | a blank name, a missing path and a non-directory are refused with their messages and no change; otherwise the directory and everything beneath it are removed |
| Fs.MkdirThenRmtree | ppass/modules/folders.py:63-91 | deleting a folder just created on a path with nothing beneath it restores the tree |
| Fs.FileSystem.Remove | ppass/app.py:362 | os.remove removes exactly an existing file, and fails otherwise with no change |
| Fs.FileSystem.WriteFile | ppass/modules/gpg.py:163-165 | writing a path that is not a directory sets its content and nothing else |
| Fs.FileSystem.Mkdir | ppass/modules/folders.py:73-75 | os.mkdir adds the path exactly when nothing exists there |
| Fs.FileSystem.Rmtree | ppass/modules/folders.py:89-91 | shutil.rmtree removes the directory and everything beneath it |
| Ui.SelectTable | ppass/modules/ui.py:202-221 | an empty table fails, a one-row table gives its row without asking, and otherwise the row picked by the user is returned |
| Ui.EveryRowSelectable | ppass/modules/ui.py:214-221 | every row can be picked |
| Params.Validate | ppass/modules/params.py:38-68 | a non-blank argument is returned stripped; a blank one fails in JSON mode with "Incorrect <message> value", and is otherwise the prompted reply (or the default), refused when blank and returned unstripped; with no default it succeeds exactly when `Accepted` holds, returning `Validated` |
| Params.ValidatePath | ppass/modules/params.py:71-86 | the three cases of `validate` (the stripped argument; "Incorrect <message> value" for a blank one in JSON mode; otherwise the reply as typed, refused when blank), and a validated path that does not exist is created as a directory |
| Params.ValidateIdentity | ppass/modules/params.py:89-109 | in JSON mode a value not among the key ids is rejected; an available id is returned stripped; any returned id is non-empty and available |
| Params.ValidateMultiline | ppass/modules/params.py:112-127 | a blank argument outside JSON mode is replaced by what the editor returns; otherwise the argument is returned stripped |
| Params.ValidatePasswordValue | ppass/modules/params.py:130-148 | a blank argument fails in JSON mode; interactively the two entries must be equal; it succeeds exactly when `PasswordAccepted` holds, and the result is the stripped, non-empty `ValidatedPassword` |
| Params.ValidateFolder | ppass/modules/params.py:151-176 | an empty folder list gives "No folder available"; a single candidate (case-insensitive prefix) is returned in both modes; in JSON mode several give "Multiple folders", and none with a non-empty name gives "Folder <name> does not exist" |
| Params.EmptyNameMatchesAll | ppass/modules/params.py:163 | every folder is a candidate for the empty name |
| Params.ValidateFolderIsCandidate | ppass/modules/params.py:163-176 | any returned name is a candidate's name |
| Params.InvalidFolderNameUnreachable | ppass/modules/params.py:170-171 | "Invalid folder name" is never raised |
| Params.ValidateFolderJson | ppass/modules/params.py:164-171 | in JSON mode validation succeeds exactly when there is exactly one candidate |
| Params.ValidatePassword | ppass/modules/params.py:179-196 | an empty list gives "No password"; a single item is returned in both modes; JSON mode fails on several with "Multiple password items"; the result is one of the items |
| Params.ValidatePasswordReachesAll | ppass/modules/params.py:193-194 | interactively every listed item can be selected |
| AppConfig.KeyInjective | ppass/app.py:45-53 | distinct settings have distinct keys |
| AppConfig.MembersInNameOrder | ppass/appConfig.py:59 | the members are visited in `dir()` order, which is ascending key order |
| AppConfig.AllMembersListed | ppass/app.py:45-53 | every setting is a member |
| AppConfig.AssignRender | ppass/appConfig.py:60-64 | loading a field stores the text verbatim, or `text == 'True'` for the boolean, and changes no other field |
| AppConfig.RenderExtensional | ppass/app.py:45-53 | two settings that render alike are equal |
| AppConfig.Read | ppass/appConfig.py:55-56 | reading fails only on a malformed file, and a missing file reads as an empty document |
| AppConfig.RenderAllHolds | ppass/appConfig.py:91-93 | after the member loop of save, every member's key holds `str(value)` |
| AppConfig.RenderAllKeys | ppass/appConfig.py:91-93 | the loop writes the members' keys and nothing else |
| AppConfig.LoadFieldsComplete | ppass/appConfig.py:59-65 | when every key is present, load succeeds and each field holds its stored text, coerced for the boolean |
| AppConfig.LoadFieldsMissing | ppass/appConfig.py:59-67 | a missing key makes load answer false |
| AppConfig.SavedSectionLoads | ppass/appConfig.py:59-65 | a section holding what save wrote loads back to exactly the saved settings |
| AppConfig.SaveTo | ppass/appConfig.py:83-96 | save keeps the section list as it was read |
| AppConfig.SaveThenLoad | ppass/appConfig.py:83-96 | save followed by load of the same section restores every setting and answers true |
| AppConfig.SaveKeepsOthers | ppass/appConfig.py:89-93 | save leaves every other section as it was read |
| AppConfig.AddSectionTo | ppass/appConfig.py:99-117 | add_section fails with "Section <s> already exists" for a listed section; otherwise the section is appended holding `str(value)` of every member of the item |
| AppConfig.AddSectionThenLoad | ppass/appConfig.py:99-117 | an added section keeps the document well formed and loads back to the item's settings |
| AppConfig.CreateIni | ppass/appConfig.py:69-81 | create can only write the default section, and writes no named section |
| AppConfig.GetSections | ppass/appConfig.py:120-131 | a missing file has no sections, and only a malformed file fails |
| AppConfig.Config.constructor | ppass/app.py:42-53 | a new configuration holds the class defaults |
| AppConfig.Config.SetFromText | ppass/appConfig.py:60-64 | one loop step of load assigns one field by `AssignRender`'s rule |
| AppConfig.Config.Load | ppass/appConfig.py:43-67 | the result and the new settings are `LoadFrom`: a missing or malformed file or an unknown section gives false with no change, and a missing key gives false after the fields before it were assigned |
| AppConfig.Config.Save | ppass/appConfig.py:83-96 | the file becomes `SaveTo` of the current settings, or is left unchanged when the section is missing |
| AppConfig.Config.Create | ppass/appConfig.py:69-81 | only the default section can be created, and then the file holds the current settings |
| AppConfig.WriteMembers | ppass/appConfig.py:112-114 | the member loop adds `str(value)` of every member to the section |
| AppConfig.AddSection | ppass/appConfig.py:99-117 | the file becomes `AddSectionTo`, or is left unchanged on failure |
| AppConfig.GetCommand | ppass/appConfig.py:138-148 | an exact command name wins; any resolved command is a command that starts with the typed name |
| AppConfig.GetCommandPrefix | ppass/appConfig.py:142-148 | with no exact match: no prefix match gives none (and only then), a unique prefix match resolves to it, several fail with "Too many matches: " followed by the matches sorted and joined by ", " |
| AppConfig.DefaultPath | ppass/appConfig.py:179-185 | the default store path ends in ".ppass/" |
| App.GetContent | ppass/app.py:191-209 | the body starts with the password line and ends with a newline (its full line structure is `App.ContentLines`) |
| App.ContentLines | ppass/app.py:204-209 | read back by splitlines, the body is the password line, the username marker line and the url marker line, followed by the comment's lines |
| App.EmptyCommentThreeLines | ppass/app.py:208 | with an empty comment the body is exactly three newline-terminated lines |
| App.RoundTrip | ppass/app.py:191-209 | parsing what get_content wrote with the same markers gives back password, username, url and comment, labelled by the file name, under the conditions of `Parsable` |
| App.ParsedBodyUser | ppass/modules/gpg.py:109-111 | the username marker line of a body gives back the username |
| App.ParsedBodyUrl | ppass/modules/gpg.py:112-114 | the url marker line of a body gives back the url |
| App.CommentLinesOfBody | ppass/modules/gpg.py:109-116 | the header lines of a body are never comment lines, and the comment's lines all are |
| App.DefaultMarkersDistinct | ppass/app.py:47-48 | with the default markers a url line never reads as a username line |
| App.CompleteStore | ppass/app.py:214-216 | a section is offered exactly when its name contains the typed text, ignoring case |
| App.CompleteFolderIff | ppass/app.py:226-231 | a quoted folder name is offered exactly when the name contains the typed text, ignoring case |
| App.InitPath | ppass/app.py:269-271 | without `--new-section`, or with a path other than the default one, the path is kept |
| App.NewSectionPath | ppass/app.py:269-271 | with `--new-section` the default path becomes `<home>/.ppass-<context in lower case>` |
| App.NewFilePath | ppass/app.py:470-471 | a new file's path ends in "<name>.gpg" |
| App.WriteNew | ppass/app.py:468-472 | a new record is written to join(store, folder, name + ".gpg"), refused with "File already exists" when that exists; no existing file is ever overwritten |
| App.InsertPassword | ppass/app.py:486-504 | succeeds exactly when the folder resolves, every value is accepted, the path `<store>/<folder>/<name>.gpg` is free and the identity is held; the result names that path and the validated values, and the only change is the new file holding the encrypted body; a failure leaves every file as it was except possibly a new empty one |
| App.GeneratePassword | ppass/app.py:458-476 | as insert, with the generated password and no password check in the success condition |
| App.CreatedReadsBack | ppass/app.py:470-499 | a created file decrypts and parses back to the values that went into it, when they are `Parsable` |
| App.SelectionListed | ppass/app.py:354-355 | the selected item is one of the listed items |
| App.SelectItem | ppass/app.py:354-355 | selection is validate_password over get_list |
| App.Replace | ppass/app.py:520-521 | after os.remove the "File already exists" guard cannot fire, so an existing file is always written again, and a missing one is a failure with no change |
| App.DeletePassword | ppass/app.py:350-367 | succeeds exactly when the selection succeeds, the deletion is confirmed (or `--yes`, or JSON mode) and the selected path is a file; the selected file, and only it, is removed; a refused confirmation fails with "Password deletion has been cancelled" |
| App.EditPassword | ppass/app.py:510-526 | succeeds exactly when the selection succeeds, the file decrypts, the editor returns text and the identity is held; the file then holds what the editor returned; a cancelled edit changes nothing |
| App.Rebuild | ppass/app.py:552-554 | the rebuilt record replaces the selected file, and nothing else changes |
| App.ModifyUser | ppass/app.py:543-559 | succeeds exactly when the selected file reads as a non-empty record (`Readable`), the new value is accepted and the identity is held; only the username changes, to the validated new value; the other fields are those read from the file |
| App.ModifyUrl | ppass/app.py:566-582 | as modify user, for the url |
| App.ModifyComment | ppass/app.py:589-605 | succeeds exactly when the file is `Readable`, a comment is obtained and the identity is held; only the comment changes; an editor that returns nothing fails before any file is touched |
| App.ModifyPasswordGenerate | ppass/app.py:619-635 | succeeds exactly when the file is `Readable` and the identity is held; only the password changes, to the generated one |
| App.ModifyPasswordInsert | ppass/app.py:642-658 | succeeds exactly when the file is `Readable`, the password is accepted and the identity is held; only the password changes, to the stripped, non-empty validated value |
| App.RewrittenReadsBack | ppass/app.py:552-554 | after a modify, when the rebuilt record is `Parsable`, the file parses back to it: the changed field as written, the others as read |
| App.CreateFolder | ppass/app.py:688-700 | succeeds exactly when the name is accepted and nothing exists at `<store>/<validated name>`; that directory is then added, and files never change |
| App.DeleteFolder | ppass/app.py:706-725 | succeeds exactly when the folder resolves, the deletion is confirmed (or `--yes`, or JSON mode), its name is not blank and its path is a directory; it is then removed with everything beneath it; a failure changes nothing |

## Left out

- Randomness, input and editing are oracle parameters: `utils.generate_password`,
  the prompts (`Prompt.ask`, `IntPrompt.ask`, `ui.confirm`) and `click.edit`.
- Rendering and shell integration are not modelled: `ui.py`, `rjson.py`,
  `xdotool.py`, the clipboard and `webbrowser`. Nor are Click's wiring,
  `handle_error` and process exit.
- `git.py` and the `usegit` commits after each command are not modelled, since
  they are process I/O only. The same goes for `init-git`.
- gnupg is a symbolic oracle, with no OpenPGP. Key listing (`get_identities`) is
  the `Keyring`'s list of key ids.
- The filesystem is two views that the model does not tie together: a snapshot
  tree for `os.walk` and `os.listdir`, and the `FileSystem` class for mutations.
- Symbolic links, permissions, and OS errors other than the existence checks are
  not modelled. The `FileSystem` class has no parent relation between paths.
  Writing a file or making a directory under a missing parent succeeds in the
  model, where `open` and `os.mkdir` raise FileNotFoundError. `os.makedirs` in
  `validate_path` adds only the leaf directory, not its missing ancestors.
- configparser's text format is not modelled: value trimming, `%` interpolation,
  key case-folding, and the inheritance of DEFAULT beyond a lookup fallback. The
  document is an abstract section → key → text map.
- cli_init beyond the new-section path derivation is not modelled. Nor are
  `load_config` and the writing of `.gitattributes` and `.gpg-id`.
- The read-only commands (`list`, `show`, `open`, `user`, `pass`, `clip`,
  `folders list`) are not modelled: they change nothing and only display.
- Gpg.Label: states only that no ".gpg" is introduced. The exact removal is
  `Text.RemoveAll` on the basename, the label's definition.
- Passwords.GetList: that each qualifying file appears exactly once is not
  proved. Listing is proved as membership (`ListedIff`, `FileListedIff`), not
  as a count.
- Text.Lower: ASCII letters only. Python's Unicode case mapping is not
  modelled.
- App.ModifyComment: the failure message of the missing editor text is the
  TypeError text Python raises. It is a modelling choice, not a message ppass
  writes.
