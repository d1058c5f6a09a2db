/**
 * ppass/modules/gpg.py: the decrypted-secret record, its parser
 * (`gpg_to_password`) and the guards around the gnupg calls.
 *
 * gnupg itself is an oracle: encryption to a key the keyring holds yields an
 * OpenPGP message for that key, encryption to any other identity yields
 * nothing (gnupg's empty result), and decryption yields the plaintext of a
 * message addressed to a held key and the empty text otherwise.
 */
module Gpg {
  import opened Wrappers
  import opened Text
  import opened Seqs
  import opened Fs

  /** A decrypted secret: its label and the four fields of the body. */
  datatype Password = Password(app: string, password: string, username: string, url: string, comment: string)

  /** `Password.to_json`: the five fields under their own names, nothing else. */
  function ToJson(p: Password): (j: map<string, string>)
    ensures j.Keys == {"app", "password", "username", "url", "comment"}
    ensures j["app"] == p.app && j["password"] == p.password && j["username"] == p.username
    ensures j["url"] == p.url && j["comment"] == p.comment
  {
    map["app" := p.app, "password" := p.password, "username" := p.username,
        "url" := p.url, "comment" := p.comment]
  }

  /** Two records with the same JSON are the same record. */
  lemma ToJsonInjective(p: Password, q: Password)
    requires ToJson(p) == ToJson(q)
    ensures p == q
  {
    assert ToJson(p)["app"] == ToJson(q)["app"];
  }

  // ---------------------------------------------------------------------------
  // The gnupg oracle
  // ---------------------------------------------------------------------------

  /** The key ids of the secret keys gnupg holds (`gpg.get_identities`). */
  datatype Keyring = Keyring(keyIds: seq<string>)

  function GnupgEncrypt(kr: Keyring, content: string, identity: string): Blob {
    if identity in kr.keyIds then Armored(identity, content) else Empty
  }

  function GnupgDecrypt(kr: Keyring, b: Blob): string {
    match b
    case Armored(recipient, plaintext) => if recipient in kr.keyIds then plaintext else ""
    case _ => ""
  }

  // ---------------------------------------------------------------------------
  // Parsing a decrypted body (gpg_to_password)
  // ---------------------------------------------------------------------------

  /** The record's label: the file's base name with every ".gpg" removed. */
  function Label(filepath: string): (app: string)
    ensures !Contains(app, ".gpg") || Contains(Basename(filepath), ".gpg")
  {
    var base := Basename(filepath);
    if Contains(base, ".gpg") then RemoveAll(base, ".gpg")
    else
      RemoveAllAbsent(base, ".gpg");
      base
  }

  /** One comment line joins the comment, after a `\n` unless the comment is still empty. */
  function AppendComment(comment: string, line: string): string {
    comment + (if comment == "" then "" else "\n") + line
  }

  /** How the loop body of gpg_to_password treats one line. */
  function Classify(p: Password, line: string, first: bool, usernamePrefix: string, urlPrefix: string): Password {
    if first then p.(password := Strip(line))
    else if StartsWith(line, usernamePrefix) then p.(username := Strip(RemoveAll(line, usernamePrefix)))
    else if StartsWith(line, urlPrefix) then p.(url := Strip(RemoveAll(line, urlPrefix)))
    else p.(comment := AppendComment(p.comment, line))
  }

  /** The record after the loop has consumed `lines`, starting from an empty record labelled `app`. */
  function ParseLines(app: string, lines: seq<string>, usernamePrefix: string, urlPrefix: string): Password
    decreases |lines|
  {
    if lines == [] then Password(app, "", "", "", "")
    else
      var n := |lines| - 1;
      Classify(ParseLines(app, lines[..n], usernamePrefix, urlPrefix), lines[n], n == 0, usernamePrefix, urlPrefix)
  }

  /** What gpg_to_password returns for a file path and a decrypted body. */
  function Decode(filepath: string, content: string, usernamePrefix: string, urlPrefix: string): Password {
    ParseLines(Label(filepath), SplitLines(content), usernamePrefix, urlPrefix)
  }

  /** One pass of gpg_to_password's loop body over `line`: the record and the new `first_line`. */
  method ConsumeLine(p: Password, line: string, firstLine: bool, usernamePrefix: string, urlPrefix: string)
    returns (password: Password, stillFirst: bool)
    ensures password == Classify(p, line, firstLine, usernamePrefix, urlPrefix)
    ensures !stillFirst
  {
    password := p;
    stillFirst := firstLine;
    if stillFirst {
      stillFirst := false;
      password := password.(password := Strip(line));
      ClassifyFirst(p, line, usernamePrefix, urlPrefix);
      return;
    }
    if StartsWith(line, usernamePrefix) {
      password := password.(username := Strip(RemoveAll(line, usernamePrefix)));
      ClassifyUser(p, line, usernamePrefix, urlPrefix);
      return;
    }
    if StartsWith(line, urlPrefix) {
      password := password.(url := Strip(RemoveAll(line, urlPrefix)));
      ClassifyUrl(p, line, usernamePrefix, urlPrefix);
      return;
    }
    password := password.(comment := password.comment + (if password.comment == "" then "" else "\n"));
    password := password.(comment := password.comment + line);
    ClassifyComment(p, line, usernamePrefix, urlPrefix);
  }

  /** gpg.gpg_to_password: one pass over the body's lines. */
  method GpgToPassword(filepath: string, content: string, usernamePrefix: string, urlPrefix: string)
    returns (password: Password)
    ensures password == Decode(filepath, content, usernamePrefix, urlPrefix)
  {
    password := Password("", "", "", "", "");
    password := password.(app := Label(filepath));
    var lines := SplitLines(content);
    var firstLine := true;
    var i := 0;
    assert lines[..0] == [];
    while i < |lines|
      invariant 0 <= i <= |lines|
      invariant firstLine <==> i == 0
      invariant password == ParseLines(Label(filepath), lines[..i], usernamePrefix, urlPrefix)
    {
      ParseStep(Label(filepath), lines, i, usernamePrefix, urlPrefix);
      password, firstLine := ConsumeLine(password, lines[i], firstLine, usernamePrefix, urlPrefix);
      i := i + 1;
    }
    assert lines[..i] == lines;
  }

  // ---------------------------------------------------------------------------
  // What the parser promises, field by field
  // ---------------------------------------------------------------------------

  /** Line `k` (not the first) sets the username. */
  predicate IsUserLine(lines: seq<string>, k: int, usernamePrefix: string) {
    1 <= k < |lines| && StartsWith(lines[k], usernamePrefix)
  }

  /** Line `k` (not the first) sets the url: it has the url prefix and not the username prefix. */
  predicate IsUrlLine(lines: seq<string>, k: int, usernamePrefix: string, urlPrefix: string) {
    1 <= k < |lines| && !StartsWith(lines[k], usernamePrefix) && StartsWith(lines[k], urlPrefix)
  }

  /** The lines after the first that are neither username nor url lines. */
  function CommentLines(lines: seq<string>, usernamePrefix: string, urlPrefix: string): seq<string> {
    if lines == [] then [] else Filter(lines[1..], IsCommentLine(usernamePrefix, urlPrefix))
  }

  /** A line after the first that carries neither prefix is a comment line. */
  function IsCommentLine(usernamePrefix: string, urlPrefix: string): string -> bool {
    (l: string) => !StartsWith(l, usernamePrefix) && !StartsWith(l, urlPrefix)
  }

  /** Consuming one more line is one more application of `Classify`. */
  lemma ParseStep(app: string, lines: seq<string>, i: nat, usernamePrefix: string, urlPrefix: string)
    requires i < |lines|
    ensures i == 0 ==>
      ParseLines(app, lines[..i + 1], usernamePrefix, urlPrefix)
      == Classify(ParseLines(app, lines[..i], usernamePrefix, urlPrefix), lines[i], true, usernamePrefix, urlPrefix)
    ensures i > 0 ==>
      ParseLines(app, lines[..i + 1], usernamePrefix, urlPrefix)
      == Classify(ParseLines(app, lines[..i], usernamePrefix, urlPrefix), lines[i], false, usernamePrefix, urlPrefix)
  {
    assert lines[..i + 1][..i] == lines[..i];
  }

  /** The lines from the first non-empty one on. */
  function DropLeadingBlank(lines: seq<string>): (r: seq<string>)
    ensures r == [] || r[0] != ""
    decreases |lines|
  {
    if lines == [] then []
    else if lines[0] == "" then DropLeadingBlank(lines[1..])
    else lines
  }

  /** The label is set from the path and never from the body. */
  lemma ParsedLabel(app: string, lines: seq<string>, usernamePrefix: string, urlPrefix: string)
    ensures ParseLines(app, lines, usernamePrefix, urlPrefix).app == app
    decreases |lines|
  {
    if lines != [] {
      ParsedLabel(app, lines[..|lines| - 1], usernamePrefix, urlPrefix);
    }
  }

  /** The first line, stripped, is the password, whatever it starts with. */
  lemma {:induction false} ParsedPassword(app: string, lines: seq<string>, usernamePrefix: string, urlPrefix: string)
    ensures ParseLines(app, lines, usernamePrefix, urlPrefix).password == if lines == [] then "" else Strip(lines[0])
    decreases |lines|
  {
    if lines != [] {
      var n := |lines| - 1;
      var init := lines[..n];
      var prev := ParseLines(app, init, usernamePrefix, urlPrefix);
      ParseStep(app, lines, n, usernamePrefix, urlPrefix);
      assert lines[..n + 1] == lines;
      if n == 0 {
        ClassifyFirst(prev, lines[n], usernamePrefix, urlPrefix);
      } else {
        ParsedPassword(app, init, usernamePrefix, urlPrefix);
        assert init[0] == lines[0];
        ClassifyLater(prev, lines[n], usernamePrefix, urlPrefix);
      }
    }
  }

  /** The first line sets the password and nothing else. */
  lemma ClassifyFirst(p: Password, line: string, usernamePrefix: string, urlPrefix: string)
    ensures Classify(p, line, true, usernamePrefix, urlPrefix) == p.(password := Strip(line))
  {
  }

  /** A later line with the username prefix sets the username and nothing else. */
  lemma ClassifyUser(p: Password, line: string, usernamePrefix: string, urlPrefix: string)
    requires StartsWith(line, usernamePrefix)
    ensures Classify(p, line, false, usernamePrefix, urlPrefix) == p.(username := Strip(RemoveAll(line, usernamePrefix)))
  {
  }

  /** A later line with the url prefix and not the username prefix sets the url and nothing else. */
  lemma ClassifyUrl(p: Password, line: string, usernamePrefix: string, urlPrefix: string)
    requires !StartsWith(line, usernamePrefix) && StartsWith(line, urlPrefix)
    ensures Classify(p, line, false, usernamePrefix, urlPrefix) == p.(url := Strip(RemoveAll(line, urlPrefix)))
  {
  }

  /** Any other later line is appended to the comment, after a newline unless the comment is empty. */
  lemma ClassifyComment(p: Password, line: string, usernamePrefix: string, urlPrefix: string)
    requires !StartsWith(line, usernamePrefix) && !StartsWith(line, urlPrefix)
    ensures Classify(p, line, false, usernamePrefix, urlPrefix)
         == p.(comment := p.comment + (if p.comment == "" then "" else "\n") + line)
  {
  }

  /** A later line never touches the password or the label. */
  lemma ClassifyLater(p: Password, line: string, usernamePrefix: string, urlPrefix: string)
    ensures Classify(p, line, false, usernamePrefix, urlPrefix).password == p.password
    ensures Classify(p, line, false, usernamePrefix, urlPrefix).app == p.app
    ensures Classify(p, line, false, usernamePrefix, urlPrefix).username
         == if StartsWith(line, usernamePrefix) then Strip(RemoveAll(line, usernamePrefix)) else p.username
    ensures Classify(p, line, false, usernamePrefix, urlPrefix).url
         == if !StartsWith(line, usernamePrefix) && StartsWith(line, urlPrefix)
            then Strip(RemoveAll(line, urlPrefix)) else p.url
    ensures Classify(p, line, false, usernamePrefix, urlPrefix).comment
         == if IsCommentLine(usernamePrefix, urlPrefix)(line) then AppendComment(p.comment, line) else p.comment
  {
  }

  /** The username comes from the LAST username line, with every occurrence of the prefix removed. */
  lemma {:induction false} ParsedUsername(app: string, lines: seq<string>, usernamePrefix: string, urlPrefix: string, k: int)
    requires IsUserLine(lines, k, usernamePrefix)
    requires forall j :: k < j < |lines| ==> !StartsWith(lines[j], usernamePrefix)
    ensures ParseLines(app, lines, usernamePrefix, urlPrefix).username == Strip(RemoveAll(lines[k], usernamePrefix))
    decreases |lines|
  {
    var n := |lines| - 1;
    var init := lines[..n];
    var prev := ParseLines(app, init, usernamePrefix, urlPrefix);
    ParseStep(app, lines, n, usernamePrefix, urlPrefix);
    assert lines[..n + 1] == lines;
    ClassifyLater(prev, lines[n], usernamePrefix, urlPrefix);
    var cur := ParseLines(app, lines, usernamePrefix, urlPrefix);
    assert cur == Classify(prev, lines[n], false, usernamePrefix, urlPrefix);
    if k < n {
      assert !StartsWith(lines[n], usernamePrefix);
      assert IsUserLine(init, k, usernamePrefix) && init[k] == lines[k];
      forall j | k < j < |init| ensures !StartsWith(init[j], usernamePrefix) {
        assert init[j] == lines[j];
      }
      ParsedUsername(app, init, usernamePrefix, urlPrefix, k);
      assert cur.username == prev.username;
    } else {
      assert k == n;
      assert StartsWith(lines[n], usernamePrefix);
      assert cur.username == Strip(RemoveAll(lines[n], usernamePrefix));
    }
  }

  /** Without a username line the username stays empty. */
  lemma {:induction false} ParsedNoUsername(app: string, lines: seq<string>, usernamePrefix: string, urlPrefix: string)
    requires forall j :: 1 <= j < |lines| ==> !StartsWith(lines[j], usernamePrefix)
    ensures ParseLines(app, lines, usernamePrefix, urlPrefix).username == ""
    decreases |lines|
  {
    if lines != [] {
      var n := |lines| - 1;
      ParsedNoUsername(app, lines[..n], usernamePrefix, urlPrefix);
    }
  }

  /** The url comes from the LAST url line; a line with both prefixes is a username line. */
  lemma {:induction false} ParsedUrl(app: string, lines: seq<string>, usernamePrefix: string, urlPrefix: string, k: int)
    requires IsUrlLine(lines, k, usernamePrefix, urlPrefix)
    requires forall j :: k < j < |lines| ==> !IsUrlLine(lines, j, usernamePrefix, urlPrefix)
    ensures ParseLines(app, lines, usernamePrefix, urlPrefix).url == Strip(RemoveAll(lines[k], urlPrefix))
    decreases |lines|
  {
    var n := |lines| - 1;
    var init := lines[..n];
    var prev := ParseLines(app, init, usernamePrefix, urlPrefix);
    ParseStep(app, lines, n, usernamePrefix, urlPrefix);
    assert lines[..n + 1] == lines;
    ClassifyLater(prev, lines[n], usernamePrefix, urlPrefix);
    var cur := ParseLines(app, lines, usernamePrefix, urlPrefix);
    assert cur == Classify(prev, lines[n], false, usernamePrefix, urlPrefix);
    if k < n {
      assert !IsUrlLine(lines, n, usernamePrefix, urlPrefix);
      assert IsUrlLine(init, k, usernamePrefix, urlPrefix) && init[k] == lines[k];
      forall j | k < j < |init| ensures !IsUrlLine(init, j, usernamePrefix, urlPrefix) {
        assert !IsUrlLine(lines, j, usernamePrefix, urlPrefix);
      }
      ParsedUrl(app, init, usernamePrefix, urlPrefix, k);
      assert cur.url == prev.url;
    } else {
      assert k == n;
      assert !StartsWith(lines[n], usernamePrefix) && StartsWith(lines[n], urlPrefix);
      assert cur.url == Strip(RemoveAll(lines[n], urlPrefix));
    }
  }

  /** Without a url line the url stays empty. */
  lemma {:induction false} ParsedNoUrl(app: string, lines: seq<string>, usernamePrefix: string, urlPrefix: string)
    requires forall j :: 1 <= j < |lines| ==> !IsUrlLine(lines, j, usernamePrefix, urlPrefix)
    ensures ParseLines(app, lines, usernamePrefix, urlPrefix).url == ""
    decreases |lines|
  {
    if lines != [] {
      var n := |lines| - 1;
      var init := lines[..n];
      forall j | 1 <= j < |init| ensures !IsUrlLine(init, j, usernamePrefix, urlPrefix) {
        assert !IsUrlLine(lines, j, usernamePrefix, urlPrefix);
      }
      ParsedNoUrl(app, init, usernamePrefix, urlPrefix);
      ParseStep(app, lines, n, usernamePrefix, urlPrefix);
      assert lines[..n + 1] == lines;
      assert !IsUrlLine(lines, n, usernamePrefix, urlPrefix);
    }
  }

  lemma {:induction false} DropLeadingBlankSnoc(lines: seq<string>, x: string)
    ensures DropLeadingBlank(lines + [x]) ==
      if DropLeadingBlank(lines) == [] then (if x == "" then [] else [x]) else DropLeadingBlank(lines) + [x]
    decreases |lines|
  {
    if lines != [] {
      assert (lines + [x])[1..] == lines[1..] + [x];
      DropLeadingBlankSnoc(lines[1..], x);
    }
  }

  /** Appending a line to the comment is joining one more line after the leading blanks are dropped. */
  lemma AppendCommentJoin(lines: seq<string>, x: string)
    ensures Join("\n", DropLeadingBlank(lines + [x])) == AppendComment(Join("\n", DropLeadingBlank(lines)), x)
  {
    var ds := DropLeadingBlank(lines);
    DropLeadingBlankSnoc(lines, x);
    if ds != [] {
      JoinSnoc("\n", ds, x);
      JoinStartsWithFirst("\n", ds);
    }
  }

  /**
   * The comment is the other lines joined with `\n`, except that blank lines
   * before the first non-blank one are lost; later blank lines are kept.
   */
  lemma {:induction false} ParsedComment(app: string, lines: seq<string>, usernamePrefix: string, urlPrefix: string)
    ensures ParseLines(app, lines, usernamePrefix, urlPrefix).comment
         == Join("\n", DropLeadingBlank(CommentLines(lines, usernamePrefix, urlPrefix)))
    decreases |lines|
  {
    if |lines| > 1 {
      var n := |lines| - 1;
      var init, x := lines[..n], lines[n];
      var before := ParseLines(app, init, usernamePrefix, urlPrefix).comment;
      var cl := CommentLines(init, usernamePrefix, urlPrefix);
      ParsedComment(app, init, usernamePrefix, urlPrefix);
      assert before == Join("\n", DropLeadingBlank(cl));
      CommentStep(app, lines, usernamePrefix, urlPrefix);
      CommentLinesSnoc(lines, usernamePrefix, urlPrefix);
      if IsCommentLine(usernamePrefix, urlPrefix)(x) {
        assert CommentLines(lines, usernamePrefix, urlPrefix) == cl + [x];
        AppendCommentJoin(cl, x);
      } else {
        assert CommentLines(lines, usernamePrefix, urlPrefix) == cl;
      }
    } else if |lines| == 1 {
      ParseStep(app, lines, 0, usernamePrefix, urlPrefix);
      assert lines[..1] == lines && lines[..0] == [];
      assert CommentLines(lines, usernamePrefix, urlPrefix) == [];
    }
  }

  /** The last line, if it is a comment line, is appended to the comment; otherwise the comment is unchanged. */
  lemma CommentStep(app: string, lines: seq<string>, usernamePrefix: string, urlPrefix: string)
    requires |lines| > 1
    ensures ParseLines(app, lines, usernamePrefix, urlPrefix).comment ==
      var n := |lines| - 1;
      var before := ParseLines(app, lines[..n], usernamePrefix, urlPrefix).comment;
      if IsCommentLine(usernamePrefix, urlPrefix)(lines[n]) then AppendComment(before, lines[n]) else before
  {
    var n := |lines| - 1;
    ParseStep(app, lines, n, usernamePrefix, urlPrefix);
    assert lines[..n + 1] == lines;
  }

  lemma CommentLinesSnoc(lines: seq<string>, usernamePrefix: string, urlPrefix: string)
    requires |lines| > 1
    ensures CommentLines(lines, usernamePrefix, urlPrefix) ==
      var n := |lines| - 1;
      CommentLines(lines[..n], usernamePrefix, urlPrefix) +
        (if IsCommentLine(usernamePrefix, urlPrefix)(lines[n]) then [lines[n]] else [])
  {
    var n := |lines| - 1;
    var keep := IsCommentLine(usernamePrefix, urlPrefix);
    assert lines[1..] == lines[..n][1..] + [lines[n]];
    FilterConcat(lines[..n][1..], [lines[n]], keep);
    assert [lines[n]][1..] == [];
  }

  // ---------------------------------------------------------------------------
  // Decryption and encryption guards
  // ---------------------------------------------------------------------------

  /** gpg.decrypt_file: the path must exist, be a file and end in ".gpg". */
  function DecryptFile(fs: FileSystem, kr: Keyring, filepath: string): (r: Result<string>)
    reads fs
    ensures r.Success? <==> filepath in fs.files && EndsWith(filepath, ".gpg")
    ensures r.Success? ==> r.value == GnupgDecrypt(kr, fs.files[filepath])
    ensures !fs.Exists(filepath) ==> r == Failure(filepath + " does not exist")
    ensures filepath in fs.dirs && filepath !in fs.files ==> r == Failure(filepath + " is not a file")
  {
    if !fs.Exists(filepath) then Failure(filepath + " does not exist")
    else if filepath !in fs.files then Failure(filepath + " is not a file")
    else if !EndsWith(filepath, ".gpg") then Failure(filepath + " is not a gpg file")
    else Success(GnupgDecrypt(kr, fs.files[filepath]))
  }

  /** gpg.decrypt_to_password: decrypt, refuse an empty body, parse. */
  method DecryptToPassword(fs: FileSystem, kr: Keyring, filepath: string, usernamePrefix: string, urlPrefix: string)
    returns (r: Result<Password>)
    ensures DecryptFile(fs, kr, filepath).Failure? ==> r == Failure(DecryptFile(fs, kr, filepath).error)
    ensures DecryptFile(fs, kr, filepath) == Success("") ==> r == Failure("Decrypted file is empty")
    ensures r.Success? <==> DecryptFile(fs, kr, filepath).Success? && DecryptFile(fs, kr, filepath).value != ""
    ensures r.Success? ==> r.value == Decode(filepath, DecryptFile(fs, kr, filepath).value, usernamePrefix, urlPrefix)
  {
    var content :- DecryptFile(fs, kr, filepath);
    if content == "" {
      return Failure("Decrypted file is empty");
    }
    var password := GpgToPassword(filepath, content, usernamePrefix, urlPrefix);
    r := Success(password);
  }

  /** gpg.encrypt_data: an empty ciphertext means the identity is not usable. */
  function EncryptData(kr: Keyring, content: string, identity: string): (r: Result<Blob>)
    ensures r.Success? <==> identity in kr.keyIds
    ensures r.Failure? ==> r.error == "Invalid identity"
    ensures r.Success? ==> r.value != Empty && GnupgDecrypt(kr, r.value) == content
  {
    var encrypted := GnupgEncrypt(kr, content, identity);
    if encrypted == Empty then Failure("Invalid identity") else Success(encrypted)
  }

  /** What the target file holds after encrypt_to_file reached its write. */
  function WrittenBlob(kr: Keyring, content: string, identity: string): Blob {
    match EncryptData(kr, content, identity)
    case Success(b) => b
    case Failure(_) => Empty
  }

  /**
   * gpg.encrypt_to_file: refuses an existing path; the file is opened (and so
   * created empty) before encryption, so an unusable identity leaves an empty file.
   */
  method EncryptToFile(fs: FileSystem, kr: Keyring, content: string, identity: string, filepath: string)
    returns (r: Result<()>)
    requires fs.Valid()
    modifies fs
    ensures fs.Valid() && fs.dirs == old(fs.dirs)
    ensures old(fs.Exists(filepath)) ==> r == Failure("File already exists") && fs.files == old(fs.files)
    ensures !old(fs.Exists(filepath)) ==>
      && fs.files == old(fs.files)[filepath := WrittenBlob(kr, content, identity)]
      && (r.Success? <==> identity in kr.keyIds)
      && (r.Failure? ==> r.error == "Invalid identity")
  {
    if fs.Exists(filepath) {
      return Failure("File already exists");
    }
    fs.WriteFile(filepath, Empty);
    var encrypted := EncryptData(kr, content, identity);
    if encrypted.Failure? {
      return Failure(encrypted.error);
    }
    fs.WriteFile(filepath, encrypted.value);
    r := Success(());
  }
}
