/**
 * ppass/appConfig.py: the configuration store behind `Config` (the field list
 * of ppass/app.py), command-name aliases, and the default store path.
 *
 * The rc file is an abstract configparser document: the listed sections in
 * order, the DEFAULT section, and each listed section's key/value map. The
 * configuration object's attributes are a fixed schema; `dir()` reports them
 * in name order, which is the order `load` assigns them in.
 */
module AppConfig {
  import opened Wrappers
  import opened Text
  import opened Seqs

  // ---------------------------------------------------------------------------
  // The schema
  // ---------------------------------------------------------------------------

  datatype Field = GitBranch | GitMail | GitRepo | GitUser | Identity | Path | SepUrl | SepUsername | UseGit

  /** The attribute name, which is also the key in the rc file. */
  function Key(f: Field): string {
    match f
    case GitBranch => "gitbranch"
    case GitMail => "gitmail"
    case GitRepo => "gitrepo"
    case GitUser => "gituser"
    case Identity => "identity"
    case Path => "path"
    case SepUrl => "sep_url"
    case SepUsername => "sep_username"
    case UseGit => "usegit"
  }

  /** The data attributes as `dir()` lists them. */
  const Members: seq<Field> := [GitBranch, GitMail, GitRepo, GitUser, Identity, Path, SepUrl, SepUsername, UseGit]

  lemma KeyInjective(f: Field, g: Field)
    requires Key(f) == Key(g)
    ensures f == g
  {
  }

  /** `dir()` order is name order. */
  lemma MembersInNameOrder()
    ensures SortedBy(Members, Key)
  {
    NeighboursInNameOrder();
    forall i, j | 0 <= i < j < |Members| ensures Le(Key(Members[i]), Key(Members[j])) {
      ChainLe(i, j);
    }
  }

  lemma NeighboursInNameOrder()
    ensures forall k :: 0 <= k < |Members| - 1 ==> Le(Key(Members[k]), Key(Members[k + 1]))
  {
    forall k | 0 <= k < |Members| - 1 ensures Le(Key(Members[k]), Key(Members[k + 1])) {
      NeighbourInNameOrder(k);
    }
  }

  /** Members `k` and `k + 1` are in name order. */
  lemma NeighbourInNameOrder(k: nat)
    requires k < |Members| - 1
    ensures Le(Key(Members[k]), Key(Members[k + 1]))
  {
    if k < 3 {
      GitNeighbour(k);
    } else if k == 6 {
      var a, b := Key(Members[k]), Key(Members[k + 1]);
      assert a == "sep_url" && b == "sep_username";
      LeAt(a, b, 5);
    } else {
      var a, b := Key(Members[k]), Key(Members[k + 1]);
      assert a[0] < b[0];
      LeAt(a, b, 0);
    }
  }

  /** The four "git" names first differ at their fourth letter. */
  lemma GitNeighbour(k: nat)
    requires k < 3
    ensures Le(Key(Members[k]), Key(Members[k + 1]))
  {
    var a, b := Key(Members[k]), Key(Members[k + 1]);
    assert a[..3] == "git" == b[..3];
    assert a[3] < b[3];
    LeAt(a, b, 3);
  }

  /** Every attribute is listed. */
  lemma AllMembersListed(f: Field)
    ensures f in Members
  {
    match f
    case GitBranch => assert Members[0] == f;
    case GitMail => assert Members[1] == f;
    case GitRepo => assert Members[2] == f;
    case GitUser => assert Members[3] == f;
    case Identity => assert Members[4] == f;
    case Path => assert Members[5] == f;
    case SepUrl => assert Members[6] == f;
    case SepUsername => assert Members[7] == f;
    case UseGit => assert Members[8] == f;
  }

  lemma ChainLe(i: nat, j: nat)
    requires i < j < |Members|
    requires forall k :: 0 <= k < |Members| - 1 ==> Le(Key(Members[k]), Key(Members[k + 1]))
    ensures Le(Key(Members[i]), Key(Members[j]))
    decreases j - i
  {
    if i + 1 < j {
      ChainLe(i + 1, j);
      LeTrans(Key(Members[i]), Key(Members[i + 1]), Key(Members[j]));
    }
  }

  /** The values of the attributes. */
  datatype Settings = Settings(
    gitBranch: string, gitMail: string, gitRepo: string, gitUser: string, identity: string,
    path: string, sepUrl: string, sepUsername: string, useGit: bool)

  /** `Config`'s class attributes (ppass/app.py). */
  function Defaults(): Settings {
    Settings("main", "", "", "", "", "", "\U{2514}\U{2500} URL      :: ", "\U{2514}\U{2500} USERNAME :: ", false)
  }

  /** `str(value)`: a boolean becomes "True" or "False". */
  function Render(s: Settings, f: Field): string {
    match f
    case GitBranch => s.gitBranch
    case GitMail => s.gitMail
    case GitRepo => s.gitRepo
    case GitUser => s.gitUser
    case Identity => s.identity
    case Path => s.path
    case SepUrl => s.sepUrl
    case SepUsername => s.sepUsername
    case UseGit => if s.useGit then "True" else "False"
  }

  /** What `load` stores for stored text `t`: the text itself, or `t == 'True'` for the boolean. */
  function Assign(s: Settings, f: Field, t: string): Settings {
    match f
    case GitBranch => s.(gitBranch := t)
    case GitMail => s.(gitMail := t)
    case GitRepo => s.(gitRepo := t)
    case GitUser => s.(gitUser := t)
    case Identity => s.(identity := t)
    case Path => s.(path := t)
    case SepUrl => s.(sepUrl := t)
    case SepUsername => s.(sepUsername := t)
    case UseGit => s.(useGit := t == "True")
  }

  /** How a stored text reads back through `Render`. */
  function Coerce(f: Field, t: string): string {
    if f == UseGit then (if t == "True" then "True" else "False") else t
  }

  /** Assigning a field changes what that field renders to, and nothing else. */
  lemma AssignRender(s: Settings, f: Field, t: string, g: Field)
    ensures Render(Assign(s, f, t), g) == if f == g then Coerce(f, t) else Render(s, g)
  {
  }

  /** Settings are determined by what they render to. */
  lemma RenderExtensional(a: Settings, b: Settings)
    requires forall f: Field :: Render(a, f) == Render(b, f)
    ensures a == b
  {
    assert Render(a, GitBranch) == Render(b, GitBranch) && Render(a, GitMail) == Render(b, GitMail);
    assert Render(a, GitRepo) == Render(b, GitRepo) && Render(a, GitUser) == Render(b, GitUser);
    assert Render(a, Identity) == Render(b, Identity) && Render(a, Path) == Render(b, Path);
    assert Render(a, SepUrl) == Render(b, SepUrl) && Render(a, SepUsername) == Render(b, SepUsername);
    assert Render(a, UseGit) == Render(b, UseGit);
  }

  // ---------------------------------------------------------------------------
  // The rc file
  // ---------------------------------------------------------------------------

  const DefaultSection: string := "DEFAULT"

  /** A configparser document: listed sections in order, DEFAULT's keys, each listed section's keys. */
  datatype Ini = Ini(sections: seq<string>, defaults: map<string, string>, table: map<string, map<string, string>>)

  /** The listed sections are distinct, are not DEFAULT, and are exactly the sections with a key map. */
  predicate WellFormed(ini: Ini) {
    && (forall i, j :: 0 <= i < j < |ini.sections| ==> ini.sections[i] != ini.sections[j])
    && DefaultSection !in ini.sections
    && ini.table.Keys == set s | s in ini.sections
  }

  function EmptyIni(): (ini: Ini)
    ensures WellFormed(ini)
  {
    Ini([], map[], map[])
  }

  /** The keys a section offers: its own, falling back to DEFAULT's. */
  function View(ini: Ini, section: string): map<string, string> {
    if section in ini.table then ini.defaults + ini.table[section] else ini.defaults
  }

  /** What is at the rc path: nothing, text configparser refuses, or a parsed document. */
  datatype RcFile = Missing | Malformed | Parsed(ini: Ini)

  /** `cfg.read(path)`: a missing file reads as an empty document. */
  function Read(rc: RcFile): (r: Result<Ini>)
    ensures r.Success? <==> !rc.Malformed?
    ensures rc.Missing? ==> r == Success(EmptyIni())
  {
    match rc
    case Missing => Success(EmptyIni())
    case Malformed => Failure("File contains parsing errors")
    case Parsed(ini) => Success(ini)
  }

  /** The rc file on disk. */
  class ConfigFile {
    var content: RcFile

    constructor (content: RcFile)
      ensures this.content == content
    {
      this.content := content;
    }
  }

  /** The key/value pairs `str(getattr(item, member))` for the members `fields`, assigned in order. */
  function RenderAll(s: Settings, fields: seq<Field>): map<string, string>
    decreases |fields|
  {
    if fields == [] then map[]
    else
      var n := |fields| - 1;
      RenderAll(s, fields[..n])[Key(fields[n]) := Render(s, fields[n])]
  }

  /** Rendering one more member is one more assignment. */
  lemma RenderAllStep(s: Settings, fields: seq<Field>, i: nat)
    requires i < |fields|
    ensures RenderAll(s, fields[..i + 1]) == RenderAll(s, fields[..i])[Key(fields[i]) := Render(s, fields[i])]
  {
    assert fields[..i + 1][..i] == fields[..i];
  }

  /** Updating the right operand of a merge is updating the merge. */
  lemma MergeUpdate(a: map<string, string>, b: map<string, string>, k: string, v: string)
    ensures a + b[k := v] == (a + b)[k := v]
  {
  }

  /** Every member's key holds its rendered value. */
  lemma {:induction false} RenderAllHolds(s: Settings, fields: seq<Field>, f: Field)
    requires f in fields
    ensures Key(f) in RenderAll(s, fields) && RenderAll(s, fields)[Key(f)] == Render(s, f)
    decreases |fields|
  {
    var n := |fields| - 1;
    if fields[n] != f {
      assert f in fields[..n];
      RenderAllHolds(s, fields[..n], f);
      if Key(fields[n]) == Key(f) {
        KeyInjective(fields[n], f);
      }
    }
  }

  /** The members' keys, and no others. */
  lemma {:induction false} RenderAllKeys(s: Settings, fields: seq<Field>)
    ensures forall k :: k in RenderAll(s, fields) <==> exists f :: f in fields && Key(f) == k
    decreases |fields|
  {
    if fields != [] {
      var n := |fields| - 1;
      RenderAllKeys(s, fields[..n]);
      forall k | (exists f :: f in fields && Key(f) == k) ensures k in RenderAll(s, fields) {
        var f :| f in fields && Key(f) == k;
        if f != fields[n] {
          assert f in fields[..n];
        }
      }
    }
  }

  /**
   * The loop of `load` over the members `fields`: each is assigned from the
   * section's view in turn; a missing key stops it with `false`, keeping the
   * assignments already made.
   */
  function LoadFields(s: Settings, view: map<string, string>, fields: seq<Field>): (Settings, bool)
    decreases |fields|
  {
    if fields == [] then (s, true)
    else if Key(fields[0]) !in view then (s, false)
    else LoadFields(Assign(s, fields[0], view[Key(fields[0])]), view, fields[1..])
  }

  /** AppConfig.load, from the attributes' values `s` and what is at the rc path. */
  function LoadFrom(s: Settings, rc: RcFile, section: string): (Settings, bool) {
    match rc
    case Missing => (s, false)
    case Malformed => (s, false)
    case Parsed(ini) =>
      if section !in ini.sections && section != DefaultSection then (s, false)
      else LoadFields(s, View(ini, section), Members)
  }

  /** What a field renders to after a complete load of `fields`. */
  function LoadedRender(s: Settings, view: map<string, string>, fields: seq<Field>, g: Field): string
    requires g in fields ==> Key(g) in view
  {
    if g in fields then Coerce(g, view[Key(g)]) else Render(s, g)
  }

  /** A load that finds every key assigns every member from it, and reports success. */
  lemma {:induction false} LoadFieldsComplete(s: Settings, view: map<string, string>, fields: seq<Field>)
    requires forall f :: f in fields ==> Key(f) in view
    ensures LoadFields(s, view, fields).1
    ensures forall g: Field :: Render(LoadFields(s, view, fields).0, g) == LoadedRender(s, view, fields, g)
    decreases |fields|
  {
    if fields != [] {
      var s1 := Assign(s, fields[0], view[Key(fields[0])]);
      LoadFieldsComplete(s1, view, fields[1..]);
      forall g: Field ensures Render(LoadFields(s, view, fields).0, g) == LoadedRender(s, view, fields, g) {
        AssignRender(s, fields[0], view[Key(fields[0])], g);
        assert g in fields <==> g == fields[0] || g in fields[1..];
      }
    }
  }

  /** A key that is missing makes `load` report failure. */
  lemma {:induction false} LoadFieldsMissing(s: Settings, view: map<string, string>, fields: seq<Field>, f: Field)
    requires f in fields && Key(f) !in view
    ensures !LoadFields(s, view, fields).1
    decreases |fields|
  {
    if fields[0] != f && Key(fields[0]) in view {
      assert f in fields[1..];
      LoadFieldsMissing(Assign(s, fields[0], view[Key(fields[0])]), view, fields[1..], f);
    }
  }

  /** Loading a section whose keys were written from `s` gives back `s`, whatever the attributes held before. */
  lemma SavedSectionLoads(s0: Settings, base: map<string, string>, s: Settings)
    ensures LoadFields(s0, base + RenderAll(s, Members), Members) == (s, true)
  {
    var view := base + RenderAll(s, Members);
    SavedViewHolds(base, s);
    LoadFieldsComplete(s0, view, Members);
    var loaded := LoadFields(s0, view, Members).0;
    forall g: Field ensures Render(loaded, g) == Render(s, g) {
      AllMembersListed(g);
      assert LoadedRender(s0, view, Members, g) == Coerce(g, Render(s, g));
      CoerceRender(s, g);
    }
    RenderExtensional(loaded, s);
  }

  /** Every member's key in a written section holds that member's rendered value. */
  lemma SavedViewHolds(base: map<string, string>, s: Settings)
    ensures forall f :: f in Members ==>
      Key(f) in base + RenderAll(s, Members) && (base + RenderAll(s, Members))[Key(f)] == Render(s, f)
  {
    forall f | f in Members
      ensures Key(f) in base + RenderAll(s, Members) && (base + RenderAll(s, Members))[Key(f)] == Render(s, f)
    {
      RenderAllHolds(s, Members, f);
    }
  }

  /** A rendered value reads back as itself. */
  lemma CoerceRender(s: Settings, g: Field)
    ensures Coerce(g, Render(s, g)) == Render(s, g)
  {
  }

  /** The document `save` writes: the members rendered into the section, or KeyError for an unknown section. */
  function SaveTo(rc: RcFile, section: string, s: Settings): (r: Result<Ini>)
    ensures r.Success? ==> Read(rc).Success? && r.value.sections == Read(rc).value.sections
  {
    match Read(rc)
    case Failure(e) => Failure(e)
    case Success(ini) =>
      if section == DefaultSection then Success(ini.(defaults := ini.defaults + RenderAll(s, Members)))
      else if section !in ini.table then Failure("'" + section + "'")
      else Success(ini.(table := ini.table[section := ini.table[section] + RenderAll(s, Members)]))
  }

  /** After `save`, `load` of the same section restores every attribute (on the abstract document). */
  lemma SaveThenLoad(rc: RcFile, section: string, s: Settings, s0: Settings)
    requires SaveTo(rc, section, s).Success?
    requires WellFormed(Read(rc).value)
    ensures LoadFrom(s0, Parsed(SaveTo(rc, section, s).value), section) == (s, true)
  {
    var ini := Read(rc).value;
    var out := SaveTo(rc, section, s).value;
    if section == DefaultSection {
      SavedSectionLoads(s0, ini.defaults, s);
    } else {
      assert View(out, section) == ini.defaults + (ini.table[section] + RenderAll(s, Members));
      assert View(out, section) == (ini.defaults + ini.table[section]) + RenderAll(s, Members);
      SavedSectionLoads(s0, ini.defaults + ini.table[section], s);
    }
  }

  /** `save` leaves the other sections as they were read. */
  lemma SaveKeepsOthers(rc: RcFile, section: string, s: Settings, other: string)
    requires SaveTo(rc, section, s).Success? && other != section
    ensures var ini := Read(rc).value; var out := SaveTo(rc, section, s).value;
      (other in ini.table <==> other in out.table) && (other in ini.table ==> out.table[other] == ini.table[other])
  {
  }

  /** The document `add_section` writes. */
  function AddSectionTo(rc: RcFile, section: string, s: Settings): (r: Result<Ini>)
    ensures r.Success? ==> Read(rc).Success? && section !in Read(rc).value.sections && section != DefaultSection
    ensures r.Success? ==> r.value.sections == Read(rc).value.sections + [section]
    ensures r.Success? ==> section in r.value.table && r.value.table[section] == RenderAll(s, Members)
    ensures Read(rc).Success? && section in Read(rc).value.sections ==> r == Failure("Section <" + section + "> already exists")
  {
    match Read(rc)
    case Failure(e) => Failure(e)
    case Success(ini) =>
      if section in ini.sections then Failure("Section <" + section + "> already exists")
      else if section == DefaultSection then Failure("Invalid section name: 'DEFAULT'")
      else Success(ini.(sections := ini.sections + [section], table := ini.table[section := RenderAll(s, Members)]))
  }

  /** An added section keeps the document well formed, and then loads back the added attributes. */
  lemma AddSectionThenLoad(rc: RcFile, section: string, s: Settings, s0: Settings)
    requires AddSectionTo(rc, section, s).Success?
    requires WellFormed(Read(rc).value)
    ensures WellFormed(AddSectionTo(rc, section, s).value)
    ensures LoadFrom(s0, Parsed(AddSectionTo(rc, section, s).value), section) == (s, true)
  {
    var ini := Read(rc).value;
    var out := AddSectionTo(rc, section, s).value;
    AppendedSectionWellFormed(ini, section, RenderAll(s, Members));
    assert out == ini.(sections := ini.sections + [section], table := ini.table[section := RenderAll(s, Members)]);
    assert section in out.sections;
    assert View(out, section) == ini.defaults + RenderAll(s, Members);
    SavedSectionLoads(s0, ini.defaults, s);
  }

  /** Listing a new section, other than DEFAULT, with its key map keeps a document well formed. */
  lemma AppendedSectionWellFormed(ini: Ini, section: string, values: map<string, string>)
    requires WellFormed(ini) && section !in ini.sections && section != DefaultSection
    ensures WellFormed(ini.(sections := ini.sections + [section], table := ini.table[section := values]))
  {
    var sections := ini.sections + [section];
    forall i, j | 0 <= i < j < |sections| ensures sections[i] != sections[j] {
      if j == |ini.sections| {
        assert sections[i] == ini.sections[i];
      } else {
        assert sections[i] == ini.sections[i] && sections[j] == ini.sections[j];
      }
    }
    assert (set x | x in sections) == (set x | x in ini.sections) + {section};
  }

  /** The document `create` writes: a fresh one, where only DEFAULT can be addressed. */
  function CreateIni(section: string, s: Settings): (r: Result<Ini>)
    ensures r.Success? <==> section == DefaultSection
    ensures r.Success? ==> WellFormed(r.value) && r.value.sections == []
  {
    if section == DefaultSection then Success(EmptyIni().(defaults := RenderAll(s, Members)))
    else Failure("'" + section + "'")
  }

  /** AppConfig.get_sections. */
  function GetSections(cf: ConfigFile): (r: Result<seq<string>>)
    reads cf
    ensures cf.content.Missing? ==> r == Success([])
    ensures r.Success? <==> !cf.content.Malformed?
  {
    match Read(cf.content)
    case Failure(e) => Failure(e)
    case Success(ini) => Success(ini.sections)
  }

  // ---------------------------------------------------------------------------
  // The configuration object
  // ---------------------------------------------------------------------------

  /** An `AppConfig` with `Config`'s attributes. */
  class Config {
    var gitBranch: string
    var gitMail: string
    var gitRepo: string
    var gitUser: string
    var identity: string
    var path: string
    var sepUrl: string
    var sepUsername: string
    var useGit: bool

    function Values(): Settings
      reads this
    {
      Settings(gitBranch, gitMail, gitRepo, gitUser, identity, path, sepUrl, sepUsername, useGit)
    }

    /** A new configuration holds the class defaults. */
    constructor ()
      ensures Values() == Defaults()
    {
      gitBranch, gitMail, gitRepo, gitUser := "main", "", "", "";
      identity, path := "", "";
      sepUrl := "\U{2514}\U{2500} URL      :: ";
      sepUsername := "\U{2514}\U{2500} USERNAME :: ";
      useGit := false;
    }

    /** `setattr(self, member, ...)` as `load` does it. */
    method SetFromText(f: Field, t: string)
      modifies this
      ensures Values() == Assign(old(Values()), f, t)
    {
      match f
      case GitBranch => gitBranch := t;
      case GitMail => gitMail := t;
      case GitRepo => gitRepo := t;
      case GitUser => gitUser := t;
      case Identity => identity := t;
      case Path => path := t;
      case SepUrl => sepUrl := t;
      case SepUsername => sepUsername := t;
      case UseGit => useGit := t == "True";
    }

    /** AppConfig.load: any failure reports `false`, keeping the attributes assigned before it. */
    method Load(cf: ConfigFile, section: string) returns (ok: bool)
      modifies this
      ensures (Values(), ok) == LoadFrom(old(Values()), cf.content, section)
    {
      if cf.content.Missing? {
        return false;
      }
      if cf.content.Malformed? {
        return false;
      }
      var cfg := cf.content.ini;
      if section !in cfg.sections && section != DefaultSection {
        return false;
      }
      var view := View(cfg, section);
      var i := 0;
      while i < |Members|
        invariant 0 <= i <= |Members|
        invariant LoadFields(Values(), view, Members[i..]) == LoadFields(old(Values()), view, Members)
      {
        var member := Members[i];
        assert Members[i..][1..] == Members[i + 1..];
        if Key(member) !in view {
          return false;
        }
        SetFromText(member, view[Key(member)]);
        i := i + 1;
      }
      ok := true;
    }

    /** AppConfig.save: every attribute written into the section, the rest of the file as read. */
    method Save(cf: ConfigFile, section: string) returns (r: Result<()>)
      modifies cf
      ensures r.Success? <==> SaveTo(old(cf.content), section, Values()).Success?
      ensures r.Success? ==> cf.content == Parsed(SaveTo(old(cf.content), section, Values()).value)
      ensures r.Failure? ==> cf.content == old(cf.content) && r.error == SaveTo(old(cf.content), section, Values()).error
    {
      var read := Read(cf.content);
      if read.Failure? {
        return Failure(read.error);
      }
      var cfg := read.value;
      if section == DefaultSection {
        var values := WriteMembers(Values(), cfg.defaults);
        cf.content := Parsed(cfg.(defaults := values));
      } else if section !in cfg.table {
        return Failure("'" + section + "'");
      } else {
        var values := WriteMembers(Values(), cfg.table[section]);
        cf.content := Parsed(cfg.(table := cfg.table[section := values]));
      }
      r := Success(());
    }

    /** AppConfig.create: a fresh document replaces the file; only DEFAULT can be written. */
    method Create(cf: ConfigFile, section: string) returns (r: Result<()>)
      modifies cf
      ensures r.Success? <==> section == DefaultSection
      ensures r.Success? ==> cf.content == Parsed(CreateIni(section, Values()).value)
      ensures r.Failure? ==> cf.content == old(cf.content)
    {
      if section != DefaultSection {
        return Failure("'" + section + "'");
      }
      var values := WriteMembers(Values(), map[]);
      assert values == RenderAll(Values(), Members);
      cf.content := Parsed(EmptyIni().(defaults := values));
      r := Success(());
    }
  }

  /** The member loop shared by create, save and add_section: `cfg[section][member] = str(value)`. */
  method WriteMembers(s: Settings, values0: map<string, string>) returns (values: map<string, string>)
    ensures values == values0 + RenderAll(s, Members)
  {
    values := values0;
    var i := 0;
    while i < |Members|
      invariant 0 <= i <= |Members|
      invariant values == values0 + RenderAll(s, Members[..i])
    {
      var member := Members[i];
      RenderAllStep(s, Members, i);
      MergeUpdate(values0, RenderAll(s, Members[..i]), Key(member), Render(s, member));
      values := values[Key(member) := Render(s, member)];
      i := i + 1;
    }
    assert Members[..i] == Members;
  }

  /** AppConfig.add_section: a new section holding every attribute of `item`. */
  method AddSection(cf: ConfigFile, section: string, item: Config) returns (r: Result<()>)
    modifies cf
    ensures r.Success? <==> AddSectionTo(old(cf.content), section, item.Values()).Success?
    ensures r.Success? ==> cf.content == Parsed(AddSectionTo(old(cf.content), section, item.Values()).value)
    ensures r.Failure? ==> cf.content == old(cf.content) && r.error == AddSectionTo(old(cf.content), section, item.Values()).error
  {
    var read := Read(cf.content);
    if read.Failure? {
      return Failure(read.error);
    }
    var cfg := read.value;
    if section in cfg.sections {
      return Failure("Section <" + section + "> already exists");
    }
    if section == DefaultSection {
      return Failure("Invalid section name: 'DEFAULT'");
    }
    var values := WriteMembers(item.Values(), map[]);
    assert values == RenderAll(item.Values(), Members);
    cf.content := Parsed(cfg.(sections := cfg.sections + [section], table := cfg.table[section := values]));
    r := Success(());
  }

  // ---------------------------------------------------------------------------
  // Command aliases and paths
  // ---------------------------------------------------------------------------

  function PrefixOf(name: string): string -> bool {
    (c: string) => StartsWith(c, name)
  }

  /**
   * AliasedGroup.get_command over the group's command names: the exact name,
   * else the one command it is a prefix of, else none; several prefix matches
   * fail listing them in name order.
   */
  function GetCommand(commands: seq<string>, name: string): (r: Result<Option<string>>)
    ensures name in commands ==> r == Success(Some(name))
    ensures r.Success? && r.value.Some? ==> r.value.value in commands && StartsWith(r.value.value, name)
  {
    if name in commands then Success(Some(name))
    else
      var matches := Filter(commands, PrefixOf(name));
      if matches == [] then Success(None)
      else if |matches| == 1 then Success(Some(matches[0]))
      else Failure("Too many matches: " + Join(", ", SortBy(matches, Self)))
  }

  /**
   * A name that is no command resolves exactly when it is a prefix of exactly
   * one command; several prefix matches fail with "Too many matches: " and the
   * matches sorted and joined by ", ".
   */
  lemma GetCommandPrefix(commands: seq<string>, name: string)
    requires name !in commands
    ensures GetCommand(commands, name) == Success(None) <==> forall i :: 0 <= i < |commands| ==> !StartsWith(commands[i], name)
    ensures |Filter(commands, PrefixOf(name))| == 1 ==> GetCommand(commands, name) == Success(Some(Filter(commands, PrefixOf(name))[0]))
    ensures |Filter(commands, PrefixOf(name))| > 1 ==> GetCommand(commands, name).Failure?
    ensures |Filter(commands, PrefixOf(name))| > 1 ==>
      exists ms: seq<string> ::
        SortedBy(ms, Self) && multiset(ms) == multiset(Filter(commands, PrefixOf(name))) &&
        GetCommand(commands, name) == Failure("Too many matches: " + Join(", ", ms))
  {
    var matches := Filter(commands, PrefixOf(name));
    var ms := SortBy(matches, Self);
    if exists i :: 0 <= i < |commands| && StartsWith(commands[i], name) {
      var i :| 0 <= i < |commands| && StartsWith(commands[i], name);
      assert PrefixOf(name)(commands[i]);
      assert commands[i] in matches;
    }
    if matches != [] {
      assert PrefixOf(name)(matches[0]);
      var i :| 0 <= i < |commands| && commands[i] == matches[0];
    }
  }

  /** app.default_path: the ".ppass/" directory under the home directory. */
  function DefaultPath(home: string): (r: string)
    ensures EndsWith(r, ".ppass/")
  {
    PathJoin(home, ".ppass/")
  }
}
