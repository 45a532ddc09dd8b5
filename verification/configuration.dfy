/**
 * The configuration object (configuration.go, concreteConfig) and the two
 * operations that run over the whole of it: findConfigFile
 * (find_config_file.go) and Read (read_config.go).
 *
 * `New` registers one `Field` per accepted member of the destination
 * struct. The builder setters record the config-file options and the
 * arguments. `FindConfigFile` chooses the config-file source and `Read`
 * applies the file, then the command line, then converts every field
 * into its slot. Each is proved against a function: `Locate` and `Open`
 * for the choice of source, `Reading` for the whole of Read.
 */
module Configuration {
  import opened Wrappers
  import opened Fields
  import opened Schema
  import opened Sources
  import opened Locate
  import opened ConfigFile
  import opened CommandLine
  import opened Convert
  import opened ReadConfig

  /** The keys of the entries, in the order New registers them. */
  function EntryKeys(entries: seq<Entry>): (keys: seq<string>)
    ensures |keys| == |entries|
    ensures forall i :: 0 <= i < |entries| ==> keys[i] == entries[i].key
  {
    seq(|entries|, i requires 0 <= i < |entries| => entries[i].key)
  }

  /** The registry after registering the entries in order; a later entry under the same key replaces an earlier one. */
  function EntryRegistry(entries: seq<Entry>): Registry
    decreases |entries|
  {
    if entries == [] then map[]
    else
      var e := entries[|entries| - 1];
      EntryRegistry(entries[..|entries| - 1])[e.key := e.state]
  }

  /** The destination slots after registering the entries in order, with the values the struct held. */
  function EntrySlots(entries: seq<Entry>): map<string, Value>
    decreases |entries|
  {
    if entries == [] then map[]
    else
      var e := entries[|entries| - 1];
      EntrySlots(entries[..|entries| - 1])[e.key := e.initial]
  }

  /**
   * Each registered key holds the record and the slot value of the last
   * entry under that key, and every entry's key is registered.
   */
  lemma {:induction false} EntryRegistryLast(entries: seq<Entry>, k: string)
    ensures k in EntryRegistry(entries) <==> k in EntryKeys(entries)
    ensures k in EntrySlots(entries) <==> k in EntryKeys(entries)
    ensures k in EntryRegistry(entries) ==>
      exists i :: 0 <= i < |entries| && entries[i].key == k
                  && EntryRegistry(entries)[k] == entries[i].state && EntrySlots(entries)[k] == entries[i].initial
    decreases |entries|
  {
    if entries != [] {
      var init := entries[..|entries| - 1];
      var e := entries[|entries| - 1];
      EntryRegistryLast(init, k);
      assert EntryKeys(entries) == EntryKeys(init) + [e.key];
      if k != e.key && k in EntryRegistry(init) {
        var i :| 0 <= i < |init| && init[i].key == k
                 && EntryRegistry(init)[k] == init[i].state && EntrySlots(init)[k] == init[i].initial;
        assert entries[i] == init[i];
      }
    }
  }

  /** Registering one more entry. */
  lemma EntriesSnoc(entries: seq<Entry>, i: nat)
    requires i < |entries|
    ensures EntryKeys(entries[..i + 1]) == EntryKeys(entries[..i]) + [entries[i].key]
    ensures EntryRegistry(entries[..i + 1]) == EntryRegistry(entries[..i])[entries[i].key := entries[i].state]
    ensures EntrySlots(entries[..i + 1]) == EntrySlots(entries[..i])[entries[i].key := entries[i].initial]
  {
    assert entries[..i + 1][..i] == entries[..i];
  }

  /**
   * What a successful Build hands to New: a pointer to a struct whose
   * members are all accepted, and their records fresh from processField.
   */
  lemma BuiltFresh(dest: Destination)
    requires WellFormed(dest) && Build(dest).Ok?
    ensures forall e :: e in Build(dest).value ==>
      WellNamed(e.state) && !e.state.found && !e.state.required && e.state.raw == ""
    ensures dest.PointerTo? && dest.target.StructOf? && Accepted(dest.target.members)
    ensures Build(dest).value == Registered(dest.target.members)
  {
    TopLevelEntriesFresh(dest.target.members);
  }

  /**
   * New registers only records nobody has supplied a value for: each
   * field starts not found, not required and with no raw value.
   */
  lemma NewFieldsUnread(dest: Destination, k: string)
    requires WellFormed(dest) && Build(dest).Ok? && k in EntryRegistry(Build(dest).value)
    ensures var f := EntryRegistry(Build(dest).value)[k];
            !f.found && !f.required && f.raw == "" && WellNamed(f)
  {
    var entries := Build(dest).value;
    BuiltFresh(dest);
    EntryRegistryLast(entries, k);
    var i :| 0 <= i < |entries| && entries[i].key == k && EntryRegistry(entries)[k] == entries[i].state
             && EntrySlots(entries)[k] == entries[i].initial;
    assert entries[i] in entries;
  }

  const AlreadySet := Panic("You have already set a config file for this config.")
  const RequiredFileMissing := Fail("conflag: Required config file not found.")

  /** The message Field panics with for a key no field is registered under. */
  function NoSuchField(key: string): Error
  {
    Panic("Field " + key + " isn't present in your configuration struct.")
  }

  /** Every option of concreteConfig except the fields and the default reader. */
  datatype ConfigOptions = ConfigOptions(
    name: string,
    description: string,
    fileName: string,
    fileShortFlag: char,
    fileLongFlag: string,
    fileRequired: bool,
    args: seq<string>,
    extraArgsAllowed: bool)

  /** findConfigFile's whole outcome: the scan of the arguments, then the open. */
  function Find(s: FileSettings, args: seq<string>, disk: Disk): (r: Result<Selection, Error>)
    ensures r.Ok? && r.value.choice.OpenPath? ==> r.value.choice.path in disk.files
    ensures r.Ok? && r.value.choice.DefaultReader? ==> s.hasReader
  {
    match Locate.Locate(s, args).result
    case Err(e) => Err(e)
    case Ok(sel) => Locate.Open(sel, disk)
  }

  /**
   * Read's whole effect on the registry and the slots, and its result,
   * from the registry `reg`, the slots `dest`, the file settings `s`, the
   * lines of the default reader (used only when `s` has one), the
   * arguments and the disk.
   */
  function Reading(reg: Registry, order: seq<string>, dest: map<string, Value>, s: FileSettings,
                   reader: seq<string>, args: seq<string>, required: bool, allowed: bool, disk: Disk): Outcome
    requires Covers(reg, order)
  {
    Settle(reg, order, dest, Find(s, args, disk), reader, required, allowed, disk)
  }

  /** Read once findConfigFile has returned `found`: its error, a required file missing, or the reconciliation. */
  function Settle(reg: Registry, order: seq<string>, dest: map<string, Value>, found: Result<Selection, Error>,
                  reader: seq<string>, required: bool, allowed: bool, disk: Disk): Outcome
    requires Covers(reg, order)
    requires found.Ok? && found.value.choice.OpenPath? ==> found.value.choice.path in disk.files
  {
    match found
    case Err(e) => Outcome(reg, dest, Err(e))
    case Ok(sel) =>
      if sel.choice.NoSource? && required then Outcome(reg, dest, Err(RequiredFileMissing))
      else Reconcile(reg, order, dest, Chosen(sel, reader, disk), sel.args, allowed)
  }

  /** The lines of the source findConfigFile chose, none without one. */
  function Chosen(sel: Selection, reader: seq<string>, disk: Disk): (lines: Option<seq<string>>)
    requires sel.choice.OpenPath? ==> sel.choice.path in disk.files
    ensures lines.None? <==> sel.choice.NoSource?
  {
    match sel.choice
    case NoSource => None
    case DefaultReader => Some(reader)
    case OpenPath(p, _) => Some(disk.files[p])
  }

  /**
   * Whether Read closes the default reader: findConfigFile closes it when
   * a flag names another file (or names one twice), and readConfigFile
   * closes it after reading it without error.
   */
  function ClosesDefault(reg: Registry, order: seq<string>, s: FileSettings, reader: seq<string>,
                         args: seq<string>, disk: Disk): bool
    requires Covers(reg, order)
  {
    Locate.Locate(s, args).closeDefault || DefaultRead(reg, order, Find(s, args, disk), reader)
  }

  /** Whether readConfigFile reads the default reader through without error, closing it. */
  predicate DefaultRead(reg: Registry, order: seq<string>, found: Result<Selection, Error>, reader: seq<string>)
    requires Covers(reg, order)
  {
    found.Ok? && found.value.choice.DefaultReader? && ParseFile(reader, FileIndex(reg, order)).err.None?
  }

  /**
   * With neither a default source nor a flag given, a required config
   * file is reported missing before anything is read.
   */
  lemma RequiredFileReported(reg: Registry, order: seq<string>, dest: map<string, Value>, s: FileSettings,
                             reader: seq<string>, args: seq<string>, allowed: bool, disk: Disk)
    requires Covers(reg, order)
    requires !s.hasReader && s.fileName == ""
    requires forall t :: 0 <= t < |args| ==> !Matches(args[t], s)
    ensures Reading(reg, order, dest, s, reader, args, true, allowed, disk) == Outcome(reg, dest, Err(RequiredFileMissing))
    ensures Reading(reg, order, dest, s, reader, args, false, allowed, disk) == Reconcile(reg, order, dest, None, args, allowed)
  {
    NoFlagGiven(s, args);
  }

  /**
   * A default file name that cannot be opened counts as no file: Read
   * reports the required file missing, or reads the command line alone.
   */
  lemma UnopenableDefaultIgnored(reg: Registry, order: seq<string>, dest: map<string, Value>, path: string,
                                 reader: seq<string>, args: seq<string>, allowed: bool, disk: Disk)
    requires Covers(reg, order) && path != "" && path !in disk.files
    ensures var s := FileSettings(false, path, NoRune, "");
            Reading(reg, order, dest, s, reader, args, true, allowed, disk) == Outcome(reg, dest, Err(RequiredFileMissing))
            && Reading(reg, order, dest, s, reader, args, false, allowed, disk) == Reconcile(reg, order, dest, None, args, allowed)
  {
    MissingDefaultFile(path, args, disk);
  }

  /**
   * A successful Read leaves every required field found, a field no
   * source supplied with its slot as it was, and every found field's slot
   * holding its converted value.
   */
  lemma SuccessfulRead(reg: Registry, order: seq<string>, dest: map<string, Value>, s: FileSettings,
                       reader: seq<string>, args: seq<string>, required: bool, allowed: bool, disk: Disk, k: string)
    requires Covers(reg, order) && dest.Keys == reg.Keys && k in reg
    requires Reading(reg, order, dest, s, reader, args, required, allowed, disk).result.Ok?
    ensures var o := Reading(reg, order, dest, s, reader, args, required, allowed, disk);
            k in o.reg && k in o.dest
            && (k in order && reg[k].required ==> o.reg[k].found)
            && (!o.reg[k].found ==> o.dest[k] == dest[k])
            && (o.reg[k].found && k in order ==> Conversion(o.reg[k]) == Ok(Some(o.dest[k])))
  {
    var sel := Find(s, args, disk).value;
    var lines := Chosen(sel, reader, disk);
    assert Reading(reg, order, dest, s, reader, args, required, allowed, disk)
           == Reconcile(reg, order, dest, lines, sel.args, allowed);
    SlotsAfterRead(reg, order, dest, lines, sel.args, allowed, k);
    if k in order {
      var j :| 0 <= j < |order| && order[j] == k;
      if reg[k].required {
        RequiredFieldsFound(reg, order, dest, lines, sel.args, allowed, j);
      }
    }
  }

  /** Registering a record under a key changes that key's entry in the registry and the slots, and no other. */
  lemma RecordAdded(fields: map<string, Field>, k: string, f: Field)
    ensures Snapshot(fields[k := f]) == Snapshot(fields)[k := f.State()]
    ensures Destinations(fields[k := f]) == Destinations(fields)[k := f.slot.value]
  {
  }

  /** A fresh record with a fresh slot keeps the records and the slots distinct. */
  lemma FreshRecordSeparate(fields: map<string, Field>, k: string, f: Field)
    requires Distinct(fields) && SeparateSlots(fields)
    requires forall j :: j in fields ==> fields[j] != f && fields[j].slot != f.slot
    ensures Distinct(fields[k := f]) && SeparateSlots(fields[k := f])
  {
  }

  class Config {
    var fields: map<string, Field>
    /** The registry keys in the order New registered them (fieldKeysInOrder). */
    var order: seq<string>
    var name: string
    var description: string
    var fileName: string
    /** The default reader set with ConfigReader, if any. */
    var file: Source?
    var fileShortFlag: char
    var fileLongFlag: string
    var fileRequired: bool
    var args: seq<string>
    var extraArgsAllowed: bool

    function Options(): ConfigOptions
      reads this
    {
      ConfigOptions(name, description, fileName, fileShortFlag, fileLongFlag, fileRequired, args, extraArgsAllowed)
    }

    /** The options findConfigFile looks at. */
    function Settings(): FileSettings
      reads this
    {
      FileSettings(file != null, fileName, fileShortFlag, fileLongFlag)
    }

    /** The lines of the default reader, none without one. */
    function ReaderLines(): seq<string>
      reads this
    {
      if file != null then file.lines else []
    }

    /**
     * Distinct records with distinct slots, every registered key in the
     * key order, well-named records, and at most one default source: a
     * reader or a file name.
     */
    ghost predicate Valid()
      reads this, fields.Values
    {
      Distinct(fields) && SeparateSlots(fields) && Covers(Snapshot(fields), order)
      && (forall k :: k in fields ==> k in order && fields[k].Valid())
      && (file == null || fileName == "")
    }

    /** The config New starts from, reading the process arguments after the program name. */
    constructor (args: seq<string>)
      ensures Valid() && fields == map[] && order == [] && file == null
      ensures Options() == ConfigOptions("", "", "", NoRune, "", false, args, false)
    {
      fields := map[];
      order := [];
      name := "";
      description := "";
      fileName := "";
      file := null;
      fileShortFlag := NoRune;
      fileLongFlag := "";
      fileRequired := false;
      this.args := args;
      extraArgsAllowed := false;
    }

    /** processField's registration: the new record `f`, with its own slot, under `key`. */
    method Register(key: string, f: Fields.Field)
      requires Valid() && f.Valid()
      requires forall j :: j in fields ==> fields[j] != f && fields[j].slot != f.slot
      modifies this
      ensures Valid()
      ensures fields == old(fields)[key := f] && order == old(order) + [key]
      ensures Options() == old(Options()) && file == old(file)
    {
      FreshRecordSeparate(fields, key, f);
      fields := fields[key := f];
      order := order + [key];
      assert Covers(Snapshot(fields), order) by {
        forall i | 0 <= i < |order| ensures order[i] in fields {
          if i < |old(order)| {
            assert order[i] == old(order)[i];
          }
        }
      }
    }

    /** Field: the record registered under `key`, or a panic naming the key. */
    method Field(key: string) returns (r: Result<Fields.Field, Error>)
      ensures key in fields ==> r == Ok(fields[key])
      ensures key !in fields ==> r == Err(NoSuchField(key))
    {
      if key in fields {
        return Ok(fields[key]);
      }
      return Err(NoSuchField(key));
    }

    /** ConfigReader: sets the default reader, or panics when a default source is already set. */
    method ConfigReader(src: Source?) returns (status: Option<Error>)
      requires Valid()
      modifies this
      ensures Valid() && fields == old(fields) && order == old(order) && Options() == old(Options())
      ensures old(file != null || fileName != "") ==> status == Some(AlreadySet) && file == old(file)
      ensures old(file == null && fileName == "") ==> status == None && file == src
    {
      if file != null || fileName != "" {
        return Some(AlreadySet);
      }
      file := src;
      return None;
    }

    /** ConfigFile: sets the default file name, or panics when a default source is already set. */
    method ConfigFile(path: string) returns (status: Option<Error>)
      requires Valid()
      modifies this
      ensures Valid() && fields == old(fields) && order == old(order) && file == old(file)
      ensures old(file != null || fileName != "") ==> status == Some(AlreadySet) && Options() == old(Options())
      ensures old(file == null && fileName == "") ==> status == None && Options() == old(Options()).(fileName := path)
    {
      if file != null || fileName != "" {
        return Some(AlreadySet);
      }
      fileName := path;
      return None;
    }

    method ConfigFileShortFlag(flag: char)
      modifies this
      ensures fields == old(fields) && order == old(order) && file == old(file)
      ensures Options() == old(Options()).(fileShortFlag := flag)
    {
      fileShortFlag := flag;
    }

    method ConfigFileLongFlag(flag: string)
      modifies this
      ensures fields == old(fields) && order == old(order) && file == old(file)
      ensures Options() == old(Options()).(fileLongFlag := flag)
    {
      fileLongFlag := flag;
    }

    method ConfigFileRequired()
      modifies this
      ensures fields == old(fields) && order == old(order) && file == old(file)
      ensures Options() == old(Options()).(fileRequired := true)
    {
      fileRequired := true;
    }

    method Args(args: seq<string>)
      modifies this
      ensures fields == old(fields) && order == old(order) && file == old(file)
      ensures Options() == old(Options()).(args := args)
    {
      this.args := args;
    }

    /** AllowExtraArgs: extra arguments become allowed; the usage line given is not kept. */
    method AllowExtraArgs(usage: string)
      modifies this
      ensures fields == old(fields) && order == old(order) && file == old(file)
      ensures Options() == old(Options()).(extraArgsAllowed := true)
    {
      extraArgsAllowed := true;
    }

    /** The program name shown first in the usage text. */
    method ProgramName(name: string)
      modifies this
      ensures fields == old(fields) && order == old(order) && file == old(file)
      ensures Options() == old(Options()).(name := name)
    {
      this.name := name;
    }

    /** The program description shown after the name in the usage text. */
    method ProgramDescription(description: string)
      modifies this
      ensures fields == old(fields) && order == old(order) && file == old(file)
      ensures Options() == old(Options()).(description := description)
    {
      this.description := description;
    }

    /**
     * findConfigFile: scans the arguments from the end for the config-file
     * flag, closes the default reader when a flag overrides it, and opens
     * the file chosen. `rest` is the arguments without the flag and its
     * value.
     */
    method FindConfigFile(disk: Disk) returns (f: Source?, rest: seq<string>, err: Option<Error>)
      modifies file
      ensures file != null ==>
        file.closed == (old(file.closed) || (Locate.Locate(Settings(), args).closeDefault && file.closable))
      ensures f == null || f == file || fresh(f)
      ensures match Find(Settings(), args, disk)
              case Err(e) => err == Some(e)
              case Ok(sel) =>
                err == None && rest == sel.args
                && (sel.choice.NoSource? ==> f == null)
                && (sel.choice.DefaultReader? ==> f == file)
                && (sel.choice.OpenPath? ==>
                      f != null && fresh(f) && f.lines == disk.files[sel.choice.path] && f.closable && !f.closed)
    {
      var s := Settings();
      f := file;
      rest := args;
      err := None;
      var path := fileName;
      var found := false;
      if fileShortFlag != NoRune || fileLongFlag != "" {
        ghost var whole := ScanBack(args, |args| - 1, false, fileName, s, true);
        var shortFlag := if fileShortFlag != NoRune then ['-', fileShortFlag] else "";
        var longFlag := if fileLongFlag != "" then "--" + fileLongFlag else "";
        var i := |rest| - 1;
        while i >= 0
          invariant -1 <= i < |rest|
          invariant ScanBack(rest, i, found, path, s, true) == whole
          invariant f == file && err == None
          decreases i + 1
        {
          if (fileLongFlag != "" && rest[i] == longFlag) || (fileShortFlag != NoRune && rest[i] == shortFlag) {
            if found {
              assert whole == Duplicate;
              if f != null {
                f.CloseIfCloser();
              }
              return null, rest, Some(Fail("conflag: Duplicate config file flags"));
            }
            found := true;
            if i + 1 > |rest| - 1 {
              assert whole == Missing;
              return f, rest, Some(Fail("conflag: Missing config file name"));
            }
            path := rest[i + 1];
            rest := rest[..i] + rest[i + 2..];
          }
          i := i - 1;
        }
        assert whole == Scanned(rest, path, found);
      }
      if (f == null && path != "") || found {
        if f != null {
          f.CloseIfCloser();
        }
        var attempt := Sources.Open(disk, path);
        match attempt {
          case Ok(src) =>
            f := src;
          case Err(e) =>
            f := null;
            if found {
              err := Some(e);
            }
        }
      }
    }

    /**
     * Read: the config file, then the command line, then the conversion of
     * every field into its slot, stopping at the first error.
     */
    method Read(disk: Disk) returns (r: Result<seq<string>, Error>)
      requires Valid()
      modifies fields.Values, Slots(fields), file
      ensures var o := old(Reading(Snapshot(fields), order, Destinations(fields), Settings(), ReaderLines(),
                                   args, fileRequired, extraArgsAllowed, disk));
              r == o.result && Snapshot(fields) == o.reg && Destinations(fields) == o.dest
      ensures file != null ==>
        file.closed == (old(file.closed)
                        || (file.closable && old(ClosesDefault(Snapshot(fields), order, Settings(), ReaderLines(), args, disk))))
    {
      ghost var found := Find(Settings(), args, disk);
      var fin, rest, err := FindConfigFile(disk);
      RecordsUntouched(fields);
      SlotsUntouched(fields);
      r := ReadFound(disk, found, fin, rest, err);
    }

    /** Read once findConfigFile has returned `found`: the source `fin`, the arguments left `rest`, or the error. */
    method ReadFound(disk: Disk, ghost found: Result<Selection, Error>, fin: Source?, rest: seq<string>, err: Option<Error>)
      returns (r: Result<seq<string>, Error>)
      requires Valid()
      requires found.Err? ==> err == Some(found.error)
      requires found.Ok? ==>
        var sel := found.value;
        err == None && rest == sel.args
        && (sel.choice.NoSource? ==> fin == null)
        && (sel.choice.DefaultReader? ==> fin == file && file != null)
        && (sel.choice.OpenPath? ==>
              sel.choice.path in disk.files && fin != null && fin != file && fin.lines == disk.files[sel.choice.path])
      modifies fields.Values, Slots(fields), fin
      ensures var o := old(Settle(Snapshot(fields), order, Destinations(fields), found, ReaderLines(),
                                  fileRequired, extraArgsAllowed, disk));
              r == o.result && Snapshot(fields) == o.reg && Destinations(fields) == o.dest
      ensures file != null ==>
        file.closed == (old(file.closed) || (file.closable && old(DefaultRead(Snapshot(fields), order, found, ReaderLines()))))
    {
      if err.Some? {
        return Err(err.value);
      }
      if fin == null && fileRequired {
        return Err(RequiredFileMissing);
      }
      r := ReadSources(fields, order, fin, rest, extraArgsAllowed);
    }
  }

  /** newField: a fresh record for the entry, writing to a fresh slot that holds the member's value. */
  method NewRecord(e: Entry) returns (f: Fields.Field)
    requires WellNamed(e.state)
    ensures fresh(f) && fresh(f.slot) && f.Valid()
    ensures f.State() == e.state && f.slot.value == e.initial
  {
    var slot := new Slot(e.initial);
    f := new Field(e.state, slot);
  }

  /** New's loop body: a fresh slot holding the member's value, a fresh record for it, registered. */
  method AddEntry(c: Config, e: Entry)
    requires c.Valid() && WellNamed(e.state)
    modifies c
    ensures c.Valid() && c.order == old(c.order) + [e.key]
    ensures Snapshot(c.fields) == old(Snapshot(c.fields))[e.key := e.state]
    ensures Destinations(c.fields) == old(Destinations(c.fields))[e.key := e.initial]
    ensures c.Options() == old(c.Options()) && c.file == old(c.file)
  {
    ghost var before := c.fields;
    label Start:
    var f := NewRecord(e);
    c.Register(e.key, f);
    RecordsUntouched@Start(before);
    SlotsUntouched@Start(before);
    RecordAdded(before, e.key, f);
  }

  /**
   * New: a config for the destination, one field per accepted member, in
   * member order; the shape error or the first rejected member otherwise.
   */
  method New(dest: Destination, osArgs: seq<string>) returns (r: Result<Config, Error>)
    requires WellFormed(dest)
    ensures Build(dest).Err? ==> r == Err(Build(dest).error)
    ensures Build(dest).Ok? ==>
      r.Ok? && fresh(r.value) && r.value.Valid() && r.value.file == null
      && r.value.Options() == ConfigOptions("", "", "", NoRune, "", false, osArgs, false)
      && r.value.order == EntryKeys(Build(dest).value)
      && Snapshot(r.value.fields) == EntryRegistry(Build(dest).value)
      && Destinations(r.value.fields) == EntrySlots(Build(dest).value)
  {
    var built := Build(dest);
    if built.Err? {
      return Err(built.error);
    }
    var entries := built.value;
    BuiltFresh(dest);
    var c := new Config(osArgs);
    var i := 0;
    while i < |entries|
      invariant 0 <= i <= |entries|
      invariant fresh(c) && c.Valid() && c.file == null
      invariant c.Options() == ConfigOptions("", "", "", NoRune, "", false, osArgs, false)
      invariant c.order == EntryKeys(entries[..i])
      invariant Snapshot(c.fields) == EntryRegistry(entries[..i])
      invariant Destinations(c.fields) == EntrySlots(entries[..i])
    {
      assert entries[i] in entries;
      AddEntry(c, entries[i]);
      EntriesSnoc(entries, i);
      i := i + 1;
    }
    assert entries[..i] == entries;
    return Ok(c);
  }
}
