/**
 * Reconciliation (read_config.go): what Read does once the source is
 * chosen.
 *
 * The config file is read first and the command line second, so a flag
 * overrides a file entry for the same field. Then every field is
 * converted into its destination slot, in key order, and the first
 * failure stops the read. `Reconcile` is the specification, stage by
 * stage, and `Combined` states the same with all the writes of the file
 * and the command line applied at once. `ReadSources` and the methods it
 * calls are the imperative steps, which `Config.Read` strings together.
 */
module ReadConfig {
  import opened Wrappers
  import opened Fields
  import opened Sources
  import opened Convert
  import opened ConfigFile
  import opened CommandLine

  /** The actions of the file and of the command line, and the extras or the error. */
  datatype Gathered = Gathered(fileActions: seq<Action>, flagActions: seq<Action>,
                               result: Result<seq<string>, Error>)

  /** readConfigFile's part: the parse of the file, when there is one. */
  function FileStage(reg: Registry, order: seq<string>, lines: Option<seq<string>>): FileParse
    requires Covers(reg, order)
  {
    if lines.Some? then ParseFile(lines.value, FileIndex(reg, order)) else FileParse([], None)
  }

  /**
   * The file, if there is one, then the command line. An error in the
   * file stops the read before the command line is looked at.
   */
  function Gather(reg: Registry, order: seq<string>, lines: Option<seq<string>>,
                  args: seq<string>, allowed: bool): Gathered
    requires Covers(reg, order)
  {
    var file := FileStage(reg, order, lines);
    if file.err.Some? then Gathered(file.actions, [], Err(file.err.value))
    else
      var p := ParseCommandLine(Apply(reg, file.actions), order, args, allowed);
      Gathered(file.actions, p.actions, p.result)
  }

  /** The slots after the conversions, and the error that stopped them, if any. */
  datatype Stored = Stored(dest: map<string, Value>, err: Option<Error>)

  /** readValue over the fields from position `i` of the key order on. */
  function StoreFrom(reg: Registry, order: seq<string>, i: nat, dest: map<string, Value>): Stored
    requires Covers(reg, order) && i <= |order|
    decreases |order| - i
  {
    if i == |order| then Stored(dest, None)
    else
      var c := Conversion(reg[order[i]]);
      if c.Err? then Stored(dest, Some(c.error))
      else if c.value.None? then StoreFrom(reg, order, i + 1, dest)
      else StoreFrom(reg, order, i + 1, dest[order[i] := c.value.value])
  }

  /** Read's effect once the source is chosen: the registry, the slots and the result. */
  datatype Outcome = Outcome(reg: Registry, dest: map<string, Value>, result: Result<seq<string>, Error>)

  /**
   * Read stage by stage: the file, if any; an error in it stops the read,
   * otherwise the command line and the conversions run over what it wrote.
   */
  function Reconcile(reg: Registry, order: seq<string>, dest: map<string, Value>,
                     lines: Option<seq<string>>, args: seq<string>, allowed: bool): Outcome
    requires Covers(reg, order)
  {
    var file := FileStage(reg, order, lines);
    var mid := Apply(reg, file.actions);
    if file.err.Some? then Outcome(mid, dest, Err(file.err.value))
    else AfterFile(mid, order, dest, args, allowed)
  }

  /** What follows the file: the command line over the registry the file left, then the conversions. */
  function AfterFile(mid: Registry, order: seq<string>, dest: map<string, Value>, args: seq<string>, allowed: bool): Outcome
    requires Covers(mid, order)
  {
    var p := ParseCommandLine(mid, order, args, allowed);
    var after := Apply(mid, p.actions);
    if p.result.Err? then Outcome(after, dest, p.result)
    else
      var st := StoreFrom(after, order, 0, dest);
      Outcome(after, st.dest, if st.err.Some? then Err(st.err.value) else p.result)
  }

  /**
   * Read at once: the file's actions and the flags' actions applied in
   * turn to the registry, then, unless one of them failed, the conversions.
   */
  function Combined(reg: Registry, order: seq<string>, dest: map<string, Value>,
                    lines: Option<seq<string>>, args: seq<string>, allowed: bool): Outcome
    requires Covers(reg, order)
  {
    var g := Gather(reg, order, lines, args, allowed);
    var after := Apply(reg, g.fileActions + g.flagActions);
    match g.result
    case Err(e) => Outcome(after, dest, Err(e))
    case Ok(extras) =>
      var s := StoreFrom(after, order, 0, dest);
      Outcome(after, s.dest, if s.err.Some? then Err(s.err.value) else Ok(extras))
  }

  /** Reading stage by stage is reading at once: the flags act on what the file wrote. */
  lemma ReconcileCombined(reg: Registry, order: seq<string>, dest: map<string, Value>,
                          lines: Option<seq<string>>, args: seq<string>, allowed: bool)
    requires Covers(reg, order)
    ensures Reconcile(reg, order, dest, lines, args, allowed) == Combined(reg, order, dest, lines, args, allowed)
  {
    if FileStage(reg, order, lines).err.Some? {
      CombinedFileError(reg, order, dest, lines, args, allowed);
    } else {
      CombinedFileRead(reg, order, dest, lines, args, allowed);
    }
  }

  lemma CombinedFileError(reg: Registry, order: seq<string>, dest: map<string, Value>,
                          lines: Option<seq<string>>, args: seq<string>, allowed: bool)
    requires Covers(reg, order) && FileStage(reg, order, lines).err.Some?
    ensures Reconcile(reg, order, dest, lines, args, allowed) == Combined(reg, order, dest, lines, args, allowed)
  {
    var file := FileStage(reg, order, lines);
    assert Gather(reg, order, lines, args, allowed) == Gathered(file.actions, [], Err(file.err.value));
    assert file.actions + [] == file.actions;
  }

  lemma CombinedFileRead(reg: Registry, order: seq<string>, dest: map<string, Value>,
                         lines: Option<seq<string>>, args: seq<string>, allowed: bool)
    requires Covers(reg, order) && FileStage(reg, order, lines).err.None?
    ensures Reconcile(reg, order, dest, lines, args, allowed) == Combined(reg, order, dest, lines, args, allowed)
  {
    var file := FileStage(reg, order, lines);
    var mid := Apply(reg, file.actions);
    var p := ParseCommandLine(mid, order, args, allowed);
    assert Gather(reg, order, lines, args, allowed) == Gathered(file.actions, p.actions, p.result);
    ApplyConcat(reg, file.actions, p.actions);
    assert Apply(reg, file.actions + p.actions) == Apply(mid, p.actions);
  }

  /**
   * The command line wins: a field given a value by flag ends with the
   * last such value, one given a value only in the file ends with the
   * file's last value, and a field either names is found.
   */
  lemma CommandLineWins(reg: Registry, order: seq<string>, lines: Option<seq<string>>,
                        args: seq<string>, allowed: bool, k: string)
    requires Covers(reg, order) && k in reg
    ensures var g := Gather(reg, order, lines, args, allowed);
            var f := Apply(reg, g.fileActions + g.flagActions)[k];
            f.raw == (match LastRaw(g.flagActions, k)
                      case Some(v) => v
                      case None =>
                        match LastRaw(g.fileActions, k)
                        case Some(v) => v
                        case None => reg[k].raw)
            && f.found == (reg[k].found || Touches(g.fileActions, k) || Touches(g.flagActions, k))
  {
    var g := Gather(reg, order, lines, args, allowed);
    LaterRunWins(reg, g.fileActions, g.flagActions, k);
  }

  /** The conversions succeed exactly when each field from `i` on converts. */
  lemma {:induction false} StoreSucceeds(reg: Registry, order: seq<string>, i: nat, dest: map<string, Value>)
    requires Covers(reg, order) && i <= |order|
    ensures StoreFrom(reg, order, i, dest).err.None? <==>
            forall j :: i <= j < |order| ==> Conversion(reg[order[j]]).Ok?
    decreases |order| - i
  {
    if i < |order| {
      match Conversion(reg[order[i]]) {
        case Err(_) =>
        case Ok(None) => StoreSucceeds(reg, order, i + 1, dest);
        case Ok(Some(v)) => StoreSucceeds(reg, order, i + 1, dest[order[i] := v]);
      }
    }
  }

  /**
   * After conversions that succeed, each slot holds the conversion of its
   * field when that stores a value, and what it held before otherwise.
   */
  lemma {:induction false} StoredValues(reg: Registry, order: seq<string>, i: nat, dest: map<string, Value>)
    requires Covers(reg, order) && i <= |order|
    requires forall j :: i <= j < |order| ==> order[j] in dest
    requires StoreFrom(reg, order, i, dest).err.None?
    ensures var s := StoreFrom(reg, order, i, dest);
            s.dest.Keys == dest.Keys
            && forall k :: k in dest ==>
                 s.dest[k] == if k in order[i..] && Conversion(reg[k]).Ok? && Conversion(reg[k]).value.Some?
                              then Conversion(reg[k]).value.value else dest[k]
    decreases |order| - i
  {
    if i < |order| {
      var k0 := order[i];
      assert order[i..] == [k0] + order[i + 1..];
      match Conversion(reg[k0]) {
        case Err(_) =>
        case Ok(None) =>
          StoredValues(reg, order, i + 1, dest);
        case Ok(Some(v)) =>
          StoredValues(reg, order, i + 1, dest[k0 := v]);
      }
    }
  }

  /** Read succeeds only if every required field was supplied by some source. */
  lemma RequiredFieldsFound(reg: Registry, order: seq<string>, dest: map<string, Value>,
                            lines: Option<seq<string>>, args: seq<string>, allowed: bool, j: nat)
    requires Covers(reg, order) && j < |order|
    requires Reconcile(reg, order, dest, lines, args, allowed).result.Ok?
    requires reg[order[j]].required
    ensures Reconcile(reg, order, dest, lines, args, allowed).reg[order[j]].found
  {
    ReconcileCombined(reg, order, dest, lines, args, allowed);
    var g := Gather(reg, order, lines, args, allowed);
    var after := Apply(reg, g.fileActions + g.flagActions);
    StoreSucceeds(after, order, 0, dest);
    assert Conversion(after[order[j]]).Ok?;
  }

  /**
   * After conversions that succeed, a field that was not found keeps its
   * slot, and one that was found holds its converted value.
   */
  lemma StoredSlot(reg: Registry, order: seq<string>, dest: map<string, Value>, k: string)
    requires Covers(reg, order) && dest.Keys == reg.Keys && k in reg
    requires StoreFrom(reg, order, 0, dest).err.None?
    ensures var s := StoreFrom(reg, order, 0, dest);
            k in s.dest
            && (!reg[k].found ==> s.dest[k] == dest[k])
            && (reg[k].found && k in order ==> Conversion(reg[k]) == Ok(Some(s.dest[k])))
  {
    StoredValues(reg, order, 0, dest);
    assert order[0..] == order;
    if reg[k].found && k in order {
      var j :| 0 <= j < |order| && order[j] == k;
      StoreSucceeds(reg, order, 0, dest);
      assert Conversion(reg[order[j]]).Ok?;
    }
  }

  /**
   * After a read that succeeds, a field no source supplied keeps its
   * default, and one that was supplied holds its converted value.
   */
  lemma SlotsAfterRead(reg: Registry, order: seq<string>, dest: map<string, Value>,
                       lines: Option<seq<string>>, args: seq<string>, allowed: bool, k: string)
    requires Covers(reg, order) && dest.Keys == reg.Keys && k in reg
    requires Reconcile(reg, order, dest, lines, args, allowed).result.Ok?
    ensures var o := Reconcile(reg, order, dest, lines, args, allowed);
            k in o.dest
            && (!o.reg[k].found ==> o.dest[k] == dest[k])
            && (o.reg[k].found && k in order ==> Conversion(o.reg[k]) == Ok(Some(o.dest[k])))
  {
    ReconcileCombined(reg, order, dest, lines, args, allowed);
    var g := Gather(reg, order, lines, args, allowed);
    var after := Apply(reg, g.fileActions + g.flagActions);
    StoredSlot(after, order, dest, k);
  }

  /** Each field has its own slot, as each member of the destination struct is its own. */
  predicate SeparateSlots(fields: map<string, Field>)
  {
    forall a, b :: a in fields && b in fields && a != b ==> fields[a].slot != fields[b].slot
  }

  /** The error of a conversion, if it fails. */
  function Failure(c: Result<Option<Value>, Error>): Option<Error>
  {
    if c.Err? then Some(c.error) else None
  }

  /** What a slot holding `v` holds after a conversion. */
  function Written(c: Result<Option<Value>, Error>, v: Value): Value
  {
    if c.Ok? && c.value.Some? then c.value.value else v
  }

  /** readValue: convert the raw value into the slot, or report why not. */
  method ReadValue(f: Field) returns (err: Option<Error>)
    modifies f.slot
    ensures err == Failure(Conversion(f.State()))
    ensures f.slot.value == Written(Conversion(f.State()), old(f.slot.value))
  {
    if !f.found {
      if f.required {
        return Some(RequiredMissing(f.description));
      }
      return None;
    }
    match f.kind {
      case BoolKind =>
        var val := false;
        if f.raw == "true" {
          val := true;
        }
        f.slot.value := BoolValue(val);
      case IntKind =>
        var val := ParseInt(f.raw);
        if val.None? {
          return Some(NotInteger(f.raw));
        }
        f.slot.value := IntValue(val.value);
      case UintKind =>
        var val := ParseUint(f.raw);
        if val.None? {
          return Some(NotUnsigned(f.raw));
        }
        f.slot.value := UintValue(val.value);
      case FloatKind =>
        f.slot.value := FloatValue(f.raw);
      case StringKind =>
        f.slot.value := StringValue(f.raw);
    }
    return None;
  }

  /** One conversion of the fold: a failure stops it, otherwise the slot is written and the fold goes on. */
  lemma StoreStep(reg: Registry, order: seq<string>, i: nat, dest: map<string, Value>)
    requires Covers(reg, order) && i < |order| && order[i] in dest
    ensures var c := Conversion(reg[order[i]]);
            StoreFrom(reg, order, i, dest)
            == if c.Err? then Stored(dest, Some(c.error))
               else StoreFrom(reg, order, i + 1, dest[order[i] := Written(c, dest[order[i]])])
  {
    var c := Conversion(reg[order[i]]);
    if c.Ok? && c.value.None? {
      assert dest[order[i] := dest[order[i]]] == dest;
    }
  }

  /** readValue on the field under `k`: only its slot changes. */
  method ReadField(fields: map<string, Field>, k: string) returns (err: Option<Error>)
    requires SeparateSlots(fields) && k in fields
    modifies fields[k].slot
    ensures var c := Conversion(fields[k].State());
            err == Failure(c)
            && Destinations(fields) == old(Destinations(fields))[k := Written(c, old(Destinations(fields))[k])]
    ensures Snapshot(fields) == old(Snapshot(fields))
  {
    ghost var before := Destinations(fields);
    err := ReadValue(fields[k]);
    SlotWritten(fields, k, before);
  }

  /** With separate slots, a write to the slot of `k` changes that destination and no other. */
  lemma SlotWritten(fields: map<string, Field>, k: string, before: map<string, Value>)
    requires k in fields && before.Keys == fields.Keys
    requires forall j :: j in fields && j != k ==> fields[j].slot.value == before[j]
    ensures Destinations(fields) == before[k := fields[k].slot.value]
  {
  }

  /** Read's last loop: readValue on each field in key order, stopping at the first error. */
  method ReadValues(fields: map<string, Field>, order: seq<string>) returns (err: Option<Error>)
    requires SeparateSlots(fields) && Covers(Snapshot(fields), order)
    modifies Slots(fields)
    ensures var s := StoreFrom(Snapshot(fields), order, 0, old(Destinations(fields)));
            err == s.err && Destinations(fields) == s.dest
    ensures Snapshot(fields) == old(Snapshot(fields))
  {
    ghost var reg := Snapshot(fields);
    ghost var whole := StoreFrom(reg, order, 0, Destinations(fields));
    var i := 0;
    while i < |order|
      invariant 0 <= i <= |order|
      invariant Snapshot(fields) == reg
      invariant StoreFrom(reg, order, i, Destinations(fields)) == whole
    {
      StoreStep(reg, order, i, Destinations(fields));
      err := ReadField(fields, order[i]);
      if err.Some? {
        return;
      }
      i := i + 1;
    }
    return None;
  }

  /** The command line, then readValue over the fields in key order. */
  method ReadAfterFile(fields: map<string, Field>, order: seq<string>, args: seq<string>, allowed: bool)
    returns (r: Result<seq<string>, Error>)
    requires Distinct(fields) && SeparateSlots(fields) && Covers(Snapshot(fields), order)
    modifies fields.Values, Slots(fields)
    ensures var o := AfterFile(old(Snapshot(fields)), order, old(Destinations(fields)), args, allowed);
            r == o.result && Snapshot(fields) == o.reg && Destinations(fields) == o.dest
  {
    ghost var mid := Snapshot(fields);
    ghost var dest := Destinations(fields);
    ghost var p := ParseCommandLine(mid, order, args, allowed);
    var extras := ReadCommandLineFlags(fields, order, args, allowed);
    ghost var after := Snapshot(fields);
    assert after == Apply(mid, p.actions) && extras == p.result;
    assert Destinations(fields) == dest;
    if extras.Err? {
      return Err(extras.error);
    }
    var err := ReadValues(fields, order);
    if err.Some? {
      return Err(err.value);
    }
    return Ok(extras.value);
  }

  /**
   * Read once the source is chosen: the file `fin`, if any, then the
   * command line `args`, then readValue over the fields in key order,
   * stopping at the first error. The file is closed when it was read
   * without error.
   */
  method ReadSources(fields: map<string, Field>, order: seq<string>, fin: Source?, args: seq<string>, allowed: bool)
    returns (r: Result<seq<string>, Error>)
    requires Distinct(fields) && SeparateSlots(fields) && Covers(Snapshot(fields), order)
    modifies fields.Values, Slots(fields), fin
    ensures var o := old(Reconcile(Snapshot(fields), order, Destinations(fields),
                                   if fin != null then Some(fin.lines) else None, args, allowed));
            r == o.result && Snapshot(fields) == o.reg && Destinations(fields) == o.dest
    ensures fin != null ==>
      fin.closed == (old(fin.closed) || (fin.closable && old(ParseFile(fin.lines, FileIndex(Snapshot(fields), order))).err.None?))
  {
    if fin == null {
      ghost var reg := Snapshot(fields);
      assert Apply(reg, []) == reg;
      r := ReadAfterFile(fields, order, args, allowed);
    } else {
      r := ReadWithFile(fields, order, fin, args, allowed);
    }
  }

  /** Read with a file: readConfigFile first; an error in it stops the read, and the file stays open. */
  method ReadWithFile(fields: map<string, Field>, order: seq<string>, fin: Source, args: seq<string>, allowed: bool)
    returns (r: Result<seq<string>, Error>)
    requires Distinct(fields) && SeparateSlots(fields) && Covers(Snapshot(fields), order)
    modifies fields.Values, Slots(fields), fin
    ensures var o := old(Reconcile(Snapshot(fields), order, Destinations(fields), Some(fin.lines), args, allowed));
            r == o.result && Snapshot(fields) == o.reg && Destinations(fields) == o.dest
    ensures fin.closed == (old(fin.closed) || (fin.closable && old(ParseFile(fin.lines, FileIndex(Snapshot(fields), order))).err.None?))
  {
    ghost var reg := Snapshot(fields);
    ghost var file := ParseFile(fin.lines, FileIndex(reg, order));
    var err := ReadConfigFile(fields, order, fin);
    assert Snapshot(fields) == Apply(reg, file.actions) && err == file.err;
    if err.Some? {
      return Err(err.value);
    }
    ghost var closed := fin.closed;
    r := ReadAfterFile(fields, order, args, allowed);
    assert fin.closed == closed;
  }
}
