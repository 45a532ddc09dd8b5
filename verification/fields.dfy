/**
 * The field record (field.go, concreteField) and what the readers do to it.
 *
 * A `Field` is the mutable record the builder setters write. Its
 * `State()` is the value of every attribute except the destination slot.
 * The registry of a configuration is then a `map<string, FieldState>`.
 * The config-file parser and the command-line tokenizer only ever mark
 * a field found, possibly with a raw value. Each of them is specified by
 * the sequence of `Action`s it performs, and `Apply` gives their effect
 * on a registry.
 */
module Fields {
  import opened Wrappers
  import opened Text
  import opened Naming

  /** The field types the library accepts (fieldType). */
  datatype Kind = BoolKind | IntKind | UintKind | FloatKind | StringKind

  /**
   * What a destination slot holds. A float slot keeps the decimal text,
   * since floating point is not modelled.
   */
  datatype Value =
    | BoolValue(b: bool)
    | IntValue(i: int)
    | UintValue(u: nat)
    | FloatValue(text: string)
    | StringValue(s: string)

  /**
   * Errors returned to the caller (`Fail`), panics (`Panic`), and a file
   * that `os.Open` could not open (`OpenFailed`).
   */
  datatype Error = Fail(msg: string) | Panic(msg: string) | OpenFailed(path: string)

  /** The zero rune: a short flag that is not set. */
  const NoRune: char := '\0'

  /** Every attribute of concreteField except the destination slot. */
  datatype FieldState = FieldState(
    kind: Kind,
    description: string,
    required: bool,
    found: bool,
    raw: string,
    longFlag: string,
    shortFlag: char,
    inverseLongFlag: string,
    inverseShortFlag: char,
    fileCategory: string,
    fileKey: string)

  /** The rule FileCategory and FileKey enforce: neither name holds a `.`. */
  predicate WellNamed(f: FieldState)
  {
    '.' !in f.fileCategory && '.' !in f.fileKey
  }

  /**
   * The record processField registers for the field `name` inside the
   * struct field `prefix` ("" at top level).
   */
  function Fresh(kind: Kind, prefix: string, name: string): (f: FieldState)
    requires '.' !in prefix && '.' !in name
    ensures WellNamed(f)
    ensures f.kind == kind && !f.required && !f.found && f.raw == ""
    ensures f.shortFlag == NoRune && f.inverseShortFlag == NoRune && f.inverseLongFlag == ""
    ensures f.description == ""
    ensures f.fileKey == DefaultFileKey(name) && f.fileCategory == DefaultCategory(prefix)
    ensures f.longFlag == DefaultLongFlag(prefix, name)
  {
    DerivedNamesHaveNoDot(prefix, name);
    FieldState(kind, "", false, false, "", DefaultLongFlag(prefix, name), NoRune, "", NoRune,
               DefaultCategory(prefix), DefaultFileKey(name))
  }

  /**
   * A slot of the destination struct. The struct is the caller's memory,
   * apart from the field records, which reach it through reflection.
   */
  class Slot {
    var value: Value

    constructor (value: Value)
      ensures this.value == value
    {
      this.value := value;
    }
  }

  /** A field of the configuration: its attributes and the slot it fills. */
  class Field {
    const kind: Kind
    var description: string
    var required: bool
    var found: bool
    var raw: string
    var longFlag: string
    var shortFlag: char
    var inverseLongFlag: string
    var inverseShortFlag: char
    var fileCategory: string
    var fileKey: string
    const slot: Slot

    function State(): FieldState
      reads this
    {
      FieldState(kind, description, required, found, raw, longFlag, shortFlag,
                 inverseLongFlag, inverseShortFlag, fileCategory, fileKey)
    }

    predicate Valid()
      reads this
    {
      WellNamed(State())
    }

    /** A record holding `state`, writing to `slot`: what newField allocates for a member of the struct. */
    constructor (state: FieldState, slot: Slot)
      requires WellNamed(state)
      ensures State() == state && this.slot == slot
      ensures Valid()
    {
      kind := state.kind;
      description := state.description;
      required := state.required;
      found := state.found;
      raw := state.raw;
      longFlag := state.longFlag;
      shortFlag := state.shortFlag;
      inverseLongFlag := state.inverseLongFlag;
      inverseShortFlag := state.inverseShortFlag;
      fileCategory := state.fileCategory;
      fileKey := state.fileKey;
      this.slot := slot;
    }

    /** Sets the usage text shown for the field. */
    method Usage(usage: string)
      modifies this
      ensures State() == old(State()).(description := usage)
    {
      description := usage;
    }

    method Required()
      modifies this
      ensures State() == old(State()).(required := true)
    {
      required := true;
    }

    method LongFlag(flag: string)
      modifies this
      ensures State() == old(State()).(longFlag := flag)
    {
      longFlag := flag;
    }

    /** Stores the flag first, then panics unless the field is boolean. */
    method InverseLongFlag(flag: string) returns (status: Option<Error>)
      modifies this
      ensures State() == old(State()).(inverseLongFlag := flag)
      ensures status == if kind == BoolKind then None
                        else Some(Panic("Only boolean fields may have inverse flags."))
    {
      inverseLongFlag := flag;
      if kind != BoolKind {
        return Some(Panic("Only boolean fields may have inverse flags."));
      }
      return None;
    }

    method ShortFlag(flag: char)
      modifies this
      ensures State() == old(State()).(shortFlag := flag)
    {
      shortFlag := flag;
    }

    /** Stores the flag first, then panics unless the field is boolean. */
    method InverseShortFlag(flag: char) returns (status: Option<Error>)
      modifies this
      ensures State() == old(State()).(inverseShortFlag := flag)
      ensures status == if kind == BoolKind then None
                        else Some(Panic("conflag: Only boolean fields may have inverse flags."))
    {
      inverseShortFlag := flag;
      if kind != BoolKind {
        return Some(Panic("conflag: Only boolean fields may have inverse flags."));
      }
      return None;
    }

    /** Panics, changing nothing, on a category holding `.`. */
    method FileCategory(category: string) returns (status: Option<Error>)
      requires Valid()
      modifies this
      ensures Valid()
      ensures '.' in category ==>
        status == Some(Panic("conflag: File category names cannot include '.'")) && State() == old(State())
      ensures '.' !in category ==>
        status == None && State() == old(State()).(fileCategory := category)
    {
      if Contains(category, '.') {
        return Some(Panic("conflag: File category names cannot include '.'"));
      }
      fileCategory := category;
      return None;
    }

    /** Panics, changing nothing, on a key holding `.`. */
    method FileKey(key: string) returns (status: Option<Error>)
      requires Valid()
      modifies this
      ensures Valid()
      ensures '.' in key ==>
        status == Some(Panic("File key names cannot include '.'")) && State() == old(State())
      ensures '.' !in key ==>
        status == None && State() == old(State()).(fileKey := key)
    {
      if Contains(key, '.') {
        return Some(Panic("File key names cannot include '.'"));
      }
      fileKey := key;
      return None;
    }
  }

  /** The fields of a configuration by registry key, as values. */
  type Registry = map<string, FieldState>

  /** Each key names its own record: updating one field leaves the others alone. */
  predicate Distinct(fields: map<string, Field>)
  {
    forall a, b :: a in fields && b in fields && a != b ==> fields[a] != fields[b]
  }

  function Snapshot(fields: map<string, Field>): (reg: Registry)
    reads fields.Values
    ensures reg.Keys == fields.Keys
  {
    map k | k in fields :: fields[k].State()
  }

  /** The ordered key list names registered fields only. */
  predicate Covers(reg: Registry, order: seq<string>)
  {
    forall i :: 0 <= i < |order| ==> order[i] in reg
  }

  /** The destination slots of the fields. */
  function Slots(fields: map<string, Field>): set<Slot>
  {
    set k | k in fields :: fields[k].slot
  }

  /** The destination slots, by registry key. */
  function Destinations(fields: map<string, Field>): (d: map<string, Value>)
    reads Slots(fields)
    ensures d.Keys == fields.Keys
  {
    map k | k in fields :: fields[k].slot.value
  }

  /** Records nothing changed give the same registry. */
  twostate lemma RecordsUntouched(fields: map<string, Field>)
    requires unchanged(fields.Values)
    ensures Snapshot(fields) == old(Snapshot(fields))
  {
  }

  /** Slots nothing changed hold the same values. */
  twostate lemma SlotsUntouched(fields: map<string, Field>)
    requires unchanged(Slots(fields))
    ensures Destinations(fields) == old(Destinations(fields))
  {
  }

  /**
   * One write of a reader: `Set` marks the field found with a raw value,
   * `Mark` marks it found and keeps the raw value it had.
   */
  datatype Action = Set(key: string, raw: string) | Mark(key: string)

  function Step(reg: Registry, a: Action): Registry
  {
    if a.key !in reg then reg
    else match a
      case Set(k, raw) => reg[k := reg[k].(found := true, raw := raw)]
      case Mark(k) => reg[k := reg[k].(found := true)]
  }

  /** The attributes no reader touches. */
  function Settings(f: FieldState): FieldState
  {
    f.(found := false, raw := "")
  }

  /** The actions performed in order. Only `found` and `raw` change. */
  function Apply(reg: Registry, actions: seq<Action>): (r: Registry)
    ensures r.Keys == reg.Keys
    ensures forall k :: k in r ==> Settings(r[k]) == Settings(reg[k])
    decreases |actions|
  {
    if actions == [] then reg
    else Step(Apply(reg, actions[..|actions| - 1]), actions[|actions| - 1])
  }

  /** Whether some action marks the field `k` found. */
  predicate Touches(actions: seq<Action>, k: string)
  {
    exists i :: 0 <= i < |actions| && actions[i].key == k
  }

  /** The raw value of the last `Set` on `k`, if there is one. */
  function LastRaw(actions: seq<Action>, k: string): (r: Option<string>)
    ensures r.Some? ==> Set(k, r.value) in actions
    ensures r.None? ==> forall v :: Set(k, v) !in actions
    decreases |actions|
  {
    if actions == [] then None
    else
      var a := actions[|actions| - 1];
      var rest := actions[..|actions| - 1];
      assert actions == rest + [a];
      if a.Set? && a.key == k then Some(a.raw) else LastRaw(rest, k)
  }

  /** An action appended at the end touches `k` iff it names `k` or an earlier one did. */
  lemma TouchesSnoc(actions: seq<Action>, a: Action, k: string)
    ensures Touches(actions + [a], k) == (Touches(actions, k) || a.key == k)
  {
    var all := actions + [a];
    if Touches(all, k) && a.key != k {
      var i :| 0 <= i < |all| && all[i].key == k;
      assert actions[i].key == k;
    }
    if Touches(actions, k) {
      var i :| 0 <= i < |actions| && actions[i].key == k;
      assert all[i].key == k;
    }
    if a.key == k {
      assert all[|actions|].key == k;
    }
  }

  /**
   * The state of one field after the actions: found when it was found
   * before or some action names it; its raw value is the last one set,
   * or the one it had.
   */
  lemma {:induction false} ApplyAt(reg: Registry, actions: seq<Action>, k: string)
    requires k in reg
    ensures Apply(reg, actions)[k].found == (reg[k].found || Touches(actions, k))
    ensures Apply(reg, actions)[k].raw == match LastRaw(actions, k)
                                           case Some(v) => v
                                           case None => reg[k].raw
    decreases |actions|
  {
    if actions != [] {
      var rest := actions[..|actions| - 1];
      var a := actions[|actions| - 1];
      assert actions == rest + [a];
      ApplyAt(reg, rest, k);
      TouchesSnoc(rest, a, k);
      ApplySnoc(reg, rest, a);
      LastRawSnoc(rest, a, k);
      var before := Apply(reg, rest);
      assert Step(before, a)[k] == if a.key == k then
        (if a.Set? then before[k].(found := true, raw := a.raw) else before[k].(found := true))
        else before[k];
    }
  }

  /** The last value set, with one more action at the end. */
  lemma LastRawSnoc(actions: seq<Action>, a: Action, k: string)
    ensures LastRaw(actions + [a], k) == if a.Set? && a.key == k then Some(a.raw) else LastRaw(actions, k)
  {
    assert (actions + [a])[..|actions|] == actions;
  }

  /** A field no action names keeps its whole state. */
  lemma Untouched(reg: Registry, actions: seq<Action>, k: string)
    requires k in reg && !Touches(actions, k)
    ensures Apply(reg, actions)[k] == reg[k]
  {
    ApplyAt(reg, actions, k);
  }

  /** Performing two runs of actions one after the other. */
  lemma {:induction false} ApplyConcat(reg: Registry, first: seq<Action>, second: seq<Action>)
    ensures Apply(reg, first + second) == Apply(Apply(reg, first), second)
    decreases |second|
  {
    if second == [] {
      assert first + second == first;
    } else {
      var last := second[|second| - 1];
      var init := second[..|second| - 1];
      assert second == init + [last];
      assert first + second == (first + init) + [last];
      ApplyConcat(reg, first, init);
      ApplySnoc(reg, first + init, last);
      ApplySnoc(Apply(reg, first), init, last);
    }
  }

  /** The last value set in two runs is the second run's, if it sets one. */
  lemma {:induction false} LastRawConcat(first: seq<Action>, second: seq<Action>, k: string)
    ensures LastRaw(first + second, k) == if LastRaw(second, k).Some? then LastRaw(second, k)
                                           else LastRaw(first, k)
    decreases |second|
  {
    if second == [] {
      assert first + second == first;
    } else {
      var all := first + second;
      assert all[..|all| - 1] == first + second[..|second| - 1];
      assert all[|all| - 1] == second[|second| - 1];
      LastRawConcat(first, second[..|second| - 1], k);
    }
  }

  /**
   * Two runs of actions, one after the other: the second run's last value
   * for `k` wins over the first's, and `k` is found if either run names it.
   */
  lemma LaterRunWins(reg: Registry, first: seq<Action>, second: seq<Action>, k: string)
    requires k in reg
    ensures var f := Apply(reg, first + second)[k];
            f.raw == (match LastRaw(second, k)
                      case Some(v) => v
                      case None =>
                        match LastRaw(first, k)
                        case Some(v) => v
                        case None => reg[k].raw)
            && f.found == (reg[k].found || Touches(first, k) || Touches(second, k))
  {
    ApplyAt(reg, first + second, k);
    LastRawConcat(first, second, k);
    TouchesConcat(first, second, k);
  }

  /** Some action of two runs names `k` iff one of the runs has one that does. */
  lemma TouchesConcat(first: seq<Action>, second: seq<Action>, k: string)
    ensures Touches(first + second, k) == (Touches(first, k) || Touches(second, k))
  {
    var all := first + second;
    if Touches(all, k) && !Touches(first, k) {
      var i :| 0 <= i < |all| && all[i].key == k;
      assert second[i - |first|].key == k;
    }
    if Touches(first, k) {
      var i :| 0 <= i < |first| && first[i].key == k;
      assert all[i].key == k;
    }
    if Touches(second, k) {
      var i :| 0 <= i < |second| && second[i].key == k;
      assert all[|first| + i].key == k;
    }
  }

  /** After any actions a field differs from before in `found` and `raw` at most. */
  lemma SettingsKept(reg: Registry, actions: seq<Action>, k: string)
    requires k in reg
    ensures var g := Apply(reg, actions)[k];
            g == reg[k].(found := g.found, raw := g.raw)
  {
    var g := Apply(reg, actions)[k];
    assert Settings(g) == Settings(reg[k]);
  }

  /** Performing one more action is one more step. */
  lemma ApplySnoc(reg: Registry, actions: seq<Action>, a: Action)
    ensures Apply(reg, actions + [a]) == Step(Apply(reg, actions), a)
  {
    assert (actions + [a])[..|actions|] == actions;
  }

  /** Performs one action on the field records, as the readers do. */
  method Perform(fields: map<string, Field>, a: Action)
    requires Distinct(fields)
    modifies fields.Values
    ensures Snapshot(fields) == Step(old(Snapshot(fields)), a)
  {
    if a.key in fields {
      var f := fields[a.key];
      f.found := true;
      if a.Set? {
        f.raw := a.raw;
      }
    }
  }
}
