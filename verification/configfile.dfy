/**
 * The config-file parser (config_file.go): readConfigFile and
 * buildConfigFileIndex.
 *
 * After trimming, a line is one of four things:
 * - blank or a `#` comment, which is skipped;
 * - a `[category]` header;
 * - a `key = value` entry split at the first `=`;
 * - malformed.
 *
 * An entry names a field through the index `category.key` (or `key`
 * outside any category). It marks that field found, with the value.
 * `ParseFrom` is the specification, as the actions it performs and the
 * error it stops with. `ReadConfigFile` is the loop, proved to perform
 * exactly those actions.
 */
module ConfigFile {
  import opened Wrappers
  import opened Text
  import opened Fields
  import opened Sources

  /** The name a field is found under in the file: `category.key`, or `key` without a category. */
  function LookupKey(f: FieldState): string
  {
    if f.fileCategory != "" then f.fileCategory + "." + f.fileKey else f.fileKey
  }

  /**
   * buildConfigFileIndex over the fields in `order`: every field with a
   * file key is found under its lookup key; of two fields with the same
   * lookup key the later one is kept.
   */
  function FileIndex(reg: Registry, order: seq<string>): (index: map<string, string>)
    requires Covers(reg, order)
    ensures forall lk :: lk in index ==>
      index[lk] in order && reg[index[lk]].fileKey != "" && LookupKey(reg[index[lk]]) == lk
    ensures forall i :: 0 <= i < |order| && reg[order[i]].fileKey != "" ==> LookupKey(reg[order[i]]) in index
    decreases |order|
  {
    if order == [] then map[]
    else
      var init := order[..|order| - 1];
      var k := order[|order| - 1];
      assert order == init + [k];
      var index := FileIndex(reg, init);
      if reg[k].fileKey != "" then index[LookupKey(reg[k]) := k] else index
  }

  /** What a trimmed line is. */
  datatype Line = Blank | Header(category: string) | Entry(key: string, value: string) | Malformed(text: string)

  function ClassifyLine(line: string): Line
  {
    Classify(Trim(line))
  }

  /** What a line is, once trimmed to `t`. */
  function Classify(t: string): Line
  {
    if |t| == 0 || t[0] == '#' then Blank
    else if t[0] == '[' && t[|t| - 1] == ']' then Header(Trim(t[1..|t| - 1]))
    else match IndexOf(t, '=')
      case None => Malformed(t)
      case Some(i) => Entry(Trim(t[..i]), Trim(t[i + 1..]))
  }

  /** The name an entry is looked up under, given the current category. */
  function Qualified(category: string, key: string): string
  {
    if category != "" then category + "." + key else key
  }

  /** The actions performed, and the error the parse stopped with, if any. */
  datatype FileParse = FileParse(actions: seq<Action>, err: Option<Error>)

  /**
   * The parse of the lines from `i` on, under the category in force,
   * after the actions `done` of the lines before.
   */
  function ParseFrom(lines: seq<string>, i: nat, category: string, index: map<string, string>,
                     done: seq<Action>): (p: FileParse)
    requires i <= |lines|
    decreases |lines| - i
  {
    if i == |lines| then FileParse(done, None)
    else match ClassifyLine(lines[i])
      case Blank => ParseFrom(lines, i + 1, category, index, done)
      case Header(c) => ParseFrom(lines, i + 1, c, index, done)
      case Malformed(t) => FileParse(done, Some(Fail("Invalid configuration line: " + t)))
      case Entry(key, value) =>
        var lk := Qualified(category, key);
        if lk !in index then FileParse(done, Some(Fail("Invalid configuration file key: " + lk)))
        else ParseFrom(lines, i + 1, category, index, done + [Set(index[lk], value)])
  }

  /** The parse performs the actions before it and otherwise only writes fields the index names. */
  lemma {:induction false} ParsedKeys(lines: seq<string>, i: nat, category: string, index: map<string, string>,
                                      done: seq<Action>)
    requires i <= |lines|
    ensures forall a :: a in ParseFrom(lines, i, category, index, done).actions ==>
              a in done || (a.Set? && a.key in index.Values)
    decreases |lines| - i
  {
    if i < |lines| {
      match ClassifyLine(lines[i]) {
        case Blank => ParsedKeys(lines, i + 1, category, index, done);
        case Header(c) => ParsedKeys(lines, i + 1, c, index, done);
        case Malformed(_) =>
        case Entry(key, value) =>
          var lk := Qualified(category, key);
          if lk in index {
            ParsedKeys(lines, i + 1, category, index, done + [Set(index[lk], value)]);
          }
      }
    }
  }

  /** readConfigFile's whole effect: the file read from the top, with no category. */
  function ParseFile(lines: seq<string>, index: map<string, string>): FileParse
  {
    ParseFrom(lines, 0, "", index, [])
  }

  /** The category in force at line `j`: that of the last header above it, none before the first. */
  function CategoryAt(lines: seq<string>, j: nat): string
    requires j <= |lines|
  {
    if j == 0 then ""
    else match ClassifyLine(lines[j - 1])
      case Header(c) => c
      case _ => CategoryAt(lines, j - 1)
  }

  /** Line `j` stops the parse: it is malformed, or an entry whose qualified key is not indexed. */
  predicate Offending(lines: seq<string>, index: map<string, string>, j: nat)
    requires j < |lines|
  {
    match ClassifyLine(lines[j])
    case Malformed(_) => true
    case Entry(key, _) => Qualified(CategoryAt(lines, j), key) !in index
    case _ => false
  }

  /** The error an offending line is reported with. */
  function LineError(lines: seq<string>, index: map<string, string>, j: nat): Error
    requires j < |lines| && Offending(lines, index, j)
  {
    match ClassifyLine(lines[j])
    case Entry(key, _) => Fail("Invalid configuration file key: " + Qualified(CategoryAt(lines, j), key))
    case _ => Fail("Invalid configuration line: " + Trim(lines[j]))
  }

  /** No line from `i` on is offending. */
  predicate NoneOffending(lines: seq<string>, index: map<string, string>, i: nat)
    requires i <= |lines|
  {
    forall j :: i <= j < |lines| ==> !Offending(lines, index, j)
  }

  /** The lines from `i` on are clean exactly when line `i` and those after it are. */
  lemma NoneOffendingStep(lines: seq<string>, index: map<string, string>, i: nat)
    requires i < |lines|
    ensures NoneOffending(lines, index, i) <==> !Offending(lines, index, i) && NoneOffending(lines, index, i + 1)
  {
  }

  /**
   * The parse from line `i`, under the category in force there, stops
   * with no error exactly when no line from `i` on is offending.
   */
  lemma {:induction false} ParseFromSucceeds(lines: seq<string>, i: nat, index: map<string, string>, done: seq<Action>)
    requires i <= |lines|
    ensures ParseFrom(lines, i, CategoryAt(lines, i), index, done).err.None? <==> NoneOffending(lines, index, i)
    decreases |lines| - i
  {
    if i < |lines| {
      var category := CategoryAt(lines, i);
      var line := ClassifyLine(lines[i]);
      NoneOffendingStep(lines, index, i);
      if line.Blank? || line.Header? {
        ParseFromSucceeds(lines, i + 1, index, done);
      } else if line.Entry? && Qualified(category, line.key) in index {
        ParseFromSucceeds(lines, i + 1, index, done + [Set(index[Qualified(category, line.key)], line.value)]);
      }
    }
  }

  /** The actions after line `i`, which is not offending, given the actions `done` before it. */
  function DoneAfter(lines: seq<string>, i: nat, index: map<string, string>, done: seq<Action>): seq<Action>
    requires i < |lines| && !Offending(lines, index, i)
  {
    match ClassifyLine(lines[i])
    case Entry(key, value) => done + [Set(index[Qualified(CategoryAt(lines, i), key)], value)]
    case _ => done
  }

  /** A line that is not offending passes the parse on to the next line. */
  lemma ParseFromPasses(lines: seq<string>, i: nat, index: map<string, string>, done: seq<Action>)
    requires i < |lines| && !Offending(lines, index, i)
    ensures ParseFrom(lines, i, CategoryAt(lines, i), index, done)
            == ParseFrom(lines, i + 1, CategoryAt(lines, i + 1), index, DoneAfter(lines, i, index, done))
  {
  }

  /** The error the parse stops with after a line that is not offending is the one after it. */
  lemma ParseFromPassesError(lines: seq<string>, i: nat, index: map<string, string>, done: seq<Action>,
                             e: Option<Error>)
    requires i < |lines| && !Offending(lines, index, i)
    requires ParseFrom(lines, i + 1, CategoryAt(lines, i + 1), index, DoneAfter(lines, i, index, done)).err == e
    ensures ParseFrom(lines, i, CategoryAt(lines, i), index, done).err == e
  {
    ParseFromPasses(lines, i, index, done);
  }

  /** An offending line stops the parse with its error. */
  lemma ParseFromStops(lines: seq<string>, i: nat, index: map<string, string>, done: seq<Action>)
    requires i < |lines| && Offending(lines, index, i)
    ensures ParseFrom(lines, i, CategoryAt(lines, i), index, done).err == Some(LineError(lines, index, i))
  {
    var line := ClassifyLine(lines[i]);
    if line.Malformed? {
      assert line.text == Trim(lines[i]);
    }
  }

  /** No line from `i` up to, not including, `j` is offending. */
  predicate CleanBetween(lines: seq<string>, index: map<string, string>, i: nat, j: nat)
    requires j <= |lines|
    decreases j - i
  {
    i >= j || (!Offending(lines, index, i) && CleanBetween(lines, index, i + 1, j))
  }

  /** CleanBetween says of each line in the range that it is not offending. */
  lemma {:induction false} CleanBetweenAll(lines: seq<string>, index: map<string, string>, i: nat, j: nat)
    requires j <= |lines|
    requires forall m :: i <= m < j ==> !Offending(lines, index, m)
    ensures CleanBetween(lines, index, i, j)
    decreases j - i
  {
    if i < j {
      CleanBetweenAll(lines, index, i + 1, j);
    }
  }

  /** The parse from line `i` stops with the error of the first offending line from `i` on. */
  lemma {:induction false} ParseFromFirstError(lines: seq<string>, i: nat, index: map<string, string>,
                                               done: seq<Action>, j: nat)
    requires i <= j < |lines| && Offending(lines, index, j)
    requires CleanBetween(lines, index, i, j)
    ensures ParseFrom(lines, i, CategoryAt(lines, i), index, done).err == Some(LineError(lines, index, j))
    decreases j - i
  {
    if i < j {
      ParseFromFirstError(lines, i + 1, index, DoneAfter(lines, i, index, done), j);
      ParseFromPassesError(lines, i, index, done, Some(LineError(lines, index, j)));
    } else {
      ParseFromStops(lines, i, index, done);
    }
  }

  /**
   * readConfigFile fails exactly when some line is malformed or names an
   * unindexed key, and then with "Invalid configuration line: " and the
   * trimmed line, or "Invalid configuration file key: " and the qualified
   * key, of the first such line.
   */
  lemma ParseErrors(lines: seq<string>, index: map<string, string>)
    ensures ParseFile(lines, index).err.None? <==> forall j :: 0 <= j < |lines| ==> !Offending(lines, index, j)
    ensures forall j :: 0 <= j < |lines| && Offending(lines, index, j)
                        && (forall m :: 0 <= m < j ==> !Offending(lines, index, m))
                        ==> ParseFile(lines, index).err == Some(LineError(lines, index, j))
  {
    ParseFromSucceeds(lines, 0, index, []);
    forall j | 0 <= j < |lines| && Offending(lines, index, j) && (forall m :: 0 <= m < j ==> !Offending(lines, index, m))
      ensures ParseFile(lines, index).err == Some(LineError(lines, index, j))
    {
      CleanBetweenAll(lines, index, 0, j);
      ParseFromFirstError(lines, 0, index, [], j);
    }
  }

  /** A line indented by two tabs trims to its text. */
  lemma TabbedLine(t: string)
    requires t != [] && !IsSpace(t[0]) && !IsSpace(t[|t| - 1])
    ensures Trim("\t\t" + t) == t
  {
    var s := "\t\t" + t;
    assert s[1..][1..] == t;
    assert TrimLeft(s) == TrimLeft(t) == t;
    TrimTrimmed(t);
  }

  /** A file that opens with a blank line and a tabbed comment is parsed from its third line on. */
  lemma AfterComment(comment: string, line: string, index: map<string, string>)
    requires comment != [] && comment[0] == '#' && !IsSpace(comment[|comment| - 1])
    ensures var lines := ["", "\t\t" + comment, line];
            ParseFile(lines, index) == ParseFrom(lines, 2, "", index, [])
  {
    var lines := ["", "\t\t" + comment, line];
    TabbedLine(comment);
    assert ClassifyLine(lines[1]) == Blank;
    assert ParseFrom(lines, 1, "", index, []) == ParseFrom(lines, 2, "", index, []);
  }

  /**
   * A line without `=` is reported whole, trimmed: the file of
   * config_file_test.go, TestInvalidConfigLineFails, a blank line, a
   * comment and `uint_field 50`, each indented by two tabs.
   */
  lemma InvalidLineExample(comment: string, line: string, index: map<string, string>)
    requires comment == "# Commented out line" && line == "uint_field 50"
    ensures ParseFile(["", "\t\t" + comment, "\t\t" + line], index).err
            == Some(Fail("Invalid configuration line: " + line))
  {
    var lines := ["", "\t\t" + comment, "\t\t" + line];
    AfterComment(comment, lines[2], index);
    TabbedLine(line);
    assert '=' !in line;
    assert ClassifyLine(lines[2]) == Malformed(line);
  }

  /**
   * An entry whose key no field has is reported with the key: the file of
   * config_file_test.go, TestInvalidKeyFails, where `uint_fied = 50`
   * misspells a field's key.
   */
  lemma InvalidKeyExample(comment: string, key: string, value: string, index: map<string, string>)
    requires comment == "# Commented out line" && key == "uint_fied" && value == "50"
    requires key !in index
    ensures ParseFile(["", "\t\t" + comment, "\t\t" + key + " = " + value], index).err
            == Some(Fail("Invalid configuration file key: " + key))
  {
    var lines := ["", "\t\t" + comment, "\t\t" + key + " = " + value];
    AfterComment(comment, lines[2], index);
    assert '=' !in key;
    TabbedSpacedEntry(key, value);
    assert Qualified("", key) == key;
  }

  /** A `key = value` line indented by two tabs is the entry of that key and value. */
  lemma TabbedSpacedEntry(key: string, value: string)
    requires key != [] && !IsSpace(key[0]) && !IsSpace(key[|key| - 1]) && key[0] != '#' && key[0] != '['
    requires '=' !in key
    requires value != [] && !IsSpace(value[0]) && !IsSpace(value[|value| - 1])
    ensures ClassifyLine("\t\t" + key + " = " + value) == Entry(key, value)
  {
    var line := key + " = " + value;
    assert "\t\t" + key + " = " + value == "\t\t" + line;
    assert line[0] == key[0] && line[|line| - 1] == value[|value| - 1];
    TabbedLine(line);
    TrimTrimmed(line);
    SpacedEntry(key, value);
  }

  /** `key = value`, with one space on each side of the `=`, is the entry of that key and value. */
  lemma SpacedEntry(key: string, value: string)
    requires key != [] && !IsSpace(key[0]) && !IsSpace(key[|key| - 1]) && key[0] != '#' && key[0] != '['
    requires '=' !in key
    requires value != [] && !IsSpace(value[0]) && !IsSpace(value[|value| - 1])
    ensures ClassifyLine(key + " = " + value) == Entry(key, value)
  {
    var k := key + " ";
    var v := " " + value;
    assert key + " = " + value == k + "=" + v;
    assert k[0] == key[0];
    EntryLine(k, v);
    assert Trim(k) == key by {
      TrimTrimmed(key);
      assert k[..|k| - 1] == key;
    }
    assert Trim(v) == value by {
      TrimTrimmed(value);
      assert v[1..] == value;
    }
  }

  /**
   * An entry line splits at its first `=`; any later `=` stays in the
   * value, and key and value are trimmed.
   */
  lemma EntryLine(key: string, value: string)
    requires key != [] && !IsSpace(key[0]) && key[0] != '#' && key[0] != '['
    requires '=' !in key
    requires value == [] || !IsSpace(value[|value| - 1])
    ensures ClassifyLine(key + "=" + value) == Entry(Trim(key), Trim(value))
  {
    var t := key + "=" + value;
    assert t[0] == key[0];
    assert !IsSpace(t[|t| - 1]);
    TrimTrimmed(t);
    IndexAfter(key, '=', value);
    EntryAt(t, |key|);
  }

  /** A line that is no comment and no header, with its first `=` at `i`, is the entry split there. */
  lemma EntryAt(t: string, i: nat)
    requires t != [] && t[0] != '#' && t[0] != '['
    requires IndexOf(t, '=') == Some(i) && i < |t|
    ensures Classify(t) == Entry(Trim(t[..i]), Trim(t[i + 1..]))
  {
  }

  /** A bracketed line names the category inside the brackets, trimmed; `[]` leaves none. */
  lemma HeaderLine(name: string)
    ensures ClassifyLine("[" + name + "]") == Header(Trim(name))
  {
    var t := ['['] + name + [']'];
    assert t == "[" + name + "]";
    assert t[0] == '[' && t[|t| - 1] == ']';
    assert !IsSpace(t[0]) && !IsSpace(t[|t| - 1]);
    TrimTrimmed(t);
    assert t[1..|t| - 1] == name;
  }

  /** A comment line is skipped. */
  lemma CommentLine(text: string)
    ensures ClassifyLine("#" + text) == Blank
  {
    var t := "#" + text;
    assert !IsSpace(t[0]);
    assert TrimLeft(t) == t;
    TrimRightDrops(t);
  }

  /**
   * Only fields the index points to are touched: a field outside it keeps
   * its whole state, `found` included.
   */
  lemma OnlyIndexedFieldsChange(reg: Registry, lines: seq<string>, index: map<string, string>, k: string)
    requires k in reg && k !in index.Values
    ensures Apply(reg, ParseFile(lines, index).actions)[k] == reg[k]
  {
    var acts := ParseFile(lines, index).actions;
    ParsedKeys(lines, 0, "", index, []);
    assert !Touches(acts, k) by {
      forall i | 0 <= i < |acts| ensures acts[i].key != k {
        assert acts[i] in acts;
      }
    }
    Untouched(reg, acts, k);
  }

  /**
   * A field named by several entries ends with the value of the last one,
   * and is found exactly when some entry names it.
   */
  lemma LastEntryWins(reg: Registry, lines: seq<string>, index: map<string, string>, k: string)
    requires k in reg
    ensures var acts := ParseFile(lines, index).actions;
            Apply(reg, acts)[k].found == (reg[k].found || Touches(acts, k))
            && Apply(reg, acts)[k].raw == match LastRaw(acts, k)
                                           case Some(v) => v
                                           case None => reg[k].raw
  {
    ApplyAt(reg, ParseFile(lines, index).actions, k);
  }

  /** buildConfigFileIndex: a loop over the fields, filling a map. */
  method BuildConfigFileIndex(fields: map<string, Field>, order: seq<string>) returns (index: map<string, string>)
    requires Covers(Snapshot(fields), order)
    ensures index == FileIndex(Snapshot(fields), order)
  {
    ghost var reg := Snapshot(fields);
    index := map[];
    var i := 0;
    while i < |order|
      invariant 0 <= i <= |order|
      invariant index == FileIndex(reg, order[..i])
    {
      var k := order[i];
      assert order[..i + 1][..i] == order[..i];
      var f := fields[k];
      if f.fileKey != "" {
        var key := f.fileKey;
        if f.fileCategory != "" {
          key := f.fileCategory + "." + key;
        }
        index := index[key := k];
      }
      i := i + 1;
    }
    assert order[..i] == order;
  }

  /**
   * The loop of readConfigFile: the lines are read in order, the current
   * category carried from line to line, and the first line that is
   * malformed or names no field stops the read.
   */
  method ReadLines(fields: map<string, Field>, lines: seq<string>, index: map<string, string>)
    returns (err: Option<Error>)
    requires Distinct(fields)
    modifies fields.Values
    ensures var p := ParseFile(lines, index);
            err == p.err && Snapshot(fields) == Apply(old(Snapshot(fields)), p.actions)
  {
    ghost var reg := Snapshot(fields);
    ghost var whole := ParseFile(lines, index);
    ghost var done: seq<Action> := [];
    var category := "";
    var i := 0;
    while i < |lines|
      invariant 0 <= i <= |lines|
      invariant ParseFrom(lines, i, category, index, done) == whole
      invariant Snapshot(fields) == Apply(reg, done)
    {
      match ClassifyLine(lines[i]) {
        case Blank =>
          assert ParseFrom(lines, i + 1, category, index, done) == whole;
        case Header(c) =>
          assert ParseFrom(lines, i + 1, c, index, done) == whole;
          category := c;
        case Malformed(line) =>
          assert whole == FileParse(done, Some(Fail("Invalid configuration line: " + line)));
          return Some(Fail("Invalid configuration line: " + line));
        case Entry(name, value) =>
          var key := Qualified(category, name);
          if key !in index {
            assert whole == FileParse(done, Some(Fail("Invalid configuration file key: " + key)));
            return Some(Fail("Invalid configuration file key: " + key));
          }
          var a := Set(index[key], value);
          assert ParseFrom(lines, i + 1, category, index, done + [a]) == whole;
          Perform(fields, a);
          ApplySnoc(reg, done, a);
          done := done + [a];
      }
      i := i + 1;
    }
    assert whole == FileParse(done, None);
    return None;
  }

  /**
   * readConfigFile: the index is built from the fields, the lines read,
   * and the reader closed only when every line was accepted.
   */
  method ReadConfigFile(fields: map<string, Field>, order: seq<string>, src: Source) returns (err: Option<Error>)
    requires Distinct(fields) && Covers(Snapshot(fields), order)
    modifies fields.Values, src
    ensures var p := ParseFile(src.lines, FileIndex(old(Snapshot(fields)), order));
            err == p.err && Snapshot(fields) == Apply(old(Snapshot(fields)), p.actions)
    ensures src.closed == (old(src.closed) || (err.None? && src.closable))
    ensures Destinations(fields) == old(Destinations(fields))
  {
    var index := BuildConfigFileIndex(fields, order);
    err := ReadLines(fields, src.lines, index);
    label Read:
    if err.None? {
      src.CloseIfCloser();
    }
    RecordsUntouched@Read(fields);
    SlotsUntouched(fields);
  }
}
