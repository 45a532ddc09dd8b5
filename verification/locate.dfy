/**
 * Choosing the config-file source (find_config_file.go, findConfigFile).
 *
 * The argument list is scanned from the end for the config-file flag. A
 * second occurrence is an error, and so is a flag with nothing after it.
 * The flag and its value are removed from the arguments. The value is
 * then the file to open, and it supersedes a default reader or default
 * file name. `Locate` is the scan and the choice it leads to. The
 * `Config.FindConfigFile` method carries the plan out: it closes the
 * default reader and opens the file.
 */
module Locate {
  import opened Wrappers
  import opened Fields
  import opened Sources

  /** The config's file settings: a default reader or file name, and the file flags. */
  datatype FileSettings = FileSettings(hasReader: bool, fileName: string, shortFlag: char, longFlag: string)

  /** `-c` for a set short flag, "" for an unset one, as the code spells them. */
  function ShortSpelling(c: char): string
  {
    if c != NoRune then ['-', c] else ""
  }

  /** `--name` for a set long flag, "" for an unset one, as the code spells them. */
  function LongSpelling(l: string): string
  {
    if l != "" then "--" + l else ""
  }

  predicate Armed(s: FileSettings)
  {
    s.shortFlag != NoRune || s.longFlag != ""
  }

  /** The comparison the code makes: the empty spelling of an unset flag takes part too. */
  predicate MatchesAsWritten(token: string, s: FileSettings)
  {
    token == LongSpelling(s.longFlag) || token == ShortSpelling(s.shortFlag)
  }

  /** A token naming one of the flags that are set. */
  predicate Matches(token: string, s: FileSettings)
  {
    (s.longFlag != "" && token == "--" + s.longFlag) || (s.shortFlag != NoRune && token == ['-', s.shortFlag])
  }

  predicate Hit(token: string, s: FileSettings, strict: bool)
  {
    if strict then Matches(token, s) else MatchesAsWritten(token, s)
  }

  /** Where the backward scan ends. */
  datatype Scan = Scanned(args: seq<string>, fileName: string, found: bool) | Duplicate | Missing

  /**
   * The loop of findConfigFile standing at index `i`, with what it has
   * found so far; a hit removes the flag and its value and goes on below.
   */
  function ScanBack(args: seq<string>, i: int, found: bool, fileName: string, s: FileSettings, strict: bool): Scan
    requires -1 <= i < |args|
    decreases i + 1
  {
    if i < 0 then Scanned(args, fileName, found)
    else if Hit(args[i], s, strict) then
      if found then Duplicate
      else if i + 1 > |args| - 1 then Missing
      else ScanBack(args[..i] + args[i + 2..], i - 1, true, args[i + 1], s, strict)
    else ScanBack(args, i - 1, found, fileName, s, strict)
  }

  /** The source findConfigFile settles on. */
  datatype Choice = NoSource | DefaultReader | OpenPath(path: string, flagged: bool)

  datatype Selection = Selection(choice: Choice, args: seq<string>)

  /** Whether the default reader is to be closed, and the selection or the error. */
  datatype Plan = Plan(closeDefault: bool, result: Result<Selection, Error>)

  /** The final `if` of findConfigFile: a flagged name, or a default name without a default reader, is opened. */
  function Choose(hasReader: bool, name: string, found: bool, args: seq<string>): Plan
  {
    if (!hasReader && name != "") || found then Plan(hasReader, Ok(Selection(OpenPath(name, found), args)))
    else Plan(false, Ok(Selection(if hasReader then DefaultReader else NoSource, args)))
  }

  function LocateWith(s: FileSettings, args: seq<string>, strict: bool): Plan
  {
    if !Armed(s) then Choose(s.hasReader, s.fileName, false, args)
    else match ScanBack(args, |args| - 1, false, s.fileName, s, strict)
      case Duplicate => Plan(s.hasReader, Err(Fail("conflag: Duplicate config file flags")))
      case Missing => Plan(false, Err(Fail("conflag: Missing config file name")))
      case Scanned(rest, name, found) => Choose(s.hasReader, name, found, rest)
  }

  /** findConfigFile's scan as written. */
  function LocateAsWritten(s: FileSettings, args: seq<string>): Plan
  {
    LocateWith(s, args, false)
  }

  /** findConfigFile's scan, comparing only with the flags that are set. */
  function Locate(s: FileSettings, args: seq<string>): Plan
  {
    LocateWith(s, args, true)
  }

  /** The source used when no flag names a file. */
  function DefaultChoice(s: FileSettings): Choice
  {
    if s.hasReader then DefaultReader else if s.fileName != "" then OpenPath(s.fileName, false) else NoSource
  }

  /** Tokens that are not flags are passed over. */
  lemma {:induction false} ScanSkip(args: seq<string>, i: int, j: int, found: bool, name: string, s: FileSettings)
    requires -1 <= j <= i < |args|
    requires forall t :: j < t <= i ==> !Matches(args[t], s)
    ensures ScanBack(args, i, found, name, s, true) == ScanBack(args, j, found, name, s, true)
    decreases i - j
  {
    if j < i {
      ScanSkip(args, i - 1, j, found, name, s);
    }
  }

  /** With no flag among the arguments, they come back unchanged and the default source is used. */
  lemma NoFlagGiven(s: FileSettings, args: seq<string>)
    requires forall t :: 0 <= t < |args| ==> !Matches(args[t], s)
    ensures !Locate(s, args).closeDefault
    ensures Locate(s, args).result == Ok(Selection(DefaultChoice(s), args))
  {
    if Armed(s) {
      ScanSkip(args, |args| - 1, -1, false, s.fileName, s);
    }
  }

  /**
   * One flag followed by a value: the value is the file to open, the
   * default reader is closed, and the pair is removed from the arguments,
   * which otherwise keep their order.
   */
  lemma FlagGiven(s: FileSettings, before: seq<string>, flag: string, value: string, after: seq<string>)
    requires Matches(flag, s) && !Matches(value, s)
    requires forall t :: 0 <= t < |before| ==> !Matches(before[t], s)
    requires forall t :: 0 <= t < |after| ==> !Matches(after[t], s)
    ensures Locate(s, before + [flag, value] + after)
            == Plan(s.hasReader, Ok(Selection(OpenPath(value, true), before + after)))
  {
    var args := before + [flag, value] + after;
    var p := |before|;
    assert Armed(s);
    ScanSkip(args, |args| - 1, p, false, s.fileName, s);
    assert args[p] == flag && args[p + 1] == value;
    var rest := args[..p] + args[p + 2..];
    assert rest == before + after;
    ScanSkip(rest, p - 1, -1, true, value, s);
  }

  /** A flag that is the last argument has no file name after it. */
  lemma FlagLast(s: FileSettings, before: seq<string>, flag: string)
    requires Matches(flag, s)
    ensures Locate(s, before + [flag]) == Plan(false, Err(Fail("conflag: Missing config file name")))
  {
    var args := before + [flag];
    assert args[|args| - 1] == flag;
  }

  /**
   * Two flags, each with a value, fail with the duplicate error and close
   * the default reader, whatever comes before the first.
   */
  lemma FlagTwice(s: FileSettings, before: seq<string>, first: string, v1: string,
                  between: seq<string>, second: string, v2: string, after: seq<string>)
    requires Matches(first, s) && Matches(second, s) && !Matches(v1, s) && !Matches(v2, s)
    requires forall t :: 0 <= t < |between| ==> !Matches(between[t], s)
    requires forall t :: 0 <= t < |after| ==> !Matches(after[t], s)
    ensures Locate(s, before + [first, v1] + between + [second, v2] + after)
            == Plan(s.hasReader, Err(Fail("conflag: Duplicate config file flags")))
  {
    var args := before + [first, v1] + between + [second, v2] + after;
    var q := |before| + 2 + |between|;
    assert Armed(s);
    ScanSkip(args, |args| - 1, q, false, s.fileName, s);
    assert args[q] == second && args[q + 1] == v2;
    var rest := args[..q] + args[q + 2..];
    assert rest == before + [first, v1] + between + after;
    var p := |before|;
    ScanSkip(rest, q - 1, p, true, v2, s);
    assert rest[p] == first;
  }

  /**
   * With only the short flag `c` set, the code compares each argument with
   * the unset long flag's spelling "", so an empty argument is taken as the
   * config-file flag and the next one as a file name. Comparing only with
   * the flags that are set leaves both arguments alone.
   */
  lemma EmptyArgumentTakenAsFlag()
    ensures LocateAsWritten(FileSettings(false, "", 'c', ""), ["", "settings.ini"])
            == Plan(false, Ok(Selection(OpenPath("settings.ini", true), [])))
    ensures Locate(FileSettings(false, "", 'c', ""), ["", "settings.ini"])
            == Plan(false, Ok(Selection(NoSource, ["", "settings.ini"])))
  {
    var args: seq<string> := ["", "settings.ini"];
    var s := FileSettings(false, "", 'c', "");
    assert !MatchesAsWritten(args[1], s);
    assert MatchesAsWritten(args[0], s);
    assert args[..0] + args[2..] == [];
    NoFlagGiven(s, args);
  }

  /** os.Open as the code calls it: every failure is returned. */
  function OpenAsWritten(sel: Selection, disk: Disk): Result<Selection, Error>
  {
    match sel.choice
    case OpenPath(p, _) => if p in disk.files then Ok(sel) else Err(OpenFailed(p))
    case _ => Ok(sel)
  }

  /**
   * os.Open as ConfigFile documents it: a default file name that cannot be
   * opened is ignored; a name given by flag that cannot be opened is an error.
   */
  function Open(sel: Selection, disk: Disk): (r: Result<Selection, Error>)
    ensures r.Err? <==> sel.choice.OpenPath? && sel.choice.flagged && sel.choice.path !in disk.files
    ensures r.Ok? && r.value.choice.OpenPath? ==> r.value.choice.path in disk.files
    ensures r.Ok? ==> r.value.args == sel.args
  {
    match sel.choice
    case OpenPath(p, flagged) =>
      if p in disk.files then Ok(sel)
      else if flagged then Err(OpenFailed(p))
      else Ok(Selection(NoSource, sel.args))
    case _ => Ok(sel)
  }

  /**
   * A default file name that does not exist: the code returns the open
   * error, so Read fails even when no config file is required; as
   * documented, the file is ignored and there is no source.
   */
  lemma MissingDefaultFile(path: string, args: seq<string>, disk: Disk)
    requires path != "" && path !in disk.files
    ensures Locate(FileSettings(false, path, NoRune, ""), args).result == Ok(Selection(OpenPath(path, false), args))
    ensures OpenAsWritten(Selection(OpenPath(path, false), args), disk) == Err(OpenFailed(path))
    ensures Open(Selection(OpenPath(path, false), args), disk) == Ok(Selection(NoSource, args))
  {
  }
}
