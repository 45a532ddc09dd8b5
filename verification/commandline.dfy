/**
 * The command-line reader (command_line.go): buildFlagIndices and
 * readCommandLineFlags.
 *
 * The flag indexes map each short flag (a rune) and each long flag to
 * the key of the field that binds it. A flag bound twice is a panic. The
 * tokens are read left to right:
 * - `--name` is a long flag;
 * - `-xyz` is a run of short flags (so `--` alone names the short flag `-`);
 * - anything else is an extra argument.
 * A boolean flag sets "true", or "false" for the inverse flag. A flag of
 * another kind takes the next token as its raw value. All such flags in
 * one run share that one token.
 *
 * Strings are sequences of runes. The byte-length tests of the code,
 * made on tokens that start with the one-byte `-`, agree with rune
 * lengths.
 */
module CommandLine {
  import opened Wrappers
  import opened Fields

  /** The two maps of buildFlagIndices: field keys by short flag and by long flag. */
  datatype FlagIndex = FlagIndex(short: map<char, string>, long: map<string, string>)

  predicate Unique<K(==,!new)>(s: seq<K>)
  {
    forall i, j :: 0 <= i < j < |s| ==> s[i] != s[j]
  }

  /** The flags that are set: the zero rune and the empty string bind nothing. */
  function Bound<K(==,!new)>(flags: seq<K>, unset: K): (b: seq<K>)
    ensures forall x :: x in b <==> x in flags && x != unset
    decreases |flags|
  {
    if flags == [] then []
    else
      var last := flags[|flags| - 1];
      assert flags == flags[..|flags| - 1] + [last];
      Bound(flags[..|flags| - 1], unset) + (if last != unset then [last] else [])
  }

  function ShortTwice(c: char): Error
  {
    Panic("conflag: Short flag " + [c] + " used twice")
  }

  function LongTwice(l: string): Error
  {
    Panic("conflag: Long flag " + l + " used twice")
  }

  /**
   * One inner loop of buildFlagIndices: the set flags among `flags` are
   * bound to the field `k`, and a flag already bound panics.
   */
  function Bind<K(==,!new)>(m: map<K, string>, flags: seq<K>, unset: K, k: string, twice: K -> Error)
    : (r: Result<map<K, string>, Error>)
    ensures r.Ok? ==> forall x :: x in r.value <==> x in m || x in Bound(flags, unset)
    ensures r.Ok? ==> forall x :: x in r.value ==> r.value[x] == if x in m then m[x] else k
    decreases |flags|
  {
    if flags == [] then Ok(m)
    else
      match Bind(m, flags[..|flags| - 1], unset, k, twice)
      case Err(e) => Err(e)
      case Ok(bound) =>
        var x := flags[|flags| - 1];
        if x == unset then Ok(bound)
        else if x in bound then Err(twice(x))
        else Ok(bound[x := k])
  }

  /** The short flags of the fields in `order`, in the order buildFlagIndices meets them. */
  function ShortFlags(reg: Registry, order: seq<string>): seq<char>
    requires Covers(reg, order)
    decreases |order|
  {
    if order == [] then []
    else
      var f := reg[order[|order| - 1]];
      ShortFlags(reg, order[..|order| - 1]) + Bound([f.shortFlag, f.inverseShortFlag], NoRune)
  }

  /** The long flags of the fields in `order`, in the order buildFlagIndices meets them. */
  function LongFlags(reg: Registry, order: seq<string>): seq<string>
    requires Covers(reg, order)
    decreases |order|
  {
    if order == [] then []
    else
      var f := reg[order[|order| - 1]];
      LongFlags(reg, order[..|order| - 1]) + Bound([f.longFlag, f.inverseLongFlag], "")
  }

  /** The indexes point at registered fields. */
  predicate IndexIn(reg: Registry, ix: FlagIndex)
  {
    (forall c :: c in ix.short ==> ix.short[c] in reg) && (forall l :: l in ix.long ==> ix.long[l] in reg)
  }

  /**
   * buildFlagIndices over the fields in `order`: each field binds its
   * short flags, then its long flags. The indexes hold exactly the set
   * flags, each bound to a field that has it as flag or inverse flag.
   */
  function FlagIndices(reg: Registry, order: seq<string>): (r: Result<FlagIndex, Error>)
    requires Covers(reg, order)
    ensures r.Ok? ==> forall c :: c in r.value.short <==> c in ShortFlags(reg, order)
    ensures r.Ok? ==> forall l :: l in r.value.long <==> l in LongFlags(reg, order)
    ensures r.Ok? ==> forall c :: c in r.value.short ==>
      r.value.short[c] in order && c in [reg[r.value.short[c]].shortFlag, reg[r.value.short[c]].inverseShortFlag]
    ensures r.Ok? ==> forall l :: l in r.value.long ==>
      r.value.long[l] in order && l in [reg[r.value.long[l]].longFlag, reg[r.value.long[l]].inverseLongFlag]
    ensures r.Ok? ==> IndexIn(reg, r.value)
    decreases |order|
  {
    if order == [] then Ok(FlagIndex(map[], map[]))
    else
      var init := order[..|order| - 1];
      var k := order[|order| - 1];
      assert order == init + [k];
      match FlagIndices(reg, init)
      case Err(e) => Err(e)
      case Ok(ix) => Extend(ix, k, reg[k])
  }

  /** One pass of buildFlagIndices' outer loop: the short flags of `f` bound to `k`, then its long flags. */
  function Extend(ix: FlagIndex, k: string, f: FieldState): Result<FlagIndex, Error>
  {
    match Bind(ix.short, [f.shortFlag, f.inverseShortFlag], NoRune, k, ShortTwice)
    case Err(e) => Err(e)
    case Ok(short) =>
      match Bind(ix.long, [f.longFlag, f.inverseLongFlag], "", k, LongTwice)
      case Err(e) => Err(e)
      case Ok(long) => Ok(FlagIndex(short, long))
  }

  /** The indexes over one more key extend those over the keys before it. */
  lemma IndicesStep(reg: Registry, order: seq<string>, i: nat, ix: FlagIndex)
    requires Covers(reg, order) && i < |order| && FlagIndices(reg, order[..i]) == Ok(ix)
    ensures FlagIndices(reg, order[..i + 1]) == Extend(ix, order[i], reg[order[i]])
  {
    assert order[..i + 1][..i] == order[..i];
  }

  lemma {:induction false} UniqueConcat<K(!new)>(a: seq<K>, b: seq<K>)
    ensures Unique(a + b) <==> Unique(a) && Unique(b) && forall x :: x in b ==> x !in a
  {
    var s := a + b;
    if Unique(s) {
      forall i, j | 0 <= i < j < |a| ensures a[i] != a[j] {
        assert a[i] == s[i] && a[j] == s[j];
      }
      forall i, j | 0 <= i < j < |b| ensures b[i] != b[j] {
        assert b[i] == s[|a| + i] && b[j] == s[|a| + j];
      }
      forall i, j | 0 <= i < |a| && 0 <= j < |b| ensures a[i] != b[j] {
        assert a[i] == s[i] && b[j] == s[|a| + j];
      }
    }
    if Unique(a) && Unique(b) && forall x :: x in b ==> x !in a {
      forall i, j | 0 <= i < j < |s| ensures s[i] != s[j] {
        if j < |a| {
          assert s[i] == a[i] && s[j] == a[j];
        } else if i >= |a| {
          assert s[i] == b[i - |a|] && s[j] == b[j - |a|];
        } else {
          assert s[i] in a && s[j] in b;
        }
      }
    }
  }

  /** One inner loop succeeds exactly when its set flags are distinct and none is bound yet. */
  lemma {:induction false} BindSucceeds<K(!new)>(m: map<K, string>, flags: seq<K>, unset: K, k: string, twice: K -> Error)
    ensures Bind(m, flags, unset, k, twice).Ok?
            <==> Unique(Bound(flags, unset)) && forall x :: x in Bound(flags, unset) ==> x !in m
    decreases |flags|
  {
    if flags != [] {
      var init := flags[..|flags| - 1];
      var x := flags[|flags| - 1];
      BindSucceeds(m, init, unset, k, twice);
      UniqueConcat(Bound(init, unset), if x != unset then [x] else []);
    }
  }

  /**
   * buildFlagIndices panics exactly when some set short flag, or some set
   * long flag, inverse flags included, is bound twice.
   */
  lemma {:induction false} FlagIndicesSucceed(reg: Registry, order: seq<string>)
    requires Covers(reg, order)
    ensures FlagIndices(reg, order).Ok? <==> Unique(ShortFlags(reg, order)) && Unique(LongFlags(reg, order))
    decreases |order|
  {
    if order != [] {
      var init := order[..|order| - 1];
      var k := order[|order| - 1];
      var f := reg[k];
      FlagIndicesSucceed(reg, init);
      UniqueConcat(ShortFlags(reg, init), Bound([f.shortFlag, f.inverseShortFlag], NoRune));
      UniqueConcat(LongFlags(reg, init), Bound([f.longFlag, f.inverseLongFlag], ""));
      match FlagIndices(reg, init)
      case Err(_) =>
      case Ok(ix) =>
        BindSucceeds(ix.short, [f.shortFlag, f.inverseShortFlag], NoRune, k, ShortTwice);
        BindSucceeds(ix.long, [f.longFlag, f.inverseLongFlag], "", k, LongTwice);
    }
  }

  /** An error met on a prefix of the flags is the error of the whole loop. */
  lemma {:induction false} BindErrSticks<K(!new)>(m: map<K, string>, flags: seq<K>, n: nat, unset: K, k: string, twice: K -> Error)
    requires n <= |flags| && Bind(m, flags[..n], unset, k, twice).Err?
    ensures Bind(m, flags, unset, k, twice) == Bind(m, flags[..n], unset, k, twice)
    decreases |flags|
  {
    if n < |flags| {
      var init := flags[..|flags| - 1];
      assert init[..n] == flags[..n];
      BindErrSticks(m, init, n, unset, k, twice);
    } else {
      assert flags[..n] == flags;
    }
  }

  /** A panic met on a prefix of the fields is the panic of the whole loop. */
  lemma {:induction false} IndicesErrSticks(reg: Registry, order: seq<string>, n: nat)
    requires Covers(reg, order) && n <= |order| && FlagIndices(reg, order[..n]).Err?
    ensures FlagIndices(reg, order) == FlagIndices(reg, order[..n])
    decreases |order|
  {
    if n < |order| {
      var init := order[..|order| - 1];
      assert init[..n] == order[..n];
      IndicesErrSticks(reg, init, n);
    } else {
      assert order[..n] == order;
    }
  }

  /** `--name`: two dashes and at least one more rune. */
  predicate IsLong(token: string)
  {
    |token| > 2 && token[..2] == "--"
  }

  /** `-xyz`: a dash and at least one more rune. */
  predicate IsShort(token: string)
  {
    |token| > 1 && token[0] == '-'
  }

  /** A token that is neither a long flag nor a run of short flags. */
  predicate Plain(token: string)
  {
    !IsLong(token) && !IsShort(token)
  }

  /** The raw value a boolean flag sets: "true" for the flag, "false" for its inverse. */
  function BoolRaw(direct: bool): string
  {
    if direct then "true" else "false"
  }

  /**
   * What reading one flag token leads to: its actions and whether it took
   * the next token as a value, or the error it stopped with.
   */
  datatype FlagParse = Read(actions: seq<Action>, consumed: bool) | Failed(actions: seq<Action>, error: Error)

  /** The `--name` branch of readCommandLineFlags; `next` is the token after it, if any. */
  function LongFlag(reg: Registry, ix: FlagIndex, name: string, next: Option<string>, done: seq<Action>): (r: FlagParse)
    requires IndexIn(reg, ix)
    ensures r.Read? && r.consumed ==> next.Some?
  {
    if name !in ix.long then Failed(done, Fail("Unexpected flag " + name))
    else
      var k := ix.long[name];
      if reg[k].kind == BoolKind then Read(done + [Set(k, BoolRaw(name == reg[k].longFlag))], false)
      else match next
        case None => Failed(done + [Mark(k)], Fail("Expected argument to last flag"))
        case Some(v) => Read(done + [Set(k, v)], true)
  }

  /**
   * The inner loop of readCommandLineFlags over the runes of `-xyz`, from
   * rune `j` on; `next` is the token after the run, if there is one.
   */
  function ShortRun(reg: Registry, ix: FlagIndex, runes: seq<char>, j: nat, next: Option<string>,
                    done: seq<Action>, consumed: bool): (r: FlagParse)
    requires IndexIn(reg, ix) && j <= |runes|
    ensures r.Read? && r.consumed ==> consumed || next.Some?
    decreases |runes| - j
  {
    if j == |runes| then Read(done, consumed)
    else
      var c := runes[j];
      if c !in ix.short then Failed(done, Fail("Unexpected flag " + [c]))
      else
        var k := ix.short[c];
        if reg[k].kind == BoolKind then
          ShortRun(reg, ix, runes, j + 1, next, done + [Set(k, BoolRaw(reg[k].shortFlag == c))], consumed)
        else match next
          case None => Failed(done + [Mark(k)], Fail("Expected argument to last flag"))
          case Some(v) => ShortRun(reg, ix, runes, j + 1, next, done + [Set(k, v)], true)
  }

  /** Reading the flag token `src[i]`, a long flag or a run of short flags. */
  function FlagToken(reg: Registry, ix: FlagIndex, src: seq<string>, i: nat, done: seq<Action>): (r: FlagParse)
    requires IndexIn(reg, ix) && i < |src| && !Plain(src[i])
    ensures r.Read? && r.consumed ==> i + 1 < |src|
  {
    var next := if i + 1 < |src| then Some(src[i + 1]) else None;
    if IsLong(src[i]) then LongFlag(reg, ix, src[i][2..], next, done)
    else ShortRun(reg, ix, src[i][1..], 0, next, done, false)
  }

  /** What readCommandLineFlags performs, and the extras or the error it returns. */
  datatype ArgsParse = ArgsParse(actions: seq<Action>, result: Result<seq<string>, Error>)

  /**
   * The outer loop of readCommandLineFlags from token `i` on, after the
   * actions `done` and the extras `extras` of the tokens before.
   */
  function ScanFrom(reg: Registry, ix: FlagIndex, src: seq<string>, i: nat, allowed: bool,
                    done: seq<Action>, extras: seq<string>): (p: ArgsParse)
    requires IndexIn(reg, ix) && i <= |src|
    decreases |src| - i
  {
    if i == |src| then
      if |extras| > 0 && !allowed then ArgsParse(done, Err(Fail("Unexpected argument " + extras[0])))
      else ArgsParse(done, Ok(extras))
    else if Plain(src[i]) then ScanFrom(reg, ix, src, i + 1, allowed, done, extras + [src[i]])
    else match FlagToken(reg, ix, src, i, done)
      case Failed(actions, e) => ArgsParse(actions, Err(e))
      case Read(actions, consumed) => ScanFrom(reg, ix, src, if consumed then i + 2 else i + 1, allowed, actions, extras)
  }

  /** readCommandLineFlags once the indexes are built. */
  function ScanArgs(reg: Registry, ix: FlagIndex, src: seq<string>, allowed: bool): ArgsParse
    requires IndexIn(reg, ix)
  {
    ScanFrom(reg, ix, src, 0, allowed, [], [])
  }

  /**
   * A run of short flags that succeeds: every rune is a flag; each
   * performs a `Set`, "true" or "false" on a boolean field and the next
   * token on any other; and the next token is taken exactly when some
   * rune is not boolean.
   */
  lemma {:induction false} ShortRunShares(reg: Registry, ix: FlagIndex, runes: seq<char>, j: nat, next: Option<string>,
                                          done: seq<Action>, consumed: bool)
    requires IndexIn(reg, ix) && j <= |runes|
    requires ShortRun(reg, ix, runes, j, next, done, consumed).Read?
    ensures var r := ShortRun(reg, ix, runes, j, next, done, consumed);
            && (forall t :: j <= t < |runes| ==> runes[t] in ix.short)
            && (r.consumed <==> consumed || exists t :: j <= t < |runes| && reg[ix.short[runes[t]]].kind != BoolKind)
            && forall a :: a in r.actions ==>
                 (a in done ||
                  (a.Set? && a.key in ix.short.Values &&
                   (reg[a.key].kind == BoolKind ==> a.raw in {"true", "false"}) &&
                   (reg[a.key].kind != BoolKind ==> next == Some(a.raw))))
    decreases |runes| - j
  {
    if j < |runes| {
      var c := runes[j];
      var k := ix.short[c];
      if reg[k].kind == BoolKind {
        var a := Set(k, BoolRaw(reg[k].shortFlag == c));
        ShortRunShares(reg, ix, runes, j + 1, next, done + [a], consumed);
      } else {
        var a := Set(k, next.value);
        ShortRunShares(reg, ix, runes, j + 1, next, done + [a], true);
      }
    }
  }

  /** Every action of a run of short flags, even one that fails, names an indexed field. */
  lemma {:induction false} ShortRunTouches(reg: Registry, ix: FlagIndex, runes: seq<char>, j: nat, next: Option<string>,
                                           done: seq<Action>, consumed: bool)
    requires IndexIn(reg, ix) && j <= |runes|
    ensures forall a :: a in ShortRun(reg, ix, runes, j, next, done, consumed).actions ==> a in done || a.key in ix.short.Values
    decreases |runes| - j
  {
    if j < |runes| && runes[j] in ix.short {
      var c := runes[j];
      var k := ix.short[c];
      if reg[k].kind == BoolKind {
        ShortRunTouches(reg, ix, runes, j + 1, next, done + [Set(k, BoolRaw(reg[k].shortFlag == c))], consumed);
      } else if next.Some? {
        ShortRunTouches(reg, ix, runes, j + 1, next, done + [Set(k, next.value)], true);
      }
    }
  }

  /**
   * Only fields that a flag names are touched: every action the reader
   * performs names a field in one of the indexes.
   */
  lemma {:induction false} OnlyFlaggedFieldsChange(reg: Registry, ix: FlagIndex, src: seq<string>, i: nat, allowed: bool,
                                                   done: seq<Action>, extras: seq<string>)
    requires IndexIn(reg, ix) && i <= |src|
    ensures forall a :: a in ScanFrom(reg, ix, src, i, allowed, done, extras).actions ==>
              a in done || a.key in ix.short.Values || a.key in ix.long.Values
    decreases |src| - i
  {
    if i < |src| {
      if Plain(src[i]) {
        OnlyFlaggedFieldsChange(reg, ix, src, i + 1, allowed, done, extras + [src[i]]);
      } else {
        var next := if i + 1 < |src| then Some(src[i + 1]) else None;
        if !IsLong(src[i]) {
          ShortRunTouches(reg, ix, src[i][1..], 0, next, done, false);
        }
        match FlagToken(reg, ix, src, i, done)
        case Failed(_, _) =>
        case Read(actions, consumed) =>
          OnlyFlaggedFieldsChange(reg, ix, src, if consumed then i + 2 else i + 1, allowed, actions, extras);
      }
    }
  }

  /** With extra arguments not allowed, a read that met one fails. */
  lemma {:induction false} DisallowedExtrasFail(reg: Registry, ix: FlagIndex, src: seq<string>, i: nat,
                                                done: seq<Action>, extras: seq<string>)
    requires IndexIn(reg, ix) && i <= |src| && extras != []
    ensures ScanFrom(reg, ix, src, i, false, done, extras).result.Err?
    decreases |src| - i
  {
    if i < |src| {
      if Plain(src[i]) {
        DisallowedExtrasFail(reg, ix, src, i + 1, done, extras + [src[i]]);
      } else {
        match FlagToken(reg, ix, src, i, done)
        case Failed(_, _) =>
        case Read(actions, consumed) =>
          DisallowedExtrasFail(reg, ix, src, if consumed then i + 2 else i + 1, actions, extras);
      }
    }
  }

  /** A read that succeeds without extra arguments allowed returns none. */
  lemma {:induction false} NoExtrasUnlessAllowed(reg: Registry, ix: FlagIndex, src: seq<string>, i: nat,
                                                 done: seq<Action>, extras: seq<string>)
    requires IndexIn(reg, ix) && i <= |src|
    ensures var r := ScanFrom(reg, ix, src, i, false, done, extras).result;
            r.Ok? ==> r.value == [] && extras == []
    decreases |src| - i
  {
    if extras != [] {
      DisallowedExtrasFail(reg, ix, src, i, done, extras);
    } else if i < |src| {
      if Plain(src[i]) {
        DisallowedExtrasFail(reg, ix, src, i + 1, done, extras + [src[i]]);
      } else {
        match FlagToken(reg, ix, src, i, done)
        case Failed(_, _) =>
        case Read(actions, consumed) =>
          NoExtrasUnlessAllowed(reg, ix, src, if consumed then i + 2 else i + 1, actions, extras);
      }
    }
  }

  /**
   * Whether the flag token takes the token after it as a value: a long
   * flag of a non-boolean field, or a run naming some non-boolean field.
   */
  predicate TakesValue(reg: Registry, ix: FlagIndex, token: string)
    requires IndexIn(reg, ix) && !Plain(token)
  {
    if IsLong(token) then token[2..] in ix.long && reg[ix.long[token[2..]]].kind != BoolKind
    else exists c :: c in token[1..] && c in ix.short && reg[ix.short[c]].kind != BoolKind
  }

  /**
   * The plain tokens from `i` on that no flag takes as its value, in
   * their order: a flag token is skipped, and so is the token after it
   * when the flag takes a value.
   */
  function PlainExtras(reg: Registry, ix: FlagIndex, src: seq<string>, i: nat): (r: seq<string>)
    requires IndexIn(reg, ix) && i <= |src|
    ensures forall t :: 0 <= t < |r| ==> Plain(r[t]) && r[t] in src[i..]
    decreases |src| - i
  {
    if i == |src| then []
    else
      var rest := if Plain(src[i]) || !TakesValue(reg, ix, src[i]) || i + 1 == |src| then i + 1 else i + 2;
      assert forall s :: s in src[rest..] ==> s in src[i..];
      (if Plain(src[i]) then [src[i]] else []) + PlainExtras(reg, ix, src, rest)
  }

  /** A flag token that is read takes the next token exactly when it takes a value and there is one. */
  lemma FlagTokenConsumes(reg: Registry, ix: FlagIndex, src: seq<string>, i: nat, done: seq<Action>)
    requires IndexIn(reg, ix) && i < |src| && !Plain(src[i])
    requires FlagToken(reg, ix, src, i, done).Read?
    ensures FlagToken(reg, ix, src, i, done).consumed <==> TakesValue(reg, ix, src[i]) && i + 1 < |src|
  {
    var next := if i + 1 < |src| then Some(src[i + 1]) else None;
    if !IsLong(src[i]) {
      var runes := src[i][1..];
      ShortRunShares(reg, ix, runes, 0, next, done, false);
      var r := ShortRun(reg, ix, runes, 0, next, done, false);
      if r.consumed {
        var t :| 0 <= t < |runes| && reg[ix.short[runes[t]]].kind != BoolKind;
        assert runes[t] in runes;
      }
      if TakesValue(reg, ix, src[i]) && i + 1 < |src| {
        var c :| c in runes && c in ix.short && reg[ix.short[c]].kind != BoolKind;
        var t :| 0 <= t < |runes| && runes[t] == c;
      }
    }
  }

  /**
   * The extras returned are the extras met so far followed by the plain
   * tokens from `i` on that no flag took as its value, in their order.
   */
  lemma {:induction false} ExtrasKept(reg: Registry, ix: FlagIndex, src: seq<string>, i: nat, allowed: bool,
                                      done: seq<Action>, extras: seq<string>)
    requires IndexIn(reg, ix) && i <= |src|
    ensures var r := ScanFrom(reg, ix, src, i, allowed, done, extras).result;
            r.Ok? ==> r.value == extras + PlainExtras(reg, ix, src, i)
    decreases |src| - i
  {
    if i < |src| {
      if Plain(src[i]) {
        ExtrasKept(reg, ix, src, i + 1, allowed, done, extras + [src[i]]);
        assert extras + [src[i]] + PlainExtras(reg, ix, src, i + 1) == extras + PlainExtras(reg, ix, src, i);
      } else {
        match FlagToken(reg, ix, src, i, done)
        case Failed(_, _) =>
        case Read(actions, consumed) =>
          PlainExtrasAfterFlag(reg, ix, src, i, done);
          ExtrasKept(reg, ix, src, if consumed then i + 2 else i + 1, allowed, actions, extras);
      }
    }
  }

  /** A flag token that is read contributes no extras: they are those after it and its value. */
  lemma PlainExtrasAfterFlag(reg: Registry, ix: FlagIndex, src: seq<string>, i: nat, done: seq<Action>)
    requires IndexIn(reg, ix) && i < |src| && !Plain(src[i])
    requires FlagToken(reg, ix, src, i, done).Read?
    ensures var next := if FlagToken(reg, ix, src, i, done).consumed then i + 2 else i + 1;
            next <= |src| && PlainExtras(reg, ix, src, i) == PlainExtras(reg, ix, src, next)
  {
    FlagTokenConsumes(reg, ix, src, i, done);
  }

  /**
   * Arguments that are all plain, with extras allowed, come back in their
   * order and touch no field.
   */
  lemma {:induction false} PlainArgsReturned(reg: Registry, ix: FlagIndex, src: seq<string>, i: nat,
                                             done: seq<Action>, extras: seq<string>)
    requires IndexIn(reg, ix) && i <= |src|
    requires forall t :: i <= t < |src| ==> Plain(src[t])
    ensures ScanFrom(reg, ix, src, i, true, done, extras) == ArgsParse(done, Ok(extras + src[i..]))
    decreases |src| - i
  {
    if i < |src| {
      PlainArgsReturned(reg, ix, src, i + 1, done, extras + [src[i]]);
      assert extras + [src[i]] + src[i + 1..] == extras + src[i..];
    } else {
      assert extras + src[i..] == extras;
    }
  }

  /** One inner loop of buildFlagIndices: binds the set flags among `flags` to the field `k`. */
  method BindFlags<K(==,!new)>(m: map<K, string>, flags: seq<K>, unset: K, k: string, twice: K -> Error)
    returns (r: Result<map<K, string>, Error>)
    ensures r == Bind(m, flags, unset, k, twice)
  {
    var bound := m;
    for j := 0 to |flags|
      invariant Bind(m, flags[..j], unset, k, twice) == Ok(bound)
    {
      var x := flags[j];
      assert flags[..j + 1][..j] == flags[..j];
      if x != unset {
        if x in bound {
          BindErrSticks(m, flags, j + 1, unset, k, twice);
          return Err(twice(x));
        }
        bound := bound[x := k];
      }
    }
    assert flags[..|flags|] == flags;
    return Ok(bound);
  }

  /** One pass of buildFlagIndices' outer loop over the field `f`, registered under `k`. */
  method ExtendIndex(ix: FlagIndex, k: string, f: Field) returns (r: Result<FlagIndex, Error>)
    ensures r == Extend(ix, k, f.State())
  {
    var shorts := BindFlags(ix.short, [f.shortFlag, f.inverseShortFlag], NoRune, k, ShortTwice);
    if shorts.Err? {
      return Err(shorts.error);
    }
    var longs := BindFlags(ix.long, [f.longFlag, f.inverseLongFlag], "", k, LongTwice);
    if longs.Err? {
      return Err(longs.error);
    }
    return Ok(FlagIndex(shorts.value, longs.value));
  }

  /** buildFlagIndices: two maps filled field by field, with a panic on a flag bound twice. */
  method BuildFlagIndices(fields: map<string, Field>, order: seq<string>) returns (r: Result<FlagIndex, Error>)
    requires Covers(Snapshot(fields), order)
    ensures r == FlagIndices(Snapshot(fields), order)
  {
    ghost var reg := Snapshot(fields);
    var ix := FlagIndex(map[], map[]);
    var i := 0;
    while i < |order|
      invariant 0 <= i <= |order|
      invariant FlagIndices(reg, order[..i]) == Ok(ix)
    {
      var k := order[i];
      IndicesStep(reg, order, i, ix);
      assert reg[k] == fields[k].State();
      var next := ExtendIndex(ix, k, fields[k]);
      if next.Err? {
        IndicesErrSticks(reg, order, i + 1);
        return next;
      }
      ix := next.value;
      i := i + 1;
    }
    assert order[..i] == order;
    return Ok(ix);
  }

  /** The `--name` branch of readCommandLineFlags, after the actions `done`. */
  method ReadLongFlag(fields: map<string, Field>, ix: FlagIndex, name: string, next: Option<string>,
                      ghost reg: Registry, ghost done: seq<Action>) returns (consumed: bool, err: Option<Error>)
    requires Distinct(fields) && IndexIn(reg, ix)
    requires Snapshot(fields) == Apply(reg, done)
    modifies fields.Values
    ensures var r := LongFlag(reg, ix, name, next, done);
            && (if r.Read? then err.None? && consumed == r.consumed else err == Some(r.error))
            && Snapshot(fields) == Apply(reg, r.actions)
  {
    if name !in ix.long {
      return false, Some(Fail("Unexpected flag " + name));
    }
    var k := ix.long[name];
    var f := fields[k];
    SettingsKept(reg, done, k);
    var a;
    consumed := false;
    if f.kind == BoolKind {
      a := Set(k, BoolRaw(name == f.longFlag));
    } else {
      consumed := true;
      if next.None? {
        Perform(fields, Mark(k));
        ApplySnoc(reg, done, Mark(k));
        return consumed, Some(Fail("Expected argument to last flag"));
      }
      a := Set(k, next.value);
    }
    Perform(fields, a);
    ApplySnoc(reg, done, a);
    return consumed, None;
  }

  /** The inner loop of readCommandLineFlags over the runes of one `-xyz` token, after the actions `done`. */
  method ReadShortFlags(fields: map<string, Field>, ix: FlagIndex, runes: seq<char>, next: Option<string>,
                        ghost reg: Registry, ghost done: seq<Action>) returns (consumed: bool, err: Option<Error>)
    requires Distinct(fields) && IndexIn(reg, ix)
    requires Snapshot(fields) == Apply(reg, done)
    modifies fields.Values
    ensures var r := ShortRun(reg, ix, runes, 0, next, done, false);
            && (if r.Read? then err.None? && consumed == r.consumed else err == Some(r.error))
            && Snapshot(fields) == Apply(reg, r.actions)
  {
    ghost var whole := ShortRun(reg, ix, runes, 0, next, done, false);
    ghost var acts := done;
    consumed := false;
    for j := 0 to |runes|
      invariant ShortRun(reg, ix, runes, j, next, acts, consumed) == whole
      invariant Snapshot(fields) == Apply(reg, acts)
    {
      var c := runes[j];
      if c !in ix.short {
        assert whole == Failed(acts, Fail("Unexpected flag " + [c]));
        return consumed, Some(Fail("Unexpected flag " + [c]));
      }
      var k := ix.short[c];
      var f := fields[k];
      SettingsKept(reg, acts, k);
      var a;
      if f.kind == BoolKind {
        a := Set(k, BoolRaw(f.shortFlag == c));
      } else {
        consumed := true;
        if next.None? {
          Perform(fields, Mark(k));
          ApplySnoc(reg, acts, Mark(k));
          assert whole == Failed(acts + [Mark(k)], Fail("Expected argument to last flag"));
          return consumed, Some(Fail("Expected argument to last flag"));
        }
        a := Set(k, next.value);
      }
      Perform(fields, a);
      ApplySnoc(reg, acts, a);
      acts := acts + [a];
    }
    assert whole == Read(acts, consumed);
    return consumed, None;
  }

  /** The scan past one flag token that reads without error. */
  lemma ScanFlagStep(reg: Registry, ix: FlagIndex, src: seq<string>, i: nat, allowed: bool,
                     done: seq<Action>, extras: seq<string>)
    requires IndexIn(reg, ix) && i < |src| && !Plain(src[i])
    requires FlagToken(reg, ix, src, i, done).Read?
    ensures var step := FlagToken(reg, ix, src, i, done);
            ScanFrom(reg, ix, src, i, allowed, done, extras)
            == ScanFrom(reg, ix, src, if step.consumed then i + 2 else i + 1, allowed, step.actions, extras)
  {
  }

  /** One flag token of the outer loop: a long flag, or a run of short flags. */
  method ReadFlagToken(fields: map<string, Field>, ix: FlagIndex, src: seq<string>, i: nat,
                       ghost reg: Registry, ghost done: seq<Action>) returns (consumed: bool, err: Option<Error>)
    requires Distinct(fields) && IndexIn(reg, ix) && i < |src| && !Plain(src[i])
    requires Snapshot(fields) == Apply(reg, done)
    modifies fields.Values
    ensures var r := FlagToken(reg, ix, src, i, done);
            && (if r.Read? then err.None? && consumed == r.consumed else err == Some(r.error))
            && Snapshot(fields) == Apply(reg, r.actions)
  {
    var token := src[i];
    var next := if i + 1 < |src| then Some(src[i + 1]) else None;
    if IsLong(token) {
      consumed, err := ReadLongFlag(fields, ix, token[2..], next, reg, done);
    } else {
      consumed, err := ReadShortFlags(fields, ix, token[1..], next, reg, done);
    }
  }

  /** The outer loop of readCommandLineFlags, once the indexes are built. */
  method ScanCommandLine(fields: map<string, Field>, ix: FlagIndex, src: seq<string>, allowed: bool)
    returns (r: Result<seq<string>, Error>)
    requires Distinct(fields) && IndexIn(Snapshot(fields), ix)
    modifies fields.Values
    ensures var p := ScanArgs(old(Snapshot(fields)), ix, src, allowed);
            r == p.result && Snapshot(fields) == Apply(old(Snapshot(fields)), p.actions)
  {
    ghost var reg := Snapshot(fields);
    ghost var whole := ScanArgs(reg, ix, src, allowed);
    ghost var done: seq<Action> := [];
    var extras: seq<string> := [];
    var i := 0;
    while i < |src|
      invariant 0 <= i <= |src|
      invariant ScanFrom(reg, ix, src, i, allowed, done, extras) == whole
      invariant Snapshot(fields) == Apply(reg, done)
    {
      if Plain(src[i]) {
        assert whole == ScanFrom(reg, ix, src, i + 1, allowed, done, extras + [src[i]]);
        extras := extras + [src[i]];
        i := i + 1;
      } else {
        ghost var step := FlagToken(reg, ix, src, i, done);
        var consumed, err := ReadFlagToken(fields, ix, src, i, reg, done);
        if err.Some? {
          assert whole == ArgsParse(step.actions, Err(err.value));
          return Err(err.value);
        }
        ghost var i' := if consumed then i + 2 else i + 1;
        ScanFlagStep(reg, ix, src, i, allowed, done, extras);
        done := step.actions;
        if consumed {
          i := i + 1;
        }
        i := i + 1;
        assert i == i';
      }
    }
    if |extras| > 0 && !allowed {
      assert whole == ArgsParse(done, Err(Fail("Unexpected argument " + extras[0])));
      return Err(Fail("Unexpected argument " + extras[0]));
    }
    assert whole == ArgsParse(done, Ok(extras));
    return Ok(extras);
  }

  /**
   * readCommandLineFlags' whole effect: the flag indexes, then the scan of
   * the arguments; a flag bound twice stops it before any token is read.
   */
  function ParseCommandLine(reg: Registry, order: seq<string>, src: seq<string>, allowed: bool): ArgsParse
    requires Covers(reg, order)
  {
    match FlagIndices(reg, order)
    case Err(e) => ArgsParse([], Err(e))
    case Ok(ix) => ScanArgs(reg, ix, src, allowed)
  }

  /**
   * readCommandLineFlags: the indexes are built (a flag bound twice
   * panics before any token is read), then the tokens are read.
   */
  method ReadCommandLineFlags(fields: map<string, Field>, order: seq<string>, src: seq<string>, allowed: bool)
    returns (r: Result<seq<string>, Error>)
    requires Distinct(fields) && Covers(Snapshot(fields), order)
    modifies fields.Values
    ensures var p := ParseCommandLine(old(Snapshot(fields)), order, src, allowed);
            r == p.result && Snapshot(fields) == Apply(old(Snapshot(fields)), p.actions)
    ensures Destinations(fields) == old(Destinations(fields))
  {
    var indices := BuildFlagIndices(fields, order);
    if indices.Err? {
      return Err(indices.error);
    }
    r := ScanCommandLine(fields, indices.value, src, allowed);
    SlotsUntouched(fields);
  }
}
