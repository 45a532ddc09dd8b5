/**
 * The per-field conversion of readValue (read_config.go).
 *
 * A field that no source supplied is an error when it is required and is
 * otherwise left alone. A found field converts its raw text by kind:
 * - a boolean is true exactly for "true";
 * - an integer is read as base-10 signed 64-bit, as strconv.ParseInt does;
 * - an unsigned integer is read as base-10 unsigned 64-bit, as
 *   strconv.ParseUint does;
 * - a string is stored verbatim.
 * The two parsers are proved against decimal formatting.
 */
module Convert {
  import opened Wrappers
  import opened Naming
  import opened Fields

  const MaxInt64: int := 0x7fff_ffff_ffff_ffff
  const MinInt64: int := -0x8000_0000_0000_0000
  const MaxUint64: int := 0xffff_ffff_ffff_ffff

  /** A non-empty run of decimal digits. Base 10 allows no sign, underscore or prefix. */
  predicate Digits(s: string)
  {
    s != [] && forall i :: 0 <= i < |s| ==> IsDigit(s[i])
  }

  function DigitValue(c: char): nat
    requires IsDigit(c)
  {
    (c as int) - ('0' as int)
  }

  function DigitChar(d: nat): (c: char)
    requires d < 10
    ensures IsDigit(c) && DigitValue(c) == d
  {
    (('0' as int) + d) as char
  }

  /** The number the digits denote, most significant first. */
  function DigitsValue(s: string): nat
    requires forall i :: 0 <= i < |s| ==> IsDigit(s[i])
    decreases |s|
  {
    if s == [] then 0 else 10 * DigitsValue(s[..|s| - 1]) + DigitValue(s[|s| - 1])
  }

  /** strconv.ParseUint(s, 10, 64): digits only, at most 2^64 - 1. */
  function ParseUint(s: string): (r: Option<nat>)
    ensures r.Some? ==> r.value <= MaxUint64
  {
    if Digits(s) && DigitsValue(s) <= MaxUint64 then Some(DigitsValue(s)) else None
  }

  /** strconv.ParseInt(s, 10, 64): an optional `+` or `-`, then digits, within 64 bits. */
  function ParseInt(s: string): (r: Option<int>)
    ensures r.Some? ==> MinInt64 <= r.value <= MaxInt64
  {
    if s == [] then None
    else
      var body := if s[0] == '+' || s[0] == '-' then s[1..] else s;
      if !Digits(body) then None
      else
        var v: int := if s[0] == '-' then -(DigitsValue(body) as int) else DigitsValue(body);
        if MinInt64 <= v <= MaxInt64 then Some(v) else None
  }

  /** strconv.FormatUint(n, 10): the shortest decimal spelling. */
  function Decimal(n: nat): (s: string)
    ensures Digits(s) && DigitsValue(s) == n
    ensures s[0] == '0' ==> n == 0
    decreases n
  {
    if n < 10 then [DigitChar(n)]
    else
      var s := Decimal(n / 10) + [DigitChar(n % 10)];
      assert s[..|s| - 1] == Decimal(n / 10);
      s
  }

  /** strconv.FormatInt(i, 10). */
  function FormatInt(i: int): string
  {
    if i < 0 then "-" + Decimal(-i) else Decimal(i)
  }

  /** Every unsigned 64-bit number reads back from its decimal spelling, and no larger one does. */
  lemma UintRoundTrip(n: nat)
    ensures ParseUint(Decimal(n)) == if n <= MaxUint64 then Some(n) else None
  {
  }

  /** Every signed 64-bit number reads back from its decimal spelling. */
  lemma IntRoundTrip(i: int)
    requires MinInt64 <= i <= MaxInt64
    ensures ParseInt(FormatInt(i)) == Some(i)
  {
    var s := FormatInt(i);
    if i < 0 {
      assert s[1..] == Decimal(-i);
    }
  }

  /** An unsigned value takes no sign, not even `+`. */
  lemma UintRejectsSign(s: string)
    ensures ParseUint("+" + s) == None && ParseUint("-" + s) == None
  {
    assert ("+" + s)[0] == '+' && ("-" + s)[0] == '-';
  }

  /** A leading zero changes no value. */
  lemma {:induction false} LeadingZero(s: string)
    requires forall i :: 0 <= i < |s| ==> IsDigit(s[i])
    ensures DigitsValue("0" + s) == DigitsValue(s)
    decreases |s|
  {
    if s != [] {
      var t := "0" + s;
      assert t[..|t| - 1] == "0" + s[..|s| - 1];
      LeadingZero(s[..|s| - 1]);
    }
  }

  /** A value beyond 64 bits is refused whatever its sign, rather than wrapped. */
  lemma OutOfRange()
    ensures ParseInt(FormatInt(MaxInt64 + 1)) == None
    ensures ParseInt(FormatInt(MinInt64 - 1)) == None
    ensures ParseUint(Decimal(MaxUint64 + 1)) == None
  {
    var s := FormatInt(MinInt64 - 1);
    assert s[1..] == Decimal(-(MinInt64 - 1));
  }

  function RequiredMissing(description: string): Error
  {
    Fail("conflag: Required configuration value " + description + " not found.")
  }

  function NotInteger(raw: string): Error
  {
    Fail("conflag: Couldn't parse " + raw + " as integer.")
  }

  function NotUnsigned(raw: string): Error
  {
    Fail("conflag: Couldn't parse " + raw + " as unsigned integer.")
  }

  /** Whether a value is of the field type. */
  predicate OfKind(v: Value, kind: Kind)
  {
    match kind
    case BoolKind => v.BoolValue?
    case IntKind => v.IntValue? && MinInt64 <= v.i <= MaxInt64
    case UintKind => v.UintValue? && v.u <= MaxUint64
    case FloatKind => v.FloatValue?
    case StringKind => v.StringValue?
  }

  /**
   * readValue's outcome: the value to store, `None` to leave the slot as
   * it is, or the error.
   */
  function Conversion(f: FieldState): (r: Result<Option<Value>, Error>)
    ensures r.Ok? && r.value.Some? ==> f.found && OfKind(r.value.value, f.kind)
  {
    if !f.found then
      if f.required then Err(RequiredMissing(f.description)) else Ok(None)
    else match f.kind
      case BoolKind => Ok(Some(BoolValue(f.raw == "true")))
      case IntKind =>
        (match ParseInt(f.raw)
         case None => Err(NotInteger(f.raw))
         case Some(i) => Ok(Some(IntValue(i))))
      case UintKind =>
        (match ParseUint(f.raw)
         case None => Err(NotUnsigned(f.raw))
         case Some(u) => Ok(Some(UintValue(u))))
      case FloatKind => Ok(Some(FloatValue(f.raw)))
      case StringKind => Ok(Some(StringValue(f.raw)))
  }

  /**
   * A conversion fails exactly for a required field nobody supplied, or
   * for a number that does not parse.
   */
  lemma ConversionFails(f: FieldState)
    ensures Conversion(f).Err? <==>
      (!f.found && f.required)
      || (f.found && f.kind == IntKind && ParseInt(f.raw).None?)
      || (f.found && f.kind == UintKind && ParseUint(f.raw).None?)
  {
  }

  /** The slot is left alone exactly when the field was not found and is optional. */
  lemma ConversionSkips(f: FieldState)
    ensures Conversion(f) == Ok(None) <==> !f.found && !f.required
  {
  }

  /** A missing required field names its description in the error. */
  lemma RequiredNamesDescription(f: FieldState)
    requires !f.found && f.required
    ensures Conversion(f) == Err(Fail("conflag: Required configuration value " + f.description + " not found."))
  {
  }

  /** A found boolean is never an error: it is true for "true" and false for anything else. */
  lemma LenientBool(f: FieldState)
    requires f.found && f.kind == BoolKind
    ensures Conversion(f).Ok? && Conversion(f).value.Some?
    ensures Conversion(f).value.value.b <==> f.raw == "true"
  {
  }

  /** A found number stores what its decimal spelling denotes. */
  lemma NumbersRoundTrip(f: FieldState, n: int)
    requires f.found
    requires f.kind == IntKind ==> MinInt64 <= n <= MaxInt64 && f.raw == FormatInt(n)
    requires f.kind == UintKind ==> 0 <= n <= MaxUint64 && f.raw == Decimal(n)
    requires f.kind == IntKind || f.kind == UintKind
    ensures Conversion(f) == Ok(Some(if f.kind == IntKind then IntValue(n) else UintValue(n)))
  {
    if f.kind == IntKind {
      IntRoundTrip(n);
    } else {
      UintRoundTrip(n);
    }
  }

  /** A found string is stored verbatim. */
  lemma StringVerbatim(f: FieldState)
    requires f.found && f.kind == StringKind
    ensures Conversion(f) == Ok(Some(StringValue(f.raw)))
  {
  }
}
