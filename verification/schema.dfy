/**
 * The shape checks of New and processField (configuration.go, field.go).
 *
 * Reflection is replaced by an explicit description of the destination:
 * a pointer or not, and a struct whose members are scalars of some
 * reflect kind or, one level down, structs of scalars. For each leaf the
 * schema yields the registry key, the fresh field record, and the value
 * the destination slot holds at the time.
 */
module Schema {
  import opened Wrappers
  import opened Text
  import opened Naming
  import opened Fields

  /** The reflect kinds other than Struct. */
  datatype GoKind =
    | Bool | Int | Int8 | Int16 | Int32 | Int64
    | Uint | Uint8 | Uint16 | Uint32 | Uint64 | Uintptr
    | Float32 | Float64 | Complex64 | Complex128
    | Array | Chan | Func | Interface | Map | Ptr | Slice | String | UnsafePointer

  /** `reflect.Kind.String()`. */
  function KindName(k: GoKind): string
  {
    match k
    case Bool => "bool"
    case Int => "int"
    case Int8 => "int8"
    case Int16 => "int16"
    case Int32 => "int32"
    case Int64 => "int64"
    case Uint => "uint"
    case Uint8 => "uint8"
    case Uint16 => "uint16"
    case Uint32 => "uint32"
    case Uint64 => "uint64"
    case Uintptr => "uintptr"
    case Float32 => "float32"
    case Float64 => "float64"
    case Complex64 => "complex64"
    case Complex128 => "complex128"
    case Array => "array"
    case Chan => "chan"
    case Func => "func"
    case Interface => "interface"
    case Map => "map"
    case Ptr => "ptr"
    case Slice => "slice"
    case String => "string"
    case UnsafePointer => "unsafe.Pointer"
  }

  /** The `allowedTypes` table: which field type a reflect kind belongs to. */
  function FieldTypeOf(k: GoKind): Option<Kind>
  {
    match k
    case Bool => Some(BoolKind)
    case Int | Int8 | Int16 | Int32 | Int64 => Some(IntKind)
    case Uint | Uint8 | Uint16 | Uint32 | Uint64 => Some(UintKind)
    case Float32 | Float64 => Some(FloatKind)
    case String => Some(StringKind)
    case _ => None
  }

  /** The type of a struct member: a scalar holding `current`, or a struct. */
  datatype GoType = Scalar(kind: GoKind, current: Value) | StructOf(members: seq<Member>)

  datatype Member = Member(name: string, typ: GoType)

  /** What New is given: a pointer to some type, or something that is not a pointer. */
  datatype Destination = PointerTo(target: GoType) | NotPointer

  /** One registered field. */
  datatype Entry = Entry(key: string, state: FieldState, initial: Value)

  /** Go identifiers: never empty, never holding a `.`. */
  predicate Identifier(name: string)
  {
    name != "" && '.' !in name
  }

  predicate Identifiers(members: seq<Member>)
  {
    forall i :: 0 <= i < |members| ==>
      (Identifier(members[i].name) &&
       (members[i].typ.StructOf? ==> forall j :: 0 <= j < |members[i].typ.members| ==>
          Identifier(members[i].typ.members[j].name)))
  }

  const NestingError := Fail("conflag: Configuration structs may only be nested one level.")
  const PointerError := Fail("conflag: The config destination must be a pointer to a struct.")

  function TypeError(k: GoKind): Error
  {
    Fail("conflag: Type " + KindName(k) + " is not allowed in configuration structs.")
  }

  /** processField on a scalar member: classify its kind and build the record. */
  function Leaf(k: GoKind, current: Value, prefix: string, name: string): (r: Result<Entry, Error>)
    requires '.' !in prefix && '.' !in name
    ensures r.Ok? <==> FieldTypeOf(k).Some?
    ensures r.Ok? ==> r.value.key == RegistryKey(prefix, name) && WellNamed(r.value.state)
                      && !r.value.state.found && r.value.initial == current
    ensures r.Ok? ==> r.value.state == Fresh(FieldTypeOf(k).value, prefix, name)
    ensures r.Err? ==> r.error == TypeError(k)
  {
    match FieldTypeOf(k)
    case None => Err(TypeError(k))
    case Some(kind) => Ok(Entry(RegistryKey(prefix, name), Fresh(kind, prefix, name), current))
  }

  /** processField on the members of the struct field `prefix`: a struct there is one level too deep. */
  function Nested(members: seq<Member>, prefix: string): (r: Result<seq<Entry>, Error>)
    requires prefix != "" && '.' !in prefix
    requires forall i :: 0 <= i < |members| ==> Identifier(members[i].name)
    ensures r.Ok? ==> |r.value| == |members|
    decreases |members|
  {
    if members == [] then Ok([])
    else
      var m := members[0];
      assert Identifier(m.name);
      var head := match m.typ
        case StructOf(_) => Err(NestingError)
        case Scalar(k, v) => Leaf(k, v, prefix, m.name);
      match head
      case Err(e) => Err(e)
      case Ok(entry) =>
        match Nested(members[1..], prefix)
        case Err(e) => Err(e)
        case Ok(rest) => Ok([entry] + rest)
  }

  /** New's loop over the top-level members, processField with an empty prefix. */
  function TopLevel(members: seq<Member>): (r: Result<seq<Entry>, Error>)
    requires Identifiers(members)
    decreases |members|
  {
    if members == [] then Ok([])
    else
      var m := members[0];
      var head := match m.typ
        case StructOf(inner) => Nested(inner, m.name)
        case Scalar(k, v) => match Leaf(k, v, "", m.name)
          case Err(e) => Err(e)
          case Ok(entry) => Ok([entry]);
      match head
      case Err(e) => Err(e)
      case Ok(entries) =>
        assert Identifiers(members[1..]) by {
          forall i | 0 <= i < |members[1..]| ensures Identifier(members[1..][i].name) {
            assert members[1..][i] == members[i + 1];
          }
        }
        match TopLevel(members[1..])
        case Err(e) => Err(e)
        case Ok(rest) => Ok(entries + rest)
  }

  /** Member names are Go identifiers. */
  predicate WellFormed(dest: Destination)
  {
    dest.PointerTo? && dest.target.StructOf? ==> Identifiers(dest.target.members)
  }

  /** The shape checks of New, then the fields. */
  function Build(dest: Destination): Result<seq<Entry>, Error>
    requires WellFormed(dest)
  {
    match dest
    case NotPointer => Err(PointerError)
    case PointerTo(Scalar(_, _)) => Err(PointerError)
    case PointerTo(StructOf(members)) => TopLevel(members)
  }

  /** A leaf whose kind the library does not accept. */
  predicate Unsupported(t: GoType)
  {
    t.Scalar? && FieldTypeOf(t.kind).None?
  }

  /** Whether the members of a nested struct are all accepted. */
  predicate NestedAccepted(members: seq<Member>)
  {
    forall i :: 0 <= i < |members| ==> members[i].typ.Scalar? && !Unsupported(members[i].typ)
  }

  /** Whether every member, and every member of a nested struct, is accepted. */
  predicate Accepted(members: seq<Member>)
  {
    forall i :: 0 <= i < |members| ==>
      match members[i].typ
      case Scalar(k, _) => FieldTypeOf(k).Some?
      case StructOf(inner) => NestedAccepted(inner)
  }

  /** The fields of a nested struct are registered exactly when none of them is rejected. */
  lemma {:induction false} NestedSucceeds(members: seq<Member>, prefix: string)
    requires prefix != "" && '.' !in prefix
    requires forall i :: 0 <= i < |members| ==> Identifier(members[i].name)
    ensures Nested(members, prefix).Ok? <==> NestedAccepted(members)
    decreases |members|
  {
    if members != [] {
      NestedSucceeds(members[1..], prefix);
      if NestedAccepted(members) {
        assert NestedAccepted(members[1..]) by {
          forall i | 0 <= i < |members[1..]|
            ensures members[1..][i].typ.Scalar? && !Unsupported(members[1..][i].typ)
          {
            assert members[1..][i] == members[i + 1];
          }
        }
      }
      if Nested(members, prefix).Ok? {
        forall i | 0 <= i < |members| ensures members[i].typ.Scalar? && !Unsupported(members[i].typ) {
          if i > 0 {
            assert members[i] == members[1..][i - 1];
          }
        }
      }
    }
  }

  /**
   * New succeeds exactly when every leaf has an accepted kind and no
   * struct sits inside a struct member; otherwise it returns the first
   * error in member order.
   */
  lemma {:induction false} TopLevelSucceeds(members: seq<Member>)
    requires Identifiers(members)
    ensures TopLevel(members).Ok? <==> Accepted(members)
    decreases |members|
  {
    if members != [] {
      var m := members[0];
      assert Identifiers(members[1..]) by {
        forall i | 0 <= i < |members[1..]| ensures Identifier(members[1..][i].name) {
          assert members[1..][i] == members[i + 1];
        }
      }
      TopLevelSucceeds(members[1..]);
      if m.typ.StructOf? {
        NestedSucceeds(m.typ.members, m.name);
      }
      if Accepted(members) {
        assert Accepted(members[1..]) by {
          forall i | 0 <= i < |members[1..]| ensures members[1..][i] == members[i + 1] {
          }
        }
      }
      if TopLevel(members).Ok? {
        assert TopLevel(members[1..]).Ok?;
        forall i | 0 <= i < |members|
          ensures match members[i].typ
                  case Scalar(k, _) => FieldTypeOf(k).Some?
                  case StructOf(inner) => NestedAccepted(inner)
        {
          if i > 0 {
            assert members[i] == members[1..][i - 1];
          }
        }
      }
    }
  }

  /** A struct member of a nested struct is rejected with the nesting error. */
  lemma DeepNestingRejected(prefix: string, name: string, inner: seq<Member>, rest: seq<Member>)
    requires prefix != "" && '.' !in prefix && Identifier(name)
    requires forall i :: 0 <= i < |rest| ==> Identifier(rest[i].name)
    ensures Nested([Member(name, StructOf(inner))] + rest, prefix) == Err(NestingError)
  {
  }

  /**
   * The entry processField registers for an accepted scalar member inside
   * the struct field `prefix`: under its registry key, the record of its
   * kind in the allowed table with the derived names, and the value the
   * struct holds.
   */
  function LeafEntry(prefix: string, m: Member): Entry
    requires '.' !in prefix && Identifier(m.name)
    requires m.typ.Scalar? && FieldTypeOf(m.typ.kind).Some?
  {
    Entry(RegistryKey(prefix, m.name), Fresh(FieldTypeOf(m.typ.kind).value, prefix, m.name), m.typ.current)
  }

  /**
   * The entries New registers for accepted members, in member order: one
   * per scalar member, then one per member of a struct member.
   */
  function Registered(members: seq<Member>): seq<Entry>
    requires Identifiers(members) && Accepted(members)
    decreases |members|
  {
    if members == [] then []
    else
      var m := members[0];
      assert Identifiers(members[1..]) && Accepted(members[1..]) by {
        forall i | 0 <= i < |members[1..]| ensures members[1..][i] == members[i + 1] {
        }
      }
      var head := match m.typ
        case Scalar(_, _) => [LeafEntry("", m)]
        case StructOf(inner) =>
          assert NestedAccepted(inner);
          seq(|inner|, j requires 0 <= j < |inner| => LeafEntry(m.name, inner[j]));
      head + Registered(members[1..])
  }

  /** Every record registered is fresh: not found, no `.` in its file names, and under its registry key. */
  lemma {:induction false} NestedEntriesFresh(members: seq<Member>, prefix: string)
    requires prefix != "" && '.' !in prefix
    requires forall i :: 0 <= i < |members| ==> Identifier(members[i].name)
    requires Nested(members, prefix).Ok?
    ensures forall e :: e in Nested(members, prefix).value ==>
      WellNamed(e.state) && !e.state.found && !e.state.required && e.state.raw == ""
    ensures NestedAccepted(members)
    ensures forall i :: 0 <= i < |members| ==>
      Nested(members, prefix).value[i] == LeafEntry(prefix, members[i])
    decreases |members|
  {
    NestedSucceeds(members, prefix);
    if members != [] {
      NestedEntriesFresh(members[1..], prefix);
      forall i | 0 < i < |members|
        ensures Nested(members, prefix).value[i] == LeafEntry(prefix, members[i])
      {
        assert members[i] == members[1..][i - 1];
      }
    }
  }

  /** Every record New registers is fresh, whether top-level or nested. */
  lemma {:induction false} TopLevelEntriesFresh(members: seq<Member>)
    requires Identifiers(members)
    requires TopLevel(members).Ok?
    ensures forall e :: e in TopLevel(members).value ==>
      WellNamed(e.state) && !e.state.found && !e.state.required && e.state.raw == ""
    ensures Accepted(members) && TopLevel(members).value == Registered(members)
    decreases |members|
  {
    TopLevelSucceeds(members);
    if members != [] {
      var m := members[0];
      assert Identifiers(members[1..]) by {
        forall i | 0 <= i < |members[1..]| ensures Identifier(members[1..][i].name) {
          assert members[1..][i] == members[i + 1];
        }
      }
      TopLevelEntriesFresh(members[1..]);
      if m.typ.StructOf? {
        NestedEntriesFresh(m.typ.members, m.name);
        var inner := m.typ.members;
        assert Nested(inner, m.name).value == seq(|inner|, j requires 0 <= j < |inner| => LeafEntry(m.name, inner[j]));
      }
    }
  }

  /** A pointer to anything but a struct, or a non-pointer, is refused before any field is looked at. */
  lemma NotStructRejected(k: GoKind, v: Value)
    ensures Build(NotPointer) == Err(PointerError)
    ensures Build(PointerTo(Scalar(k, v))) == Err(PointerError)
  {
  }
}
