/**
 * Default names of a field (field.go, processField): the file key, file
 * category and long flag are derived from the Go field names by a
 * case-transition rewrite followed by lower-casing.
 */
module Naming {
  import opened Text

  predicate IsLower(c: char) { 'a' <= c <= 'z' }
  predicate IsUpper(c: char) { 'A' <= c <= 'Z' }
  predicate IsDigit(c: char) { '0' <= c <= '9' }

  /**
   * Two adjacent characters matched by the pattern
   * `([a-z0-9])([A-Z])|([a-z])([A-Z0-9])`.
   */
  predicate Boundary(a: char, b: char)
  {
    ((IsLower(a) || IsDigit(a)) && IsUpper(b)) || (IsLower(a) && (IsUpper(b) || IsDigit(b)))
  }

  /**
   * `ReplaceAllString(s, "${1}${3}_${2}${4}")`: every match is two characters
   * long, matches are found left to right and do not overlap, and each is
   * rewritten with an underscore between its two characters.
   */
  function Underscored(s: string): (r: string)
  {
    UnderscoredFrom(s, 0)
  }

  /** The rewrite of `s[i..]`, the scan standing at position `i`. */
  function UnderscoredFrom(s: string, i: nat): (r: string)
    requires i <= |s|
    decreases |s| - i
  {
    if i + 2 > |s| then s[i..]
    else if Boundary(s[i], s[i + 1]) then [s[i], '_', s[i + 1]] + UnderscoredFrom(s, i + 2)
    else [s[i]] + UnderscoredFrom(s, i + 1)
  }

  /** The rewrite followed by `strings.ToLower`. */
  function SnakeCase(name: string): (r: string)
    ensures forall i :: 0 <= i < |r| ==> !IsUpper(r[i])
  {
    ToLower(Underscored(name))
  }

  /** The default file key of a field named `name`. */
  function DefaultFileKey(name: string): string
  {
    SnakeCase(name)
  }

  /** The default file category: none at top level, the enclosing field's name otherwise. */
  function DefaultCategory(prefix: string): string
  {
    if prefix == "" then "" else SnakeCase(prefix)
  }

  /** The default long flag: the file key with `-` for `_`, under the category's flag when nested. */
  function DefaultLongFlag(prefix: string, name: string): string
  {
    var flag := Replace(DefaultFileKey(name), '_', '-');
    if prefix == "" then flag else Replace(DefaultCategory(prefix), '_', '-') + "." + flag
  }

  /** The key under which the field is registered: `Outer.Inner` when nested. */
  function RegistryKey(prefix: string, name: string): string
  {
    if prefix == "" then name else prefix + "." + name
  }

  /** The string with every underscore taken out. */
  function Unscored(s: string): (r: string)
    ensures '_' !in r
  {
    if s == [] then [] else (if s[0] == '_' then [] else [s[0]]) + Unscored(s[1..])
  }

  lemma {:induction false} UnscoredAppend(a: string, b: string)
    ensures Unscored(a + b) == Unscored(a) + Unscored(b)
    decreases |a|
  {
    if a != [] {
      assert (a + b)[1..] == a[1..] + b;
      UnscoredAppend(a[1..], b);
    } else {
      assert a + b == b;
    }
  }

  /** The rewrite only inserts underscores: every other character stays, in order. */
  lemma UnderscoredOnlyInserts(s: string)
    ensures Unscored(Underscored(s)) == Unscored(s)
  {
    UnderscoredFromOnlyInserts(s, 0);
  }

  lemma {:induction false} UnderscoredFromOnlyInserts(s: string, i: nat)
    requires i <= |s|
    ensures Unscored(UnderscoredFrom(s, i)) == Unscored(s[i..])
    decreases |s| - i
  {
    if i + 2 > |s| {
    } else if Boundary(s[i], s[i + 1]) {
      UnderscoredFromOnlyInserts(s, i + 2);
      UnscoredAppend([s[i], '_', s[i + 1]], UnderscoredFrom(s, i + 2));
      UnscoredAppend([s[i], s[i + 1]], s[i + 2..]);
      assert s[i..] == [s[i], s[i + 1]] + s[i + 2..];
      UnscoredInserted(s[i], s[i + 1]);
    } else {
      UnderscoredFromOnlyInserts(s, i + 1);
      UnscoredAppend([s[i]], UnderscoredFrom(s, i + 1));
      UnscoredAppend([s[i]], s[i + 1..]);
      assert s[i..] == [s[i]] + s[i + 1..];
    }
  }

  /** An underscore inserted between two characters is taken out again. */
  lemma UnscoredInserted(a: char, b: char)
    ensures Unscored([a, '_', b]) == Unscored([a, b])
  {
    assert [a, '_', b][1..][1..] == [b];
    assert [a, b][1..] == [b];
  }

  /** Where no two adjacent characters form a boundary, nothing is inserted. */
  lemma UnderscoredWithoutBoundary(s: string)
    requires forall i :: 0 <= i < |s| - 1 ==> !Boundary(s[i], s[i + 1])
    ensures Underscored(s) == s
  {
    UnderscoredFromWithoutBoundary(s, 0);
  }

  lemma {:induction false} UnderscoredFromWithoutBoundary(s: string, i: nat)
    requires i <= |s|
    requires forall j :: i <= j < |s| - 1 ==> !Boundary(s[j], s[j + 1])
    ensures UnderscoredFrom(s, i) == s[i..]
    decreases |s| - i
  {
    if i + 2 <= |s| {
      UnderscoredFromWithoutBoundary(s, i + 1);
      assert s[i..] == [s[i]] + s[i + 1..];
    }
  }

  /** The rewrite adds no character other than `_`. */
  lemma {:induction false} UnderscoredAddsOnlyUnderscores(s: string, i: nat, c: char)
    requires i <= |s| && c != '_' && c !in s
    ensures c !in UnderscoredFrom(s, i)
    decreases |s| - i
  {
    if i + 2 <= |s| {
      if Boundary(s[i], s[i + 1]) {
        UnderscoredAddsOnlyUnderscores(s, i + 2, c);
      } else {
        UnderscoredAddsOnlyUnderscores(s, i + 1, c);
      }
    } else {
      assert forall j :: i <= j < |s| ==> s[..][j] != c;
    }
  }

  /** A name free of `c` (not `_`, not an upper-case letter) gives a snake-case name free of `c`. */
  lemma SnakeCaseAvoids(name: string, c: char)
    requires c != '_' && !IsUpper(c) && !IsLower(c) && c !in name
    ensures c !in SnakeCase(name)
  {
    UnderscoredAddsOnlyUnderscores(name, 0, c);
    var u := Underscored(name);
    forall i | 0 <= i < |u| ensures SnakeCase(name)[i] != c {
      assert IsUpper(u[i]) ==> IsLower(LowerChar(u[i]));
    }
  }

  /**
   * Go field names never contain `.`, so the derived file key and category
   * never contain it either: a fresh field already satisfies the rule that
   * FileCategory and FileKey enforce.
   */
  lemma DerivedNamesHaveNoDot(prefix: string, name: string)
    requires '.' !in prefix && '.' !in name
    ensures '.' !in DefaultFileKey(name) && '.' !in DefaultCategory(prefix)
  {
    SnakeCaseAvoids(name, '.');
    if prefix != "" {
      SnakeCaseAvoids(prefix, '.');
    }
  }

  /**
   * For a top-level field the long flag is the file key with each `_` turned
   * into `-`; since Go names contain no `-`, turning each `-` back gives the
   * file key again.
   */
  lemma LongFlagRoundTrip(name: string)
    requires '-' !in name
    ensures '_' !in DefaultLongFlag("", name)
    ensures Replace(DefaultLongFlag("", name), '-', '_') == DefaultFileKey(name)
  {
    SnakeCaseAvoids(name, '-');
    var key := DefaultFileKey(name);
    var flag := DefaultLongFlag("", name);
    assert forall i :: 0 <= i < |key| ==> key[i] != '-';
    assert Replace(flag, '-', '_') == key;
  }
}

/** Evaluations of the rewrite on the example names of the test files. */
module NamingSteps {
  import opened Naming
  import opened Text

  lemma IntField()
    ensures DefaultFileKey("IntField") == "int_field"
  {
    assert Underscored("IntField") == "Int_Field";
  }

  lemma StructField()
    ensures DefaultCategory("StructField") == "struct_field"
  {
    StructFrom0();
    assert Underscored("StructField") == "Struct_Field";
  }

  /** The rewrite of `StructField`, step by step from its one boundary. */
  lemma StructFrom5()
    ensures UnderscoredFrom("StructField", 5) == "t_Field"
  {
  }

  lemma StructFrom2()
    ensures UnderscoredFrom("StructField", 2) == "ruct_Field"
  {
    StructFrom5();
  }

  lemma StructFrom0()
    ensures UnderscoredFrom("StructField", 0) == "Struct_Field"
  {
    StructFrom2();
  }

  lemma Float32Field()
    ensures DefaultFileKey("Float32Field") == "float_32_field"
  {
    Float32From0();
    assert Underscored("Float32Field") == "Float_32_Field";
    Float32Lower();
  }

  /** The rewrite of `Float32Field`, step by step from its end. */
  lemma Float32From8()
    ensures UnderscoredFrom("Float32Field", 8) == "ield"
  {
  }

  lemma Float32From6()
    ensures UnderscoredFrom("Float32Field", 6) == "2_Field"
  {
    Float32From8();
  }

  lemma Float32From4()
    ensures UnderscoredFrom("Float32Field", 4) == "t_32_Field"
  {
    Float32From6();
  }

  lemma Float32From2()
    ensures UnderscoredFrom("Float32Field", 2) == "oat_32_Field"
  {
    Float32From4();
  }

  lemma Float32From0()
    ensures UnderscoredFrom("Float32Field", 0) == "Float_32_Field"
  {
    Float32From2();
  }

  lemma Float32Lower()
    ensures ToLower("Float_32_Field") == "float_32_field"
  {
  }

  lemma Kebab()
    ensures Replace("int_field", '_', '-') == "int-field"
    ensures Replace("struct_field", '_', '-') == "struct-field"
  {
  }

  lemma Dotted()
    ensures Replace("struct_field", '_', '-') + "." + Replace("int_field", '_', '-') == "struct-field.int-field"
  {
    Kebab();
  }
}

/** The names field_test.go and config_file_test.go expect for their example fields. */
module NamingExamples {
  import opened Naming
  import NamingSteps

  /** The top-level field `IntField`. */
  lemma TopLevelExample()
    ensures DefaultFileKey("IntField") == "int_field"
    ensures DefaultLongFlag("", "IntField") == "int-field"
    ensures DefaultCategory("") == ""
    ensures RegistryKey("", "IntField") == "IntField"
  {
    NamingSteps.IntField();
    NamingSteps.Kebab();
  }

  /** The field `IntField` nested in `StructField`. */
  lemma NestedExample()
    ensures DefaultFileKey("IntField") == "int_field"
    ensures DefaultCategory("StructField") == "struct_field"
    ensures DefaultLongFlag("StructField", "IntField") == "struct-field.int-field"
    ensures RegistryKey("StructField", "IntField") == "StructField.IntField"
  {
    NamingSteps.IntField();
    NamingSteps.StructField();
    NamingSteps.Dotted();
  }

  /**
   * Digits split from letters on both sides (`Float32Field` becomes
   * `float_32_field`), and matches do not overlap: in `a1B` the match `a1`
   * consumes the `1`, so `1B` is not rewritten.
   */
  lemma DigitsExample()
    ensures DefaultFileKey("Float32Field") == "float_32_field"
    ensures DefaultFileKey("a1B") == "a_1b"
  {
    NamingSteps.Float32Field();
    assert Underscored("a1B") == "a_1B";
  }
}
