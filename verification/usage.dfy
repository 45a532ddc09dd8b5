/**
 * The usage text (usage.go).
 *
 * `Wrap` is restrictWidthByWords: the words are split at single spaces
 * and placed greedily. A new row starts only when the next word, its
 * letters and one space per word already on the row would exceed the
 * width. `RestrictWidthByWords` is the loop, proved to compute it.
 * Lengths are counted in code points, as strlen does, since a string
 * here is a sequence of code points.
 *
 * The layout works per field. The key lines (flags, then file key) go on
 * the left, and the wrapped description follows either beside them or
 * below them, depending on the room left.
 */
module Usage {
  import opened Wrappers
  import opened Text
  import opened Fields

  const MinUsageWidth: nat := 10
  const KeyToDescriptionSpacing: nat := 4
  const FlagIndentDepth: nat := 2

  /** The code points in the words of a row. */
  function Letters(row: seq<string>): nat
  {
    if row == [] then 0 else |row[0]| + Letters(row[1..])
  }

  /** The words of the rows, in order. */
  function Flatten(rows: seq<seq<string>>): seq<string>
  {
    if rows == [] then [] else rows[0] + Flatten(rows[1..])
  }

  /**
   * The greedy placement of the words from `i` on, given the rows already
   * closed and the row being filled.
   */
  function WrapFrom(words: seq<string>, i: nat, width: int, rows: seq<seq<string>>, row: seq<string>)
    : seq<seq<string>>
    requires i <= |words|
    decreases |words| - i
  {
    if i == |words| then rows + [row]
    else if |words[i]| + Letters(row) + |row| > width then WrapFrom(words, i + 1, width, rows + [row], [words[i]])
    else WrapFrom(words, i + 1, width, rows, row + [words[i]])
  }

  function Rows(words: seq<string>, width: int): seq<seq<string>>
  {
    WrapFrom(words, 0, width, [], [])
  }

  /** Each row, its words joined by single spaces. */
  function Lines(rows: seq<seq<string>>): (lines: seq<string>)
    ensures |lines| == |rows|
  {
    seq(|rows|, k requires 0 <= k < |rows| => Join(rows[k], " "))
  }

  /** restrictWidthByWords. */
  function Wrap(s: string, width: int): string
  {
    Join(Lines(Rows(Split(s, ' '), width)), "\n")
  }

  /** A row of two or more words is no wider than the width. */
  predicate RowFits(row: seq<string>, width: int)
  {
    |row| >= 2 ==> Letters(row) + |row| - 1 <= width
  }

  predicate AllFit(rows: seq<seq<string>>, width: int)
  {
    forall k :: 0 <= k < |rows| ==> RowFits(rows[k], width)
  }

  /** Every row after the first starts with a word that would not have fitted on the row before. */
  predicate Greedy(rows: seq<seq<string>>, width: int)
  {
    forall k :: 0 < k < |rows| ==> rows[k] != [] && |rows[k][0]| + Letters(rows[k - 1]) + |rows[k - 1]| > width
  }

  lemma {:induction false} LettersSnoc(row: seq<string>, w: string)
    ensures Letters(row + [w]) == Letters(row) + |w|
    decreases |row|
  {
    if row != [] {
      assert (row + [w])[1..] == row[1..] + [w];
      LettersSnoc(row[1..], w);
    }
  }

  lemma {:induction false} FlattenSnoc(rows: seq<seq<string>>, row: seq<string>)
    ensures Flatten(rows + [row]) == Flatten(rows) + row
    decreases |rows|
  {
    if rows != [] {
      assert (rows + [row])[1..] == rows[1..] + [row];
      FlattenSnoc(rows[1..], row);
    }
  }

  /** A row joined by spaces is as long as its letters plus one space between each two words. */
  lemma {:induction false} JoinLength(row: seq<string>)
    requires row != []
    ensures |Join(row, " ")| == Letters(row) + |row| - 1
    decreases |row|
  {
    if |row| > 1 {
      JoinLength(row[1..]);
    }
  }

  /** Joining two non-empty runs is joining each and putting the separator between. */
  lemma {:induction false} JoinConcat(a: seq<string>, b: seq<string>, sep: string)
    requires a != [] && b != []
    ensures Join(a + b, sep) == Join(a, sep) + sep + Join(b, sep)
    decreases |a|
  {
    if |a| > 1 {
      assert (a + b)[1..] == a[1..] + b;
      JoinConcat(a[1..], b, sep);
    }
  }

  /** The wrap keeps every word, in order. */
  lemma {:induction false} WrapKeepsWords(words: seq<string>, i: nat, width: int, rows: seq<seq<string>>, row: seq<string>)
    requires i <= |words|
    ensures Flatten(WrapFrom(words, i, width, rows, row)) == Flatten(rows) + row + words[i..]
    decreases |words| - i
  {
    if i == |words| {
      FlattenSnoc(rows, row);
    } else {
      var w := words[i];
      assert words[i..] == [w] + words[i + 1..];
      if |w| + Letters(row) + |row| > width {
        WrapKeepsWords(words, i + 1, width, rows + [row], [w]);
        FlattenSnoc(rows, row);
      } else {
        WrapKeepsWords(words, i + 1, width, rows, row + [w]);
      }
    }
  }

  /** No row of two or more words is wider than the width. */
  lemma {:induction false} WrapFits(words: seq<string>, i: nat, width: int, rows: seq<seq<string>>, row: seq<string>)
    requires i <= |words|
    requires AllFit(rows, width) && RowFits(row, width)
    ensures AllFit(WrapFrom(words, i, width, rows, row), width)
    decreases |words| - i
  {
    if i < |words| {
      var w := words[i];
      if |w| + Letters(row) + |row| > width {
        WrapFits(words, i + 1, width, rows + [row], [w]);
      } else {
        LettersSnoc(row, w);
        WrapFits(words, i + 1, width, rows, row + [w]);
      }
    }
  }

  /** A new row starts only when the next word does not fit on the current one. */
  lemma {:induction false} WrapGreedy(words: seq<string>, i: nat, width: int, rows: seq<seq<string>>, row: seq<string>)
    requires i <= |words|
    requires Greedy(rows + [row], width) && (rows != [] ==> row != [])
    ensures Greedy(WrapFrom(words, i, width, rows, row), width)
    decreases |words| - i
  {
    if i < |words| {
      var w := words[i];
      if |w| + Letters(row) + |row| > width {
        var next := rows + [row] + [[w]];
        forall k | 0 < k < |next|
          ensures next[k] != [] && |next[k][0]| + Letters(next[k - 1]) + |next[k - 1]| > width
        {
          if k < |next| - 1 {
            assert next[k] == (rows + [row])[k] && next[k - 1] == (rows + [row])[k - 1];
          }
        }
        WrapGreedy(words, i + 1, width, rows + [row], [w]);
      } else {
        var next := rows + [row + [w]];
        forall k | 0 < k < |next|
          ensures next[k] != [] && |next[k][0]| + Letters(next[k - 1]) + |next[k - 1]| > width
        {
          if k < |next| - 1 {
            assert next[k] == (rows + [row])[k] && next[k - 1] == (rows + [row])[k - 1];
          } else {
            assert (rows + [row])[k] == row && next[k - 1] == (rows + [row])[k - 1];
            assert (row + [w])[0] == row[0];
          }
        }
        WrapGreedy(words, i + 1, width, rows, row + [w]);
      }
    }
  }

  /** The closed rows stay as they are, and the row being filled is only extended. */
  lemma {:induction false} WrapExtends(words: seq<string>, i: nat, width: int, rows: seq<seq<string>>, row: seq<string>)
    requires i <= |words|
    ensures var r := WrapFrom(words, i, width, rows, row);
            |r| > |rows| && r[..|rows|] == rows && |r[|rows|]| >= |row| && r[|rows|][..|row|] == row
    decreases |words| - i
  {
    if i < |words| {
      var w := words[i];
      if |w| + Letters(row) + |row| > width {
        WrapExtends(words, i + 1, width, rows + [row], [w]);
        var r := WrapFrom(words, i, width, rows, row);
        assert r[..|rows|] == r[..|rows| + 1][..|rows|];
      } else {
        WrapExtends(words, i + 1, width, rows, row + [w]);
        var r := WrapFrom(words, i, width, rows, row);
        assert r[|rows|][..|row|] == r[|rows|][..|row| + 1][..|row|];
      }
    }
  }

  /**
   * The properties of the greedy wrap of non-empty words: every word is
   * kept in order, rows of two or more words fit, every row but the first
   * is non-empty and began because its first word did not fit before, and
   * the first row is empty exactly when the first word is too long.
   */
  lemma RowsProperties(words: seq<string>, width: int)
    requires words != []
    ensures var r := Rows(words, width);
            r != [] && Flatten(r) == words && AllFit(r, width) && Greedy(r, width)
            && (r[0] == [] <==> |words[0]| > width)
  {
    WrapKeepsWords(words, 0, width, [], []);
    assert words[0..] == words;
    WrapFits(words, 0, width, [], []);
    WrapGreedy(words, 0, width, [], []);
    var w := words[0];
    var none: seq<seq<string>> := [];
    assert Letters([]) == 0 && [] + [w] == [w] && none + [[]] == [[]];
    if |w| > width {
      assert Rows(words, width) == WrapFrom(words, 1, width, none + [[]], [w]);
      WrapExtends(words, 1, width, [[]], [w]);
    } else {
      assert Rows(words, width) == WrapFrom(words, 1, width, [], [w]);
      WrapExtends(words, 1, width, [], [w]);
    }
  }

  /** Every line of two or more words is at most `width` code points long. */
  lemma LinesFit(s: string, width: int)
    ensures var r := Rows(Split(s, ' '), width);
            forall k :: 0 <= k < |r| && |r[k]| >= 2 ==> |Lines(r)[k]| <= width
  {
    var r := Rows(Split(s, ' '), width);
    RowsProperties(Split(s, ' '), width);
    forall k | 0 <= k < |r| && |r[k]| >= 2 ensures |Lines(r)[k]| <= width {
      JoinLength(r[k]);
      assert RowFits(r[k], width);
    }
  }

  /** Joining non-empty rows by spaces is joining all their words by spaces. */
  lemma {:induction false} JoinRows(rows: seq<seq<string>>)
    requires rows != [] && forall k :: 0 <= k < |rows| ==> rows[k] != []
    ensures Join(Lines(rows), " ") == Join(Flatten(rows), " ")
    decreases |rows|
  {
    if |rows| > 1 {
      var rest := rows[1..];
      JoinRows(rest);
      assert Lines(rows) == [Join(rows[0], " ")] + Lines(rest);
      assert Lines(rows)[1..] == Lines(rest);
      assert Flatten(rest) != [] by {
        assert Flatten(rest) == rest[0] + Flatten(rest[1..]);
      }
      JoinConcat(rows[0], Flatten(rest), " ");
    } else {
      assert Flatten(rows) == rows[0] + Flatten(rows[1..]);
      assert Flatten(rows) == rows[0];
    }
  }

  /**
   * Putting spaces back where the wrap broke the lines gives back the
   * text, provided the first word fits; otherwise the wrap begins with an
   * empty line.
   */
  lemma WrapRestores(s: string, width: int)
    ensures var words := Split(s, ' ');
            var r := Rows(words, width);
            r != []
            && (|words[0]| <= width ==> Join(Lines(r), " ") == s)
            && (|words[0]| > width ==> Lines(r)[0] == "")
  {
    var words := Split(s, ' ');
    var r := Rows(words, width);
    RowsProperties(words, width);
    if |words[0]| <= width {
      JoinRows(r);
      JoinSplit(s, ' ');
    }
  }

  /** Two one-letter words do not fit on a row one column wide. */
  lemma WrapExample()
    ensures Wrap("a b", 1) == "a\nb"
  {
    assert Split("a b", ' ') == ["a", "b"] by {
      assert IndexOf("a b", ' ') == Some(1);
      assert "a b"[..1] == "a" && "a b"[2..] == "b";
      assert IndexOf("b", ' ') == None;
    }
    assert Letters(["a"]) == 1 by {
      assert ["a"][1..] == [];
    }
    var words: seq<string> := ["a", "b"];
    var none: seq<seq<string>> := [];
    var empty: seq<string> := [];
    assert Rows(words, 1) == WrapFrom(words, 1, 1, none, empty + ["a"]);
    assert empty + ["a"] == ["a"];
    assert WrapFrom(words, 1, 1, none, ["a"]) == WrapFrom(words, 2, 1, none + [["a"]], ["b"]);
    assert Rows(words, 1) == [["a"], ["b"]];
  }

  /** restrictWidthByWords: the word loop with the row being filled and its letter count. */
  method RestrictWidthByWords(s: string, width: int) returns (r: string)
    ensures r == Wrap(s, width)
  {
    var words := Split(s, ' ');
    ghost var whole := Rows(words, width);
    ghost var closed: seq<seq<string>> := [];
    var rows: seq<string> := [];
    var currentRow: seq<string> := [];
    var currentRowWordLength := 0;
    for i := 0 to |words|
      invariant rows == Lines(closed)
      invariant currentRowWordLength == Letters(currentRow)
      invariant WrapFrom(words, i, width, closed, currentRow) == whole
    {
      var word := words[i];
      if |word| + currentRowWordLength + |currentRow| > width {
        assert whole == WrapFrom(words, i + 1, width, closed + [currentRow], [word]);
        rows := rows + [Join(currentRow, " ")];
        assert rows == Lines(closed + [currentRow]);
        closed := closed + [currentRow];
        currentRow := [];
        currentRowWordLength := 0;
        assert currentRow + [word] == [word];
      } else {
        assert whole == WrapFrom(words, i + 1, width, closed, currentRow + [word]);
      }
      LettersSnoc(currentRow, word);
      currentRow := currentRow + [word];
      currentRowWordLength := currentRowWordLength + |word|;
    }
    rows := rows + [Join(currentRow, " ")];
    assert rows == Lines(closed + [currentRow]);
    r := Join(rows, "\n");
  }

  /** The first occurrence of `c` is where `c` occurs with none before it. */
  lemma IndexOfAt(s: string, c: char, i: nat)
    requires i < |s| && s[i] == c && c !in s[..i]
    ensures IndexOf(s, c) == Some(i)
  {
  }

  /** A split ends its first piece at the first separator. */
  lemma SplitAt(s: string, c: char, i: nat)
    requires i < |s| && s[i] == c && c !in s[..i]
    ensures Split(s, c) == [s[..i]] + Split(s[i + 1..], c)
  {
    IndexOfAt(s, c, i);
  }

  /** A string without the separator is a single piece, even with more text after a separator. */
  lemma SplitAfterWhole(a: string, b: string, c: char)
    requires c !in a
    ensures Split(a + [c] + b, c) == [a] + Split(b, c)
  {
    var s := a + [c] + b;
    assert s[|a|] == c && s[..|a|] == a && s[|a| + 1..] == b;
    SplitAt(s, c, |a|);
  }

  /** A separator inside `a` ends the first piece there, whatever follows `a`. */
  lemma SplitInside(a: string, b: string, c: char, i: nat)
    requires i < |a| && a[i] == c && c !in a[..i]
    ensures Split(a + [c] + b, c) == [a[..i]] + Split(a[i + 1..] + [c] + b, c)
  {
    var s := a + [c] + b;
    assert s[i] == c && s[..i] == a[..i];
    assert s[i + 1..] == a[i + 1..] + [c] + b;
    SplitAt(s, c, i);
  }

  /** Regrouping a concatenation. */
  lemma Regroup<T>(x: seq<T>, h: seq<T>, y: seq<T>, u: seq<T>, p: seq<T>, q: seq<T>)
    requires x == h + y && u == h + p && y == p + q
    ensures x == u + q
  {
  }

  /** Splitting at a separator placed between two strings splits each of them. */
  lemma {:induction false} SplitAround(a: string, b: string, c: char)
    ensures Split(a + [c] + b, c) == Split(a, c) + Split(b, c)
    decreases |a|
  {
    if c !in a {
      SplitAfterWhole(a, b, c);
    } else {
      var i := IndexOf(a, c).value;
      var rest := a[i + 1..];
      var head := [a[..i]];
      assert Split(a + [c] + b, c) == head + Split(rest + [c] + b, c) by { SplitInside(a, b, c, i); }
      assert Split(a, c) == head + Split(rest, c) by { SplitAt(a, c, i); }
      assert Split(rest + [c] + b, c) == Split(rest, c) + Split(b, c) by { SplitAround(rest, b, c); }
      Regroup(Split(a + [c] + b, c), head, Split(rest + [c] + b, c), Split(a, c), Split(rest, c), Split(b, c));
    }
  }

  /** Every line is at most `m` long. */
  predicate AllWithin(lines: seq<string>, m: nat)
  {
    forall p :: 0 <= p < |lines| ==> |lines[p]| <= m
  }

  lemma WithinConcat(front: seq<string>, back: seq<string>, m: nat)
    requires AllWithin(front, m) && AllWithin(back, m)
    ensures AllWithin(front + back, m)
  {
    forall p | 0 <= p < |front + back| ensures |(front + back)[p]| <= m {
      if p < |front| {
        assert (front + back)[p] == front[p];
      } else {
        assert (front + back)[p] == back[p - |front|];
      }
    }
  }

  /** No piece of a split is longer than the string split. */
  lemma {:induction false} SplitPiecesShort(s: string, c: char)
    ensures AllWithin(Split(s, c), |s|)
    decreases |s|
  {
    match IndexOf(s, c)
    case None =>
    case Some(i) =>
      SplitPiecesShort(s[i + 1..], c);
  }

  /** The pieces of lines joined by line breaks are no longer than the longest line. */
  lemma {:induction false} JoinedLinesShort(lines: seq<string>, m: nat)
    requires AllWithin(lines, m)
    ensures AllWithin(Split(Join(lines, "\n"), '\n'), m)
    decreases |lines|
  {
    if |lines| <= 1 {
      SplitPiecesShort(Join(lines, "\n"), '\n');
    } else {
      var rest := Join(lines[1..], "\n");
      assert |lines[0]| <= m;
      assert AllWithin(lines[1..], m) by {
        forall j | 0 <= j < |lines[1..]| ensures |lines[1..][j]| <= m {
          assert lines[1..][j] == lines[j + 1];
        }
      }
      JoinedLinesShort(lines[1..], m);
      SplitPiecesShort(lines[0], '\n');
      SplitAround(lines[0], rest, '\n');
      assert Join(lines, "\n") == lines[0] + "\n" + rest;
      WithinConcat(Split(lines[0], '\n'), Split(rest, '\n'), m);
    }
  }

  /** The key lines of a field: its flags, if any is set, then its file key, if it has one. */
  function KeyLines(f: FieldState): (lines: seq<string>)
    ensures |lines| <= 2
    ensures (lines == []) <==> f.shortFlag == NoRune && f.longFlag == "" && f.fileKey == ""
  {
    var indentation := Repeat(' ', FlagIndentDepth);
    var components := (if f.shortFlag != NoRune then [['-', f.shortFlag]] else [])
                      + (if f.longFlag != "" then ["--" + f.longFlag] else []);
    var flagLine := if components != [] then [indentation + Join(components, ", ")] else [];
    var fileLine := if f.fileKey != "" then [indentation + (if f.fileCategory != "" then f.fileCategory + "." else "") + f.fileKey]
                    else [];
    flagLine + fileLine
  }

  /** The length of the longest line, 0 for none. */
  function Widest(lines: seq<string>): (m: nat)
    ensures forall j :: 0 <= j < |lines| ==> |lines[j]| <= m
    ensures m == 0 || exists j :: 0 <= j < |lines| && |lines[j]| == m
  {
    if lines == [] then 0
    else
      var rest := Widest(lines[1..]);
      assert forall j :: 1 <= j < |lines| ==> lines[j] == lines[1..][j - 1];
      if |lines[0]| > rest then |lines[0]| else rest
  }

  /** Each field's key lines joined by line breaks, and the widest key line of all. */
  datatype Keys = Keys(sections: seq<string>, width: nat)

  /** formatFieldKeys over the fields in key order: no key line is wider than the key width. */
  function FormatFieldKeys(reg: Registry, order: seq<string>): (k: Keys)
    requires Covers(reg, order)
    ensures |k.sections| == |order|
    ensures forall i :: 0 <= i < |order| ==>
              k.sections[i] == Join(KeyLines(reg[order[i]]), "\n") && AllWithin(KeyLines(reg[order[i]]), k.width)
    decreases |order|
  {
    if order == [] then Keys([], 0)
    else
      var init := order[..|order| - 1];
      var k := FormatFieldKeys(reg, init);
      var lines := KeyLines(reg[order[|order| - 1]]);
      var width := Widest(lines);
      var r := Keys(k.sections + [Join(lines, "\n")], if width > k.width then width else k.width);
      assert forall i :: 0 <= i < |init| ==> init[i] == order[i] && r.sections[i] == k.sections[i];
      r
  }

  /** The key width is that of the widest key line of some field, or 0 when no field has one. */
  lemma {:induction false} KeyWidthAttained(reg: Registry, order: seq<string>)
    requires Covers(reg, order)
    ensures var w := FormatFieldKeys(reg, order).width;
            w == 0 || exists i :: 0 <= i < |order| && Widest(KeyLines(reg[order[i]])) == w
    decreases |order|
  {
    if order != [] {
      var init := order[..|order| - 1];
      KeyWidthAttained(reg, init);
      var w0 := FormatFieldKeys(reg, init).width;
      if w0 != 0 && FormatFieldKeys(reg, order).width == w0 {
        var i :| 0 <= i < |init| && Widest(KeyLines(reg[init[i]])) == w0;
        assert init[i] == order[i];
      }
    }
  }

  /** The key sections split back into lines no wider than the key width. */
  lemma SectionsWithin(reg: Registry, order: seq<string>, i: nat)
    requires Covers(reg, order) && i < |order|
    ensures var k := FormatFieldKeys(reg, order);
            AllWithin(Split(k.sections[i], '\n'), k.width)
  {
    var k := FormatFieldKeys(reg, order);
    var lines := KeyLines(reg[order[i]]);
    assert k.sections[i] == Join(lines, "\n");
    assert AllWithin(lines, k.width);
    JoinedLinesShort(lines, k.width);
  }

  /** One line of formatArgSideBySide: the key line, padded to column keysWidth + 4, then the description line. */
  function SideLine(keyLines: seq<string>, descLines: seq<string>, i: nat, keysWidth: nat): string
    requires AllWithin(keyLines, keysWidth)
  {
    var left := if i < |keyLines| then keyLines[i] else "";
    if i < |descLines| then left + Repeat(' ', keysWidth - |left| + KeyToDescriptionSpacing) + descLines[i] else left
  }

  /** The lines of formatArgSideBySide, as many as the longer of the two columns. */
  function SideRows(keyLines: seq<string>, descLines: seq<string>, keysWidth: nat): (rows: seq<string>)
    requires AllWithin(keyLines, keysWidth)
    ensures |rows| == if |keyLines| > |descLines| then |keyLines| else |descLines|
  {
    var n := if |keyLines| > |descLines| then |keyLines| else |descLines|;
    seq(n, i requires 0 <= i < n => SideLine(keyLines, descLines, i, keysWidth))
  }

  /** formatArgSideBySide: the key lines on the left, the wrapped description beside them. */
  function SideBySide(keys: string, description: string, keysWidth: nat, descriptionWidth: int): string
    requires AllWithin(Split(keys, '\n'), keysWidth)
  {
    Join(SideRows(Split(keys, '\n'), Split(Wrap(description, descriptionWidth), '\n'), keysWidth), "\n")
  }

  /** A side-by-side line: the key line first, the description line from column keysWidth + 4. */
  lemma SideLineColumns(keyLines: seq<string>, descLines: seq<string>, i: nat, keysWidth: nat)
    requires AllWithin(keyLines, keysWidth)
    requires forall j :: 0 <= j < |descLines| ==> '\n' !in descLines[j]
    ensures var line := SideLine(keyLines, descLines, i, keysWidth);
            (i < |keyLines| ==> '\n' !in keyLines[i] ==> '\n' !in line)
            && (i >= |keyLines| ==> '\n' !in line)
            && (i < |keyLines| ==> |line| >= |keyLines[i]| && line[..|keyLines[i]|] == keyLines[i])
            && (i < |descLines| ==>
                  |line| == keysWidth + KeyToDescriptionSpacing + |descLines[i]|
                  && line[keysWidth + KeyToDescriptionSpacing..] == descLines[i])
  {
    var left := if i < |keyLines| then keyLines[i] else "";
    if i < |keyLines| {
      assert |left| <= keysWidth;
    }
    if i < |descLines| {
      var pad := Repeat(' ', keysWidth - |left| + KeyToDescriptionSpacing);
      var line := left + pad + descLines[i];
      assert '\n' !in pad;
      assert |left + pad| == keysWidth + KeyToDescriptionSpacing;
      assert line[..|left|] == left;
      assert line[keysWidth + KeyToDescriptionSpacing..] == descLines[i];
    }
  }

  /**
   * Side by side, a block has as many lines as the longer of its key
   * lines and description lines, each key line starts its line, and each
   * description line starts at column keysWidth + 4.
   */
  lemma SideBySideColumns(keys: string, description: string, keysWidth: nat, descriptionWidth: int)
    requires AllWithin(Split(keys, '\n'), keysWidth)
    ensures var kl := Split(keys, '\n');
            var dl := Split(Wrap(description, descriptionWidth), '\n');
            var lines := Split(SideBySide(keys, description, keysWidth, descriptionWidth), '\n');
            |lines| == (if |kl| > |dl| then |kl| else |dl|)
            && (forall i :: 0 <= i < |kl| ==> |lines[i]| >= |kl[i]| && lines[i][..|kl[i]|] == kl[i])
            && (forall i :: 0 <= i < |dl| ==>
                  |lines[i]| == keysWidth + KeyToDescriptionSpacing + |dl[i]|
                  && lines[i][keysWidth + KeyToDescriptionSpacing..] == dl[i])
  {
    var kl := Split(keys, '\n');
    var dl := Split(Wrap(description, descriptionWidth), '\n');
    var rows := SideRows(kl, dl, keysWidth);
    forall i | 0 <= i < |rows| ensures '\n' !in rows[i] {
      SideLineColumns(kl, dl, i, keysWidth);
    }
    SplitJoin(rows, '\n');
    forall i | 0 <= i < |kl| ensures |rows[i]| >= |kl[i]| && rows[i][..|kl[i]|] == kl[i] {
      SideLineColumns(kl, dl, i, keysWidth);
    }
    forall i | 0 <= i < |dl|
      ensures |rows[i]| == keysWidth + KeyToDescriptionSpacing + |dl[i]|
              && rows[i][keysWidth + KeyToDescriptionSpacing..] == dl[i]
    {
      SideLineColumns(kl, dl, i, keysWidth);
    }
  }

  /** formatArgsVertical for one field: the wrapped key lines, a blank line, the wrapped description. */
  function Vertical(keys: string, description: string, width: int): string
  {
    var kl := Split(keys, '\n');
    var keyPart := if keys != "" then seq(|kl|, j requires 0 <= j < |kl| => Wrap(kl[j], width)) else [];
    var lines := if description != "" then keyPart + (if keyPart != [] then [""] else []) + [Wrap(description, width)]
                 else keyPart;
    Join(lines, "\n")
  }

  /**
   * Stacked, a block is its key lines, then a blank line and the
   * description; the blank line appears only when there are both.
   */
  lemma VerticalBlock(keys: string, description: string, width: int)
    ensures var kl := Split(keys, '\n');
            var keyText := Join(seq(|kl|, j requires 0 <= j < |kl| => Wrap(kl[j], width)), "\n");
            Vertical(keys, description, width)
            == if keys == "" then (if description == "" then "" else Wrap(description, width))
               else if description == "" then keyText
               else keyText + "\n\n" + Wrap(description, width)
  {
    var kl := Split(keys, '\n');
    var keyPart := seq(|kl|, j requires 0 <= j < |kl| => Wrap(kl[j], width));
    var desc := Wrap(description, width);
    if keys == "" {
      if description != "" {
        assert Vertical(keys, description, width) == Join([desc], "\n") == desc;
      }
    } else if description == "" {
      assert Vertical(keys, description, width) == Join(keyPart, "\n");
    } else {
      assert keyPart != [];
      assert Vertical(keys, description, width) == Join(keyPart + [""] + [desc], "\n");
      BlankLineBetween(keyPart, desc);
    }
  }

  /** Lines joined with a blank line before the last: the two parts two line breaks apart. */
  lemma BlankLineBetween(first: seq<string>, last: string)
    requires first != []
    ensures Join(first + [""] + [last], "\n") == Join(first, "\n") + "\n\n" + last
  {
    assert first + [""] + [last] == first + ["", last];
    JoinConcat(first, ["", last], "\n");
    assert Join(["", last], "\n") == "" + "\n" + last;
  }

  /**
   * The field blocks: side by side when the descriptions keep more than
   * the minimum width beside the widest key line and its spacing,
   * stacked otherwise.
   */
  function ArgBlocks(width: int, reg: Registry, order: seq<string>): (blocks: seq<string>)
    requires Covers(reg, order)
    ensures |blocks| == |order|
  {
    var keys := FormatFieldKeys(reg, order);
    var room := width - keys.width - KeyToDescriptionSpacing;
    if room > MinUsageWidth then
      seq(|order|, i requires 0 <= i < |order| =>
            SectionsWithin(reg, order, i);
            SideBySide(keys.sections[i], reg[order[i]].description, keys.width, room))
    else
      seq(|order|, i requires 0 <= i < |order| => Vertical(keys.sections[i], reg[order[i]].description, width))
  }

  /** Usage: the width clamped to the minimum, the name, the description and the field blocks, a blank line apart. */
  function UsageText(width: nat, name: string, description: string, reg: Registry, order: seq<string>): string
    requires Covers(reg, order)
  {
    var w := if width < MinUsageWidth then MinUsageWidth else width;
    var head := (if name != "" then [Wrap(name, w)] else []) + (if description != "" then [Wrap(description, w)] else []);
    Join(head + ArgBlocks(w, reg, order), "\n\n")
  }

  /** A width under the minimum is taken as the minimum. */
  lemma NarrowWidthClamped(width: nat, name: string, description: string, reg: Registry, order: seq<string>)
    requires Covers(reg, order) && width < MinUsageWidth
    ensures UsageText(width, name, description, reg, order) == UsageText(MinUsageWidth, name, description, reg, order)
  {
  }

  /** A program name comes first, wrapped, and is followed by a blank line when anything else is shown. */
  lemma NameFirst(width: nat, name: string, description: string, reg: Registry, order: seq<string>)
    requires Covers(reg, order) && name != ""
    ensures var w := if width < MinUsageWidth then MinUsageWidth else width;
            var text := UsageText(width, name, description, reg, order);
            var first := Wrap(name, w);
            if description == "" && order == [] then text == first
            else HasPrefix(text, first + "\n\n")
  {
    var w := if width < MinUsageWidth then MinUsageWidth else width;
    var head := [Wrap(name, w)] + (if description != "" then [Wrap(description, w)] else []);
    var parts := head + ArgBlocks(w, reg, order);
    assert parts[0] == Wrap(name, w);
    if |parts| > 1 {
      var text := Join(parts, "\n\n");
      assert text == Wrap(name, w) + "\n\n" + Join(parts[1..], "\n\n");
      assert text[..|Wrap(name, w) + "\n\n"|] == Wrap(name, w) + "\n\n";
    }
  }

  /** The key lines of two fields of the usage example. */
  lemma KeyLinesExamples(f: FieldState, g: FieldState)
    requires f.shortFlag == 'v' && f.longFlag == "verbose" && f.fileCategory == "" && f.fileKey == "verbose"
    requires g.shortFlag == NoRune && g.longFlag == "" && g.fileCategory == "net" && g.fileKey == "port"
    ensures KeyLines(f) == ["  -v, --verbose", "  verbose"]
    ensures KeyLines(g) == ["  net.port"]
  {
    assert Repeat(' ', FlagIndentDepth) == "  ";
    assert ['-', 'v'] == "-v" && "--" + "verbose" == "--verbose";
    assert "  " + "-v, --verbose" == "  -v, --verbose";
    assert "  " + "" + "verbose" == "  verbose";
    assert "  " + ("net" + ".") + "port" == "  net.port";
    assert Join(["-v", "--verbose"], ", ") == "-v, --verbose";
  }
}
