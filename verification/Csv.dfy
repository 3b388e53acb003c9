/** The CSV renderer of a statement, read back by the rules of section 2 of RFC 4180. */
module Csv {
  import opened Wrappers

  datatype Document = Document(columns: seq<string>, rows: seq<seq<string>>)

  function Join(parts: seq<string>, separator: char): string {
    if parts == [] then ""
    else if |parts| == 1 then parts[0]
    else parts[0] + [separator] + Join(parts[1..], separator)
  }

  // ---------- The renderer ----------

  predicate NeedsQuotes(v: string) {
    '"' in v || ',' in v || '\n' in v
  }

  /** Every quote doubled. */
  function Doubled(v: string): string {
    if v == "" then "" else (if v[0] == '"' then "\"\"" else [v[0]]) + Doubled(v[1..])
  }

  function Escape(v: string): string {
    if NeedsQuotes(v) then "\"" + Doubled(v) + "\"" else v
  }

  lemma {:induction false} DoubledIsNoShorter(v: string)
    ensures |Doubled(v)| >= |v|
  {
    if v != "" { DoubledIsNoShorter(v[1..]); }
  }

  /** A cell is written as it is exactly when it holds no quote, comma or line break. */
  lemma QuotedWhereNeeded(v: string)
    ensures Escape(v) == v <==> '"' !in v && ',' !in v && '\n' !in v
  {
    DoubledIsNoShorter(v);
  }

  function Escaped(row: seq<string>): (r: seq<string>)
    ensures |r| == |row| && forall i :: 0 <= i < |row| ==> r[i] == Escape(row[i])
  {
    seq(|row|, i requires 0 <= i < |row| => Escape(row[i]))
  }

  function Lines(table: seq<seq<string>>): (r: seq<string>)
    ensures |r| == |table| && forall i :: 0 <= i < |table| ==> r[i] == Join(Escaped(table[i]), ',')
  {
    seq(|table|, i requires 0 <= i < |table| => Join(Escaped(table[i]), ','))
  }

  function Table(d: Document): seq<seq<string>> {
    [d.columns] + d.rows
  }

  function Render(d: Document): string {
    Join(Lines(Table(d)), '\n')
  }

  // ---------- The grammar ----------

  /** A cell as it stands in the text: enclosed in quotes or not. */
  datatype Field = Field(cell: string, quoted: bool)

  /** A field without quotes around it holds no quote, comma or line break. */
  predicate WellFormed(f: Field) {
    f.quoted || ('"' !in f.cell && ',' !in f.cell && '\n' !in f.cell)
  }

  function Spell(f: Field): string {
    if f.quoted then "\"" + Doubled(f.cell) + "\"" else f.cell
  }

  function SpellRow(fs: seq<Field>): string {
    if fs == [] then ""
    else if |fs| == 1 then Spell(fs[0])
    else Spell(fs[0]) + "," + SpellRow(fs[1..])
  }

  /** Records separated by line breaks, fields by commas. */
  function SpellFile(rows: seq<seq<Field>>): string {
    if rows == [] then ""
    else if |rows| == 1 then SpellRow(rows[0])
    else SpellRow(rows[0]) + "\n" + SpellFile(rows[1..])
  }

  /** A file has at least one record, and a record at least one field. */
  predicate File(rows: seq<seq<Field>>) {
    && rows != []
    && forall i :: 0 <= i < |rows| ==> rows[i] != [] && forall f :: f in rows[i] ==> WellFormed(f)
  }

  function RowCells(fs: seq<Field>): (r: seq<string>)
    ensures |r| == |fs| && forall i :: 0 <= i < |fs| ==> r[i] == fs[i].cell
  {
    seq(|fs|, i requires 0 <= i < |fs| => fs[i].cell)
  }

  function Cells(rows: seq<seq<Field>>): (r: seq<seq<string>>)
    ensures |r| == |rows| && forall i :: 0 <= i < |rows| ==> r[i] == RowCells(rows[i])
  {
    seq(|rows|, i requires 0 <= i < |rows| => RowCells(rows[i]))
  }

  // ---------- The reader ----------

  predicate AtEnd(rest: string) {
    rest == "" || rest[0] == ',' || rest[0] == '\n'
  }

  /** After an opening quote: two quotes are one, a single quote closes the field. */
  function ReadQuoted(s: string): (r: Option<(string, string)>)
    ensures r.Some? ==> |r.value.1| < |s|
    decreases |s|
  {
    if s == "" then None
    else if s[0] != '"' then
      match ReadQuoted(s[1..])
      case None => None
      case Some((cell, rest)) => Some(([s[0]] + cell, rest))
    else if |s| > 1 && s[1] == '"' then
      match ReadQuoted(s[2..])
      case None => None
      case Some((cell, rest)) => Some((['"'] + cell, rest))
    else if AtEnd(s[1..]) then Some(("", s[1..]))
    else None
  }

  /** Up to the next separator; a quote has no place here. */
  function ReadPlain(s: string): (r: Option<(string, string)>)
    ensures r.Some? ==> |r.value.1| <= |s| && AtEnd(r.value.1)
    decreases |s|
  {
    if AtEnd(s) then Some(("", s))
    else if s[0] == '"' then None
    else
      match ReadPlain(s[1..])
      case None => None
      case Some((cell, rest)) => Some(([s[0]] + cell, rest))
  }

  function ReadField(s: string): (r: Option<(string, string)>)
    ensures r.Some? ==> |r.value.1| <= |s|
  {
    if s != "" && s[0] == '"' then ReadQuoted(s[1..]) else ReadPlain(s)
  }

  /** All records of a text, or nothing if it is not a file of the grammar. */
  function Read(s: string): (r: Option<seq<seq<string>>>)
    ensures r.Some? ==> r.value != [] && forall i :: 0 <= i < |r.value| ==> r.value[i] != []
    decreases |s|
  {
    match ReadField(s)
    case None => None
    case Some((cell, rest)) =>
      if rest == "" then Some([[cell]])
      else match Read(rest[1..])
        case None => None
        case Some(rows) =>
          if rest[0] == ',' then Some([[cell] + rows[0]] + rows[1..]) else Some([[cell]] + rows)
  }

  // ---------- The reader accepts the grammar ----------

  lemma {:induction false} ReadQuotedSpelled(cell: string, rest: string)
    requires AtEnd(rest)
    ensures ReadQuoted(Doubled(cell) + "\"" + rest) == Some((cell, rest))
  {
    var s := Doubled(cell) + "\"" + rest;
    if cell == "" {
      assert s == ['"'] + rest;
      assert s[1..] == rest;
    } else {
      ReadQuotedSpelled(cell[1..], rest);
      var tail := Doubled(cell[1..]) + "\"" + rest;
      assert [cell[0]] + cell[1..] == cell;
      if cell[0] == '"' {
        assert s == ['"', '"'] + tail;
        assert s[2..] == tail;
      } else {
        assert s == [cell[0]] + tail;
        assert s[1..] == tail;
      }
    }
  }

  lemma {:induction false} ReadPlainSpelled(cell: string, rest: string)
    requires AtEnd(rest) && !NeedsQuotes(cell)
    ensures ReadPlain(cell + rest) == Some((cell, rest))
  {
    var s := cell + rest;
    if cell == "" {
      assert s == rest;
    } else {
      assert cell[0] in cell && forall c :: c in cell[1..] ==> c in cell;
      ReadPlainSpelled(cell[1..], rest);
      assert s[1..] == cell[1..] + rest;
      assert [cell[0]] + cell[1..] == cell;
    }
  }

  lemma ReadFieldSpelled(f: Field, rest: string)
    requires AtEnd(rest) && WellFormed(f)
    ensures ReadField(Spell(f) + rest) == Some((f.cell, rest))
  {
    var s := Spell(f) + rest;
    if f.quoted {
      ReadQuotedSpelled(f.cell, rest);
      assert s[1..] == Doubled(f.cell) + "\"" + rest;
    } else {
      ReadPlainSpelled(f.cell, rest);
      if f.cell != "" { assert f.cell[0] in f.cell; }
    }
  }

  /** The text of a file after its first field. */
  function RestOf(rows: seq<seq<Field>>): string
    requires rows != [] && rows[0] != []
  {
    if |rows[0]| > 1 then "," + SpellFile([rows[0][1..]] + rows[1..])
    else if |rows| > 1 then "\n" + SpellFile(rows[1..])
    else ""
  }

  lemma SpellFileSplits(rows: seq<seq<Field>>)
    requires rows != [] && rows[0] != []
    ensures SpellFile(rows) == Spell(rows[0][0]) + RestOf(rows)
  {
    var shorter := [rows[0][1..]] + rows[1..];
    assert shorter[1..] == rows[1..] && shorter[0] == rows[0][1..];
  }

  /** A field put in front, in the first row or in a row of its own. */
  function Prepend(f: Field, later: seq<seq<Field>>, sameRow: bool): seq<seq<Field>>
    requires later != []
  {
    if sameRow then [[f] + later[0]] + later[1..] else [[f]] + later
  }

  lemma PrependedCells(f: Field, later: seq<seq<Field>>, sameRow: bool)
    requires later != []
    ensures Cells(Prepend(f, later, sameRow)) ==
      if sameRow then [[f.cell] + Cells(later)[0]] + Cells(later)[1..] else [[f.cell]] + Cells(later)
  {
    var rows := Prepend(f, later, sameRow);
    if sameRow {
      assert RowCells(rows[0]) == [f.cell] + RowCells(later[0]);
      assert forall i :: 1 <= i < |rows| ==> rows[i] == later[i];
    } else {
      assert RowCells(rows[0]) == [f.cell];
      assert forall i :: 1 <= i < |rows| ==> rows[i] == later[i - 1];
    }
  }

  lemma PrependedRest(f: Field, later: seq<seq<Field>>, sameRow: bool)
    requires later != [] && later[0] != []
    ensures var rows := Prepend(f, later, sameRow);
      && rows[0] != [] && rows[0][0] == f
      && RestOf(rows) == (if sameRow then "," else "\n") + SpellFile(later)
  {}

  lemma PrependedFile(f: Field, later: seq<seq<Field>>, sameRow: bool)
    requires WellFormed(f) && File(later)
    ensures File(Prepend(f, later, sameRow))
  {}

  lemma WithoutFirst(rows: seq<seq<Field>>)
    requires rows != [] && rows[0] != []
    ensures |rows[0]| > 1 ==> Prepend(rows[0][0], [rows[0][1..]] + rows[1..], true) == rows
    ensures |rows[0]| == 1 && |rows| > 1 ==> Prepend(rows[0][0], rows[1..], false) == rows
  {
    assert rows == [rows[0]] + rows[1..] && rows[0] == [rows[0][0]] + rows[0][1..];
    var shorter := [rows[0][1..]] + rows[1..];
    assert shorter[0] == rows[0][1..] && shorter[1..] == rows[1..];
    if |rows[0]| == 1 { assert rows[0] == [rows[0][0]]; }
  }

  /** Complete: however its fields are quoted, a file of the grammar reads back as its cells. */
  lemma {:induction false} ReaderIsComplete(rows: seq<seq<Field>>)
    requires File(rows)
    ensures Read(SpellFile(rows)) == Some(Cells(rows))
    decreases |rows|, |rows[0]|
  {
    var f, rest := rows[0][0], RestOf(rows);
    assert WellFormed(f);
    SpellFileSplits(rows);
    ReadFieldSpelled(f, rest);
    hide ReadField, Spell, WellFormed, SpellFile;
    if |rows[0]| == 1 && |rows| == 1 {
      assert rows[0] == [f];
      assert rows == [[f]];
      assert RowCells([f]) == [f.cell];
      assert Cells(rows) == [[f.cell]];
    } else {
      var sameRow := |rows[0]| > 1;
      var later := if sameRow then [rows[0][1..]] + rows[1..] else rows[1..];
      assert File(later) by { if sameRow { ShorterFile(rows); } }
      WithoutFirst(rows);
      assert rest[1..] == SpellFile(later);
      hide File, RestOf, Prepend;
      ReaderIsComplete(later);
      PrependedCells(f, later, sameRow);
    }
  }

  lemma ShorterFile(rows: seq<seq<Field>>)
    requires File(rows) && |rows[0]| > 1
    ensures File([rows[0][1..]] + rows[1..])
  {}

  // ---------- The reader accepts nothing else ----------

  lemma {:induction false} ReadQuotedSound(s: string)
    requires ReadQuoted(s).Some?
    ensures var (cell, rest) := ReadQuoted(s).value; s == Doubled(cell) + "\"" + rest && AtEnd(rest)
    decreases |s|
  {
    if s[0] != '"' {
      ReadQuotedSound(s[1..]);
      var (cell, rest) := ReadQuoted(s[1..]).value;
      assert ([s[0]] + cell)[1..] == cell;
      assert s == [s[0]] + s[1..];
    } else if |s| > 1 && s[1] == '"' {
      ReadQuotedSound(s[2..]);
      var (cell, rest) := ReadQuoted(s[2..]).value;
      assert (['"'] + cell)[1..] == cell;
      assert s == ['"', '"'] + s[2..];
    } else {
      assert s == ['"'] + s[1..];
    }
  }

  lemma {:induction false} ReadPlainSound(s: string)
    requires ReadPlain(s).Some?
    ensures var (cell, rest) := ReadPlain(s).value; s == cell + rest && AtEnd(rest) && !NeedsQuotes(cell)
    decreases |s|
  {
    if !AtEnd(s) {
      ReadPlainSound(s[1..]);
      assert s == [s[0]] + s[1..];
    }
  }

  lemma ReadFieldSound(s: string) returns (f: Field)
    requires ReadField(s).Some?
    ensures WellFormed(f) && AtEnd(ReadField(s).value.1)
    ensures ReadField(s).value.0 == f.cell && s == Spell(f) + ReadField(s).value.1
  {
    if s != "" && s[0] == '"' {
      ReadQuotedSound(s[1..]);
      f := Field(ReadField(s).value.0, true);
      assert s == ['"'] + s[1..];
    } else {
      ReadPlainSound(s);
      f := Field(ReadField(s).value.0, false);
    }
  }

  /** Sound: whatever the reader accepts is a file of the grammar with those cells. */
  lemma {:induction false} ReaderIsSound(s: string) returns (rows: seq<seq<Field>>)
    requires Read(s).Some?
    ensures File(rows) && SpellFile(rows) == s && Cells(rows) == Read(s).value
    decreases |s|
  {
    var f := ReadFieldSound(s);
    var rest := ReadField(s).value.1;
    if rest == "" {
      rows := [[f]];
      assert RowCells([f]) == [f.cell];
    } else {
      hide SpellFile, Cells, File;
      var later := ReaderIsSound(rest[1..]);
      var cells := Read(rest[1..]).value;
      assert Read(s).value == if rest[0] == ',' then [[f.cell] + cells[0]] + cells[1..] else [[f.cell]] + cells;
      hide Read, ReadField;
      rows := Prepend(f, later, rest[0] == ',');
      PrependedCells(f, later, rest[0] == ',');
      PrependedRest(f, later, rest[0] == ',');
      PrependedFile(f, later, rest[0] == ',');
      SpellFileSplits(rows);
      hide Prepend, SpellFile, RestOf, Cells, File;
      assert rest == [rest[0]] + rest[1..];
    }
  }

  // ---------- The round trip ----------

  function Chosen(row: seq<string>): (r: seq<Field>)
    ensures |r| == |row| && forall i :: 0 <= i < |row| ==> r[i] == Field(row[i], NeedsQuotes(row[i]))
  {
    seq(|row|, i requires 0 <= i < |row| => Field(row[i], NeedsQuotes(row[i])))
  }

  function ChosenAll(table: seq<seq<string>>): (r: seq<seq<Field>>)
    ensures |r| == |table| && forall i :: 0 <= i < |table| ==> r[i] == Chosen(table[i])
  {
    seq(|table|, i requires 0 <= i < |table| => Chosen(table[i]))
  }

  lemma {:induction false} RowIsSpelled(row: seq<string>)
    ensures Join(Escaped(row), ',') == SpellRow(Chosen(row))
  {
    if |row| > 1 {
      RowIsSpelled(row[1..]);
      assert Escaped(row)[1..] == Escaped(row[1..]) && Chosen(row)[1..] == Chosen(row[1..]);
    }
  }

  lemma {:induction false} TableIsSpelled(table: seq<seq<string>>)
    ensures Join(Lines(table), '\n') == SpellFile(ChosenAll(table))
  {
    if table != [] { RowIsSpelled(table[0]); }
    if |table| > 1 {
      TableIsSpelled(table[1..]);
      assert Lines(table)[1..] == Lines(table[1..]) && ChosenAll(table)[1..] == ChosenAll(table[1..]);
    }
  }

  /** A row without cells is written like a row with one empty cell. */
  function Visible(table: seq<seq<string>>): (r: seq<seq<string>>)
    ensures |r| == |table| && forall i :: 0 <= i < |table| ==> r[i] == if table[i] == [] then [""] else table[i]
  {
    seq(|table|, i requires 0 <= i < |table| => if table[i] == [] then [""] else table[i])
  }

  lemma {:induction false} EmptyRowsLookAlike(table: seq<seq<string>>)
    ensures Join(Lines(table), '\n') == Join(Lines(Visible(table)), '\n')
  {
    if table != [] {
      assert Join(Escaped(table[0]), ',') == Join(Escaped(Visible(table)[0]), ',');
    }
    if |table| > 1 {
      EmptyRowsLookAlike(table[1..]);
      assert Lines(table)[1..] == Lines(table[1..]);
      assert Visible(table)[1..] == Visible(table[1..]);
      assert Lines(Visible(table))[1..] == Lines(Visible(table[1..]));
    }
  }

  /** Reading a rendered document gives back its columns and rows, whatever text the cells hold,
      except that a row without cells comes back as one empty cell. */
  lemma RenderReadsBack(d: Document)
    ensures Read(Render(d)) == Some(Visible(Table(d)))
  {
    var table := Visible(Table(d));
    EmptyRowsLookAlike(Table(d));
    TableIsSpelled(table);
    var rows := ChosenAll(table);
    assert File(rows);
    ReaderIsComplete(rows);
    forall i | 0 <= i < |table| ensures Cells(rows)[i] == table[i] {}
    assert Cells(rows) == table;
  }

  /** So the round trip is exact if and only if every row, the columns included, has a cell. */
  lemma CsvRoundTrip(d: Document)
    ensures Read(Render(d)) == Some([d.columns] + d.rows) <==>
      d.columns != [] && forall i :: 0 <= i < |d.rows| ==> d.rows[i] != []
  {
    RenderReadsBack(d);
    var table := Table(d);
    if d.columns != [] && forall i :: 0 <= i < |d.rows| ==> d.rows[i] != [] {
      assert Visible(table) == table;
    } else if i :| 0 <= i < |d.rows| && d.rows[i] == [] {
      assert Visible(table)[i + 1] == [""] && table[i + 1] == [];
    } else {
      assert Visible(table)[0] == [""] && table[0] == [];
    }
  }
}
