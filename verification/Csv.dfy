/** The CSV exporter, against a strict parser for section 2 of RFC 4180 with LF line ends. */
module Csv {
  import opened Common

  datatype Cell = Null | Bool(b: bool) | Text(text: string)

  predicate Special(c: char) { c == '\"' || c == ',' || c == '\r' || c == '\n' }

  predicate Plain(value: string) {
    forall i :: 0 <= i < |value| ==> !Special(value[i])
  }

  /** Every double quote written twice. */
  function Doubled(value: string): string {
    if value == "" then "" else (if value[0] == '\"' then "\"\"" else [value[0]]) + Doubled(value[1..])
  }

  function EscapeField(value: string): string {
    if Plain(value) then value else "\"" + Doubled(value) + "\""
  }

  /** Numbers arrive as the text that `String` gives for them. */
  function CellToString(cell: Cell): string {
    match cell
    case Null => ""
    case Bool(b) => if b then "true" else "false"
    case Text(text) => text
  }

  function Join(cells: seq<string>): string {
    if cells == [] then "" else if |cells| == 1 then cells[0] else cells[0] + "," + Join(cells[1..])
  }

  function Escaped(cells: seq<string>): seq<string> {
    seq(|cells|, (i: nat) requires i < |cells| => EscapeField(cells[i]))
  }

  function Lines(grid: seq<seq<string>>): string {
    if grid == [] then "" else Join(Escaped(grid[0])) + "\n" + Lines(grid[1..])
  }

  /** The bytes of the export: the header is joined as it stands, only the cells are escaped. */
  function Export(names: seq<string>, body: seq<seq<string>>): string {
    Join(names) + "\n" + Lines(body)
  }

  // ---------------------------------------------------------------- the parser

  /** A parsed prefix and what follows it. */
  datatype Parsed<T> = Parsed(value: T, rest: string)

  function ParsePlain(t: string): (p: Parsed<string>)
    ensures |p.rest| <= |t|
  {
    if t == "" || Special(t[0]) then Parsed("", t)
    else
      var p := ParsePlain(t[1..]);
      Parsed([t[0]] + p.value, p.rest)
  }

  /** The inside of a quoted field, up to and including its closing quote. */
  function ParseQuoted(t: string): (r: Option<Parsed<string>>)
    ensures r.Some? ==> |r.value.rest| < |t|
  {
    if t == "" then None
    else if t[0] == '\"' && (|t| == 1 || t[1] != '\"') then Some(Parsed("", t[1..]))
    else
      var p := ParseQuoted(if t[0] == '\"' then t[2..] else t[1..]);
      if p.None? then None else Some(Parsed([t[0]] + p.value.value, p.value.rest))
  }

  function ParseField(t: string): (r: Option<Parsed<string>>)
    ensures r.Some? ==> |r.value.rest| <= |t|
  {
    if t != "" && t[0] == '\"' then ParseQuoted(t[1..]) else Some(ParsePlain(t))
  }

  datatype Record = Record(cells: seq<string>, rest: string, ended: bool)

  /** Fields separated by commas, up to a line end or the end of the text. */
  function ParseRecord(t: string): (r: Option<Record>)
    ensures r.Some? && t != "" ==> |r.value.rest| < |t|
    ensures r.Some? ==> r.value.cells != [] && (!r.value.ended ==> r.value.rest == "")
    decreases |t|
  {
    var f := ParseField(t);
    if f.None? then None
    else if f.value.rest == "" then Some(Record([f.value.value], "", false))
    else if f.value.rest[0] == '\n' then Some(Record([f.value.value], f.value.rest[1..], true))
    else if f.value.rest[0] != ',' then None
    else
      var r := ParseRecord(f.value.rest[1..]);
      if r.None? then None else Some(r.value.(cells := [f.value.value] + r.value.cells))
  }

  /** The grid of a text; a line end after the last record is optional. */
  function Parse(t: string): Option<seq<seq<string>>>
    decreases |t|
  {
    if t == "" then Some([])
    else
      var r := ParseRecord(t);
      if r.None? then None
      else
        var g := Parse(r.value.rest);
        if g.None? then None else Some([r.value.cells] + g.value)
  }

  // ---------------------------------------------------------------- printing then parsing

  /** What may follow a field. */
  predicate FieldEnd(tail: string) { tail == "" || tail[0] == ',' || tail[0] == '\n' }

  lemma {:induction false} PlainParses(v: string, tail: string)
    requires Plain(v) && FieldEnd(tail)
    ensures ParsePlain(v + tail) == Parsed(v, tail)
  {
    if v == "" {
      assert v + tail == tail;
    } else {
      assert (v + tail)[1..] == v[1..] + tail && (v + tail)[0] == v[0];
      PlainParses(v[1..], tail);
      assert v == [v[0]] + v[1..];
    }
  }

  lemma {:induction false} QuotedParses(v: string, tail: string)
    requires FieldEnd(tail)
    ensures ParseQuoted(Doubled(v) + "\"" + tail) == Some(Parsed(v, tail))
  {
    var t := Doubled(v) + "\"" + tail;
    if v == "" {
      assert t[0] == '\"' && t[1..] == tail;
    } else {
      var next := Doubled(v[1..]) + "\"" + tail;
      QuotedParses(v[1..], tail);
      if v[0] == '\"' {
        assert t[2..] == next && t[0] == '\"' && t[1] == '\"';
      } else {
        assert t[1..] == next && t[0] == v[0];
      }
      assert v == [v[0]] + v[1..];
    }
  }

  lemma StartsPlain(v: string, tail: string)
    requires Plain(v) && FieldEnd(tail)
    ensures ParseField(v + tail) == Some(ParsePlain(v + tail))
  {
    if v == "" {
      assert v + tail == tail;
    } else {
      assert (v + tail)[0] == v[0];
    }
  }

  lemma OpensQuote(t: string)
    ensures ParseField("\"" + t) == ParseQuoted(t)
  {
    assert ("\"" + t)[1..] == t;
  }

  lemma FieldParses(v: string, tail: string)
    requires FieldEnd(tail)
    ensures ParseField(EscapeField(v) + tail) == Some(Parsed(v, tail))
  {
    if Plain(v) {
      PlainParses(v, tail);
      StartsPlain(v, tail);
    } else {
      QuotedParses(v, tail);
      OpensQuote(Doubled(v) + "\"" + tail);
      assert EscapeField(v) + tail == "\"" + (Doubled(v) + "\"" + tail);
    }
  }

  lemma {:induction false} RecordParses(cells: seq<string>, rest: string)
    requires cells != []
    ensures ParseRecord(Join(Escaped(cells)) + "\n" + rest) == Some(Record(cells, rest, true))
  {
    var t, v := Join(Escaped(cells)) + "\n" + rest, cells[0];
    if |cells| == 1 {
      assert Escaped(cells) == [EscapeField(v)] && cells == [v];
      assert t == EscapeField(v) + ("\n" + rest);
      FieldParses(v, "\n" + rest);
      assert ("\n" + rest)[1..] == rest;
    } else {
      var more := Join(Escaped(cells[1..])) + "\n" + rest;
      assert Escaped(cells)[1..] == Escaped(cells[1..]);
      assert t == EscapeField(v) + ("," + more);
      FieldParses(v, "," + more);
      assert ("," + more)[1..] == more;
      RecordParses(cells[1..], rest);
      assert cells == [v] + cells[1..];
    }
  }

  lemma {:induction false} LinesParse(grid: seq<seq<string>>)
    requires forall i :: 0 <= i < |grid| ==> grid[i] != []
    ensures Parse(Lines(grid)) == Some(grid)
  {
    if grid != [] {
      RecordParses(grid[0], Lines(grid[1..]));
      LinesParse(grid[1..]);
      assert grid == [grid[0]] + grid[1..];
    }
  }

  // ---------------------------------------------------------------- how short a text of a grid can be

  lemma {:induction false} PlainLength(t: string)
    ensures var p := ParsePlain(t);
            Plain(p.value) && |t| == |p.value| + |p.rest|
  {
    if t != "" && !Special(t[0]) { PlainLength(t[1..]); }
  }

  lemma {:induction false} QuotedLength(t: string)
    requires ParseQuoted(t).Some?
    ensures var p := ParseQuoted(t).value;
            |t| == |Doubled(p.value)| + 1 + |p.rest|
    decreases |t|
  {
    if !(t[0] == '\"' && (|t| == 1 || t[1] != '\"')) {
      var next := if t[0] == '\"' then t[2..] else t[1..];
      QuotedLength(next);
      var v, w := ParseQuoted(t).value.value, ParseQuoted(next).value.value;
      assert v[1..] == w && v[0] == t[0];
    }
  }

  lemma {:induction false} DoubledLength(v: string)
    ensures |Doubled(v)| >= |v|
  {
    if v != "" { DoubledLength(v[1..]); }
  }

  lemma FieldLength(t: string)
    requires ParseField(t).Some?
    ensures var p := ParseField(t).value;
            |t| >= |EscapeField(p.value)| + |p.rest|
  {
    var v := ParseField(t).value.value;
    if t != "" && t[0] == '\"' {
      QuotedLength(t[1..]);
      DoubledLength(v);
    } else {
      PlainLength(t);
    }
  }

  lemma {:induction false} RecordLength(t: string)
    requires ParseRecord(t).Some?
    ensures var r := ParseRecord(t).value;
            |t| >= |Join(Escaped(r.cells))| + |r.rest| + if r.ended then 1 else 0
    decreases |t|
  {
    var f, r := ParseField(t).value, ParseRecord(t).value;
    FieldLength(t);
    if f.rest == "" || f.rest[0] == '\n' {
      assert Escaped(r.cells) == [EscapeField(f.value)];
    } else {
      var more := ParseRecord(f.rest[1..]).value;
      RecordLength(f.rest[1..]);
      assert Escaped(r.cells)[1..] == Escaped(more.cells) && Escaped(r.cells)[0] == EscapeField(f.value);
    }
  }

  /** No text of a grid is shorter than its escaped lines, but for the last line end. */
  lemma {:induction false} ParseLength(t: string)
    requires Parse(t).Some?
    ensures |t| + 1 >= |Lines(Parse(t).value)|
    ensures forall i :: 0 <= i < |Parse(t).value| ==> Parse(t).value[i] != []
    decreases |t|
  {
    if t != "" {
      var r := ParseRecord(t).value;
      RecordLength(t);
      ParseLength(r.rest);
      var g := Parse(t).value;
      assert g[0] == r.cells && g[1..] == Parse(r.rest).value;
      assert !r.ended ==> Lines(g[1..]) == "";
    }
  }

  // ---------------------------------------------------------------- the round trip

  ghost predicate PlainNames(names: seq<string>) {
    forall i :: 0 <= i < |names| ==> Plain(names[i])
  }

  lemma {:induction false} JoinLength(names: seq<string>)
    ensures |Join(Escaped(names))| >= |Join(names)| + if PlainNames(names) then 0 else 2
    ensures PlainNames(names) ==> Join(Escaped(names)) == Join(names)
  {
    if |names| == 1 {
      DoubledLength(names[0]);
    } else if names != [] {
      var rest := names[1..];
      JoinLength(rest);
      DoubledLength(names[0]);
      assert Escaped(names)[1..] == Escaped(rest) && Escaped(names)[0] == EscapeField(names[0]);
      assert PlainNames(names) <==> Plain(names[0]) && PlainNames(rest) by {
        assert names == [names[0]] + rest;
        assert forall i :: 0 < i < |names| ==> names[i] == rest[i - 1];
      }
    }
  }

  /** The exported text reads back as the header and the cells exactly when there is a column and every column name is plain. */
  lemma RoundTripIff(names: seq<string>, body: seq<seq<string>>)
    requires forall i :: 0 <= i < |body| ==> |body[i]| == |names|
    ensures Parse(Export(names, body)) == Some([names] + body) <==> names != [] && PlainNames(names)
  {
    var grid, t := [names] + body, Export(names, body);
    assert grid[0] == names && grid[1..] == body;
    JoinLength(names);
    if names != [] && PlainNames(names) {
      assert t == Lines(grid);
      LinesParse(grid);
    } else if Parse(t).Some? {
      ParseLength(t);
    }
  }

  /** A comma in a column name splits the header into more columns than the rows have. */
  lemma CommaInHeader()
    ensures Parse(Export(["a,b"], [["1"]])) == Some([["a", "b"], ["1"]])
  {
    assert Export(["a,b"], [["1"]]) == Lines([["a", "b"], ["1"]]) by {
      assert Escaped(["a", "b"]) == ["a", "b"] && ["a", "b"][1..] == ["b"];
      assert Join(["b"]) == "b" && Join(["a", "b"]) == "a" + "," + "b" == "a,b";
      assert [["a", "b"], ["1"]][1..] == [["1"]];
    }
    LinesParse([["a", "b"], ["1"]]);
  }

  // ---------------------------------------------------------------- the exporter

  function CellsOf(names: seq<string>, row: map<string, Cell>): seq<string> {
    seq(|names|, (i: nat) requires i < |names| => CellToString(if names[i] in row then row[names[i]] else Null))
  }

  function GridOf(names: seq<string>, rows: seq<map<string, Cell>>): seq<seq<string>> {
    seq(|rows|, (i: nat) requires i < |rows| => CellsOf(names, rows[i]))
  }

  lemma {:induction false} LinesPush(grid: seq<seq<string>>, row: seq<string>)
    ensures Lines(grid + [row]) == Lines(grid) + Join(Escaped(row)) + "\n"
  {
    if grid == [] {
      assert grid + [row] == [row] && [row][1..] == [];
    } else {
      assert (grid + [row])[1..] == grid[1..] + [row];
      LinesPush(grid[1..], row);
    }
  }

  /** Nothing for null, the words for a boolean, and a text as it stands. */
  lemma CellPrints(cell: Cell)
    ensures CellToString(cell) == "" <==> cell == Null || cell == Text("")
    ensures CellToString(cell) == "true" <==> cell == Bool(true) || cell == Text("true")
    ensures CellToString(cell) == "false" <==> cell == Bool(false) || cell == Text("false")
    ensures forall text :: text !in {"", "true", "false"} ==> (CellToString(cell) == text <==> cell == Text(text))
  {
  }

  /** So a reader who knows which columns are text and which are not gets every cell back. */
  lemma CellsTold(a: Cell, b: Cell)
    requires CellToString(a) == CellToString(b)
    ensures a.Text? == b.Text? ==> a == b
  {
    CellPrints(a);
    CellPrints(b);
  }

  /** What the record has under a column, in the cell of that column. */
  lemma GridCell(names: seq<string>, rows: seq<map<string, Cell>>, i: nat, j: nat)
    requires i < |rows| && j < |names|
    ensures var grid := GridOf(names, rows);
            && |grid| == |rows| && |grid[i]| == |names|
            && grid[i][j] == if names[j] in rows[i] then CellToString(rows[i][names[j]]) else ""
  {
  }

  /** One header line, then one line per record, in schema column order; a missing field is empty. */
  method ToCsv(names: seq<string>, rows: seq<map<string, Cell>>) returns (text: string)
    ensures text == Export(names, GridOf(names, rows))
    ensures Parse(text) == Some([names] + GridOf(names, rows)) <==> names != [] && PlainNames(names)
  {
    text := Join(names) + "\n";
    var i := 0;
    while i < |rows|
      invariant 0 <= i <= |rows| && text == Export(names, GridOf(names, rows[..i]))
    {
      var cells := CellsOf(names, rows[i]);
      assert GridOf(names, rows[..i + 1]) == GridOf(names, rows[..i]) + [cells];
      LinesPush(GridOf(names, rows[..i]), cells);
      text := text + Join(Escaped(cells)) + "\n";
      i := i + 1;
    }
    assert rows[..i] == rows;
    RoundTripIff(names, GridOf(names, rows));
  }
}
