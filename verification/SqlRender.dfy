/** The SQL text that makepdf/web/routes/smart_table.py renders, read back by the rule for character
    string literals (section 5.3 of ISO/IEC 9075-2): a doubled quote stands for one. */
module SqlRender {
  import opened Options

  /** A cell: NULL, or the text of its value. */
  type Cell = Option<string>

  function Doubled(v: string): string {
    if v == "" then "" else (if v[0] == '\'' then "''" else [v[0]]) + Doubled(v[1..])
  }

  function Literal(c: Cell): string {
    match c
    case None => "NULL"
    case Some(v) => "'" + (Doubled(v) + "'")
  }

  function JoinWith(parts: seq<string>, separator: string): string {
    if parts == [] then ""
    else if |parts| == 1 then parts[0]
    else parts[0] + (separator + JoinWith(parts[1..], separator))
  }

  function Literals(row: seq<Cell>): seq<string> {
    if row == [] then [] else [Literal(row[0])] + Literals(row[1..])
  }

  function Values(row: seq<Cell>): string {
    JoinWith(Literals(row), ", ")
  }

  // ---------------------------------------------------------------- the reader

  /** Reads a character string literal after its opening quote. */
  function ReadText(s: string): Option<(string, string)> {
    if s == "" then None
    else if s[0] != '\'' then
      match ReadText(s[1..])
      case None => None
      case Some((v, rest)) => Some(([s[0]] + v, rest))
    else if |s| > 1 && s[1] == '\'' then
      match ReadText(s[2..])
      case None => None
      case Some((v, rest)) => Some(("'" + v, rest))
    else Some(("", s[1..]))
  }

  function ReadCell(s: string): Option<(Cell, string)> {
    if s != "" && s[0] == '\'' then
      match ReadText(s[1..])
      case None => None
      case Some((v, rest)) => Some((Some(v), rest))
    else if |s| >= 4 && s[..4] == "NULL" then Some((None, s[4..]))
    else None
  }

  function ReadCells(s: string): Option<seq<Cell>>
    decreases |s|
  {
    match ReadCell(s)
    case None => None
    case Some((c, rest)) =>
      if rest == "" then Some([c])
      else if |rest| >= 2 && rest[..2] == ", " && |rest| <= |s| then
        match ReadCells(rest[2..])
        case None => None
        case Some(cells) => Some([c] + cells)
      else None
  }

  function ReadValues(s: string): Option<seq<Cell>> {
    if s == "" then Some([]) else ReadCells(s)
  }

  // ---------------------------------------------------------------- round trip

  /** A doubled text ends exactly at its closing quote. */
  lemma {:induction false} ReadDoubled(v: string, rest: string)
    requires rest == "" || rest[0] != '\''
    ensures ReadText(Doubled(v) + ("'" + rest)) == Some((v, rest))
    decreases |v|
  {
    var s := Doubled(v) + ("'" + rest);
    if v == "" {
      assert s == "'" + rest;
      assert s[1..] == rest;
    } else {
      ReadDoubled(v[1..], rest);
      var tail := Doubled(v[1..]) + ("'" + rest);
      assert v == [v[0]] + v[1..];
      if v[0] == '\'' {
        assert s[0] == '\'' && s[1] == '\'' && s[2..] == tail;
      } else {
        assert s[0] == v[0] && s[1..] == tail;
      }
    }
  }

  lemma ReadTextLiteral(v: string, rest: string)
    requires rest == "" || rest[0] != '\''
    ensures ReadCell(Literal(Some(v)) + rest) == Some((Some(v), rest))
  {
    var s := Literal(Some(v)) + rest;
    ReadDoubled(v, rest);
    assert s == "'" + (Doubled(v) + ("'" + rest));
    assert s[0] == '\'';
    assert s[1..] == Doubled(v) + ("'" + rest);
  }

  lemma ReadNull(rest: string)
    ensures ReadCell(Literal(None) + rest) == Some((None, rest))
  {
    var s := "NULL" + rest;
    assert s[0] == 'N' && s[..4] == "NULL";
    assert s[4..] == rest;
  }

  lemma ReadLiteral(c: Cell, rest: string)
    requires rest == "" || rest[0] != '\''
    ensures ReadCell(Literal(c) + rest) == Some((c, rest))
  {
    if c == None { ReadNull(rest); } else { ReadTextLiteral(c.value, rest); }
  }

  /** Reading a rendered VALUES list returns exactly the original cells, whatever quotes, commas or
      text NULL they hold. */
  lemma {:induction false} RowRoundTrip(row: seq<Cell>)
    ensures ReadValues(Values(row)) == Some(row)
    decreases |row|
  {
    if row != [] {
      assert Literals(row)[1..] == Literals(row[1..]);
      var s := Values(row);
      if |row| == 1 {
        assert Literals(row) == [Literal(row[0])];
        assert s == Literal(row[0]) + "";
        ReadLiteral(row[0], "");
        assert row == [row[0]];
        assert ReadCells(s) == Some([row[0]]);
      } else {
        RowRoundTrip(row[1..]);
        ReadFirst(row[0], Values(row[1..]), row[1..]);
        assert s == Literal(row[0]) + (", " + Values(row[1..]));
        assert row == [row[0]] + row[1..];
      }
    }
  }

  /** Reading goes on after the separator. */
  lemma ReadFirst(c: Cell, tail: string, cells: seq<Cell>)
    requires cells != [] && ReadValues(tail) == Some(cells)
    ensures ReadValues(Literal(c) + (", " + tail)) == Some([c] + cells)
  {
    var rest := ", " + tail;
    ReadLiteral(c, rest);
    assert rest[..2] == ", " && rest[2..] == tail;
    assert tail != "";
  }

  /** Rows that render alike are equal. */
  lemma RenderingIsInjective(a: seq<Cell>, b: seq<Cell>)
    requires Values(a) == Values(b)
    ensures a == b
  {
    RowRoundTrip(a);
    RowRoundTrip(b);
  }

  // ---------------------------------------------------------------- to_sql

  datatype Column = Column(name: string, kind: string)

  /** The type named by the first schema entry for the column. */
  function KindOf(name: string, schema: seq<Column>): string {
    if schema == [] then "string" else if schema[0].name == name then schema[0].kind else KindOf(name, schema[1..])
  }

  function SqlType(kind: string): string {
    if kind == "int" then "INTEGER" else if kind == "float" then "REAL" else if kind == "date" then "DATE" else "TEXT"
  }

  function Definition(name: string, schema: seq<Column>): string {
    "\"" + name + "\" " + SqlType(KindOf(name, schema))
  }

  /** A column is defined by its quoted name and the SQL type of the first schema entry for it. */
  lemma {:induction false} DefinedAs(name: string, schema: seq<Column>, i: nat)
    requires i <= |schema| && (forall k :: 0 <= k < i ==> schema[k].name != name) && (i < |schema| ==> schema[i].name == name)
    ensures Definition(name, schema) == "\"" + name + "\" " +
            (if i == |schema| then "TEXT"
             else match schema[i].kind
             case "int" => "INTEGER"
             case "float" => "REAL"
             case "date" => "DATE"
             case _ => "TEXT")
    decreases i
  {
    if i > 0 {
      assert forall k :: 0 <= k < i - 1 ==> schema[1..][k] == schema[k + 1];
      DefinedAs(name, schema[1..], i - 1);
    }
  }

  function Insert(table: string, row: seq<Cell>): string {
    "INSERT INTO \"" + table + "\" VALUES (" + Values(row) + ");"
  }

  /** The row that an INSERT statement for `table` carries. */
  function InsertedRow(table: string, statement: string): Option<seq<Cell>> {
    var head := "INSERT INTO \"" + table + "\" VALUES (";
    if |head| + 2 <= |statement| && statement[..|head|] == head && statement[|statement| - 2..] == ");"
    then ReadValues(statement[|head|..|statement| - 2])
    else None
  }

  lemma InsertRoundTrip(table: string, row: seq<Cell>)
    ensures InsertedRow(table, Insert(table, row)) == Some(row)
  {
    var head := "INSERT INTO \"" + table + "\" VALUES (";
    assert Insert(table, row) == head + Values(row) + ");";
    assert Insert(table, row)[|head|..|Insert(table, row)| - 2] == Values(row);
    assert Insert(table, row)[..|head|] == head && Insert(table, row)[|Insert(table, row)| - 2..] == ");";
    RowRoundTrip(row);
  }

  /** One definition per column, in order, and one statement per row that reads back as that row. */
  method ToSql(table: string, columns: seq<string>, rows: seq<seq<Cell>>, schema: seq<Column>)
    returns (create: string, inserts: seq<string>, rowCount: nat)
    ensures rowCount == |inserts| == |rows|
    ensures forall i :: 0 <= i < |rows| ==> InsertedRow(table, inserts[i]) == Some(rows[i]) && inserts[i] == Insert(table, rows[i])
    ensures var defs := seq(|columns|, i requires 0 <= i < |columns| => Definition(columns[i], schema));
            create == "CREATE TABLE \"" + table + "\" (" + (if JoinWith(defs, ", ") == "" then "col1 TEXT" else JoinWith(defs, ", ")) + ");"
  {
    var defs: seq<string> := [];
    for c := 0 to |columns|
      invariant |defs| == c && forall i :: 0 <= i < c ==> defs[i] == Definition(columns[i], schema)
    {
      defs := defs + [Definition(columns[c], schema)];
    }
    assert defs == seq(|columns|, i requires 0 <= i < |columns| => Definition(columns[i], schema));
    var body := JoinWith(defs, ", ");
    create := "CREATE TABLE \"" + table + "\" (" + (if body == "" then "col1 TEXT" else body) + ");";
    inserts := [];
    for r := 0 to |rows|
      invariant |inserts| == r
      invariant forall i :: 0 <= i < r ==> InsertedRow(table, inserts[i]) == Some(rows[i]) && inserts[i] == Insert(table, rows[i])
    {
      InsertRoundTrip(table, rows[r]);
      inserts := inserts + [Insert(table, rows[r])];
    }
    rowCount := |rows|;
  }
}
