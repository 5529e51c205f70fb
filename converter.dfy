/** The conversion routine: for each table, a `DROP` and a `CREATE TABLE` built from
    the column descriptors, then one `INSERT` per row, all appended to one script. */
module Converter {
  import opened Text
  import opened TypeMapping
  import opened Values

  /** One row of `PRAGMA table_info`: name, declared type, the `notnull` flag, the
      default as text (or none) and the position in the primary key (0 if none). */
  datatype Column = Column(name: string, declType: string, notNull: int, default: Option<string>, pk: int)

  /** A table as enumerated, with its columns and the rows `SELECT *` returns. */
  datatype Table = Table(name: string, columns: seq<Column>, rows: seq<seq<Value>>)

  datatype Database = Database(tables: seq<Table>)

  const Header := "-- Script gerado para MySQL\n\n"
  const DropPrefix := "DROP TABLE IF EXISTS `"
  const CreatePrefix := "CREATE TABLE `"
  const InsertPrefix := "INSERT INTO `"
  const CreateClose := "\n);\n\n"
  const TableEnd := "\n"

  // ---------------------------------------------------------------------------
  // Column definitions

  /** `"NOT NULL" if col[3] else ""` */
  function NotNullClause(c: Column): string
  {
    if c.notNull != 0 then "NOT NULL" else ""
  }

  /** `f"DEFAULT {col[4]}" if col[4] else ""`: an absent or empty default is dropped. */
  function DefaultClause(c: Column): string
  {
    match c.default
    case Some(d) => if d != "" then "DEFAULT " + d else ""
    case None => ""
  }

  /** `"PRIMARY KEY" if col[5] else ""` */
  function PrimaryKeyClause(c: Column): string
  {
    if c.pk != 0 then "PRIMARY KEY" else ""
  }

  /** One line of the `CREATE TABLE` body. */
  function ColumnDef(c: Column): string
  {
    "  `" + c.name + "` " + MapType(c.declType) + " " + NotNullClause(c) + " " + DefaultClause(c) + " " + PrimaryKeyClause(c)
  }

  function ColumnDefs(cols: seq<Column>): seq<string>
  {
    seq(|cols|, j requires 0 <= j < |cols| => ColumnDef(cols[j]))
  }

  // ---------------------------------------------------------------------------
  // What is written, write by write

  function DropLine(name: string): string
  {
    DropPrefix + name + "`;\n"
  }

  function CreateLine(name: string): string
  {
    CreatePrefix + name + "` (\n"
  }

  function InsertLine(name: string, row: seq<Value>): string
  {
    InsertPrefix + name + "` VALUES (" + RenderValues(row) + ");\n"
  }

  function InsertLines(name: string, rows: seq<seq<Value>>): seq<string>
  {
    seq(|rows|, k requires 0 <= k < |rows| => InsertLine(name, rows[k]))
  }

  /** The `f.write` calls made for one table, in order. */
  function TableWrites(t: Table): seq<string>
  {
    [DropLine(t.name), CreateLine(t.name), Join(",\n", ColumnDefs(t.columns)), CreateClose]
      + InsertLines(t.name, t.rows) + [TableEnd]
  }

  /** The writes for a list of tables, in enumeration order. */
  function AllWrites(ts: seq<Table>): seq<string>
  {
    if ts == [] then [] else AllWrites(ts[..|ts| - 1]) + TableWrites(ts[|ts| - 1])
  }

  /** Every `f.write` of the routine, in order. */
  function Writes(db: Database): seq<string>
  {
    [Header] + AllWrites(db.tables)
  }

  /** The text of the output file. */
  function Script(db: Database): string
  {
    Flatten(Writes(db))
  }

  // ---------------------------------------------------------------------------
  // The routine

  /** `convert_sqlite_to_mysql`, with the database given as a value and the output
      file as the returned text. */
  method Convert(db: Database) returns (out: string)
    ensures out == Script(db)
  {
    FlattenSingleton(Header);
    out := Header;
    var tables := db.tables;
    for i := 0 to |tables|
      invariant out == Flatten([Header] + AllWrites(tables[..i]))
    {
      ghost var before := out;
      out := WriteTable(out, tables[i]);
      AllWritesSnoc(tables, i);
      FlattenAppend([Header] + AllWrites(tables[..i]), TableWrites(tables[i]));
    }
    assert tables[..|tables|] == tables;
  }

  /** The body of the loop over tables: the `DROP` and `CREATE TABLE` statements, the
      rows, and a closing blank line. */
  method WriteTable(out: string, table: Table) returns (out': string)
    ensures out' == out + Flatten(TableWrites(table))
  {
    var drop, create := DropLine(table.name), CreateLine(table.name);
    out' := out + drop;
    ghost var written := drop;
    Extended(out, out', written, create);
    out', written := out' + create, written + create;
    var colDefs := ColumnDefinitions(table.columns);
    var body := Join(",\n", colDefs);
    Extended(out, out', written, body);
    out', written := out' + body, written + body;
    Extended(out, out', written, CreateClose);
    out', written := out' + CreateClose, written + CreateClose;
    ghost var head := [drop, create, body, CreateClose];
    FlattenFour(drop, create, body, CreateClose);
    ghost var beforeRows := out';
    out' := WriteRows(out', table.name, table.rows);
    ghost var ins := InsertLines(table.name, table.rows);
    Extended(out, beforeRows, Flatten(head), Flatten(ins));
    FlattenAppend(head, ins);
    Extended(out, out', Flatten(head + ins), TableEnd);
    FlattenSnoc(head + ins, TableEnd);
    out' := out' + TableEnd;
  }

  /** The loop over columns, collecting one definition per column into `col_defs`. */
  method ColumnDefinitions(cols: seq<Column>) returns (colDefs: seq<string>)
    ensures colDefs == ColumnDefs(cols)
  {
    colDefs := [];
    for j := 0 to |cols|
      invariant colDefs == ColumnDefs(cols[..j])
    {
      var col := cols[j];
      var colNotNull := if col.notNull != 0 then "NOT NULL" else "";
      var colDefault := if col.default.Some? && col.default.value != "" then "DEFAULT " + col.default.value else "";
      var colPrimary := if col.pk != 0 then "PRIMARY KEY" else "";
      var colType := col.declType;
      colType := ReplaceAll(colType, IntKeyword, IntTarget);
      colType := ReplaceAll(colType, TextKeyword, TextTarget);
      colType := ReplaceAll(colType, RealKeyword, RealTarget);
      colType := ReplaceAll(colType, BlobKeyword, BlobTarget);
      var colDef := "  `" + col.name + "` " + colType + " " + colNotNull + " " + colDefault + " " + colPrimary;
      assert colDef == ColumnDef(col);
      ColumnDefsSnoc(cols, j);
      colDefs := colDefs + [colDef];
    }
    assert cols[..|cols|] == cols;
  }

  /** The loop over rows, one `INSERT` statement per row. */
  method WriteRows(out: string, name: string, rows: seq<seq<Value>>) returns (out': string)
    ensures out' == out + Flatten(InsertLines(name, rows))
  {
    out' := out;
    for k := 0 to |rows|
      invariant out' == out + Flatten(InsertLines(name, rows[..k]))
    {
      var values := RenderValues(rows[k]);
      var line := InsertPrefix + name + "` VALUES (" + values + ");\n";
      assert line == InsertLine(name, rows[k]);
      InsertLinesSnoc(name, rows, k);
      Extended(out, out', Flatten(InsertLines(name, rows[..k])), line);
      out' := out' + line;
    }
    assert rows[..|rows|] == rows;
  }

  lemma Extended(out: string, current: string, written: string, x: string)
    requires current == out + written
    ensures current + x == out + (written + x)
  {
  }

  lemma ColumnDefsSnoc(cols: seq<Column>, j: nat)
    requires j < |cols|
    ensures ColumnDefs(cols[..j + 1]) == ColumnDefs(cols[..j]) + [ColumnDef(cols[j])]
  {
  }

  lemma InsertLinesSnoc(name: string, rows: seq<seq<Value>>, k: nat)
    requires k < |rows|
    ensures Flatten(InsertLines(name, rows[..k + 1])) == Flatten(InsertLines(name, rows[..k])) + InsertLine(name, rows[k])
  {
    assert InsertLines(name, rows[..k + 1]) == InsertLines(name, rows[..k]) + [InsertLine(name, rows[k])];
    FlattenAppend(InsertLines(name, rows[..k]), [InsertLine(name, rows[k])]);
    FlattenSingleton(InsertLine(name, rows[k]));
  }

  lemma AllWritesSnoc(ts: seq<Table>, i: nat)
    requires i < |ts|
    ensures [Header] + AllWrites(ts[..i + 1]) == ([Header] + AllWrites(ts[..i])) + TableWrites(ts[i])
  {
    assert ts[..i + 1][..i] == ts[..i];
  }

  // ---------------------------------------------------------------------------
  // Column definitions: layout and order

  /** A column definition is two spaces, then five fields separated by single spaces:
      the backticked name, the mapped type and the three optional clauses. An empty
      clause keeps its separator. */
  lemma ColumnDefLayout(c: Column)
    ensures ColumnDef(c) == "  " + Join(" ", ["`" + c.name + "`", MapType(c.declType),
      NotNullClause(c), DefaultClause(c), PrimaryKeyClause(c)])
  {
    FieldsJoined(c.name, MapType(c.declType), NotNullClause(c), DefaultClause(c), PrimaryKeyClause(c));
  }

  lemma FieldsJoined(n: string, f1: string, f2: string, f3: string, f4: string)
    ensures "  `" + n + "` " + f1 + " " + f2 + " " + f3 + " " + f4 == "  " + Join(" ", ["`" + n + "`", f1, f2, f3, f4])
  {
    JoinFive(" ", "`" + n + "`", f1, f2, f3, f4);
    assert "  `" + n + "` " == "  " + ("`" + n + "`") + " ";
  }

  /** Each clause is present exactly when its flag is set. */
  lemma ColumnClauses(c: Column)
    ensures NotNullClause(c) != "" <==> c.notNull != 0
    ensures NotNullClause(c) != "" ==> NotNullClause(c) == "NOT NULL"
    ensures DefaultClause(c) != "" <==> c.default.Some? && c.default.value != ""
    ensures DefaultClause(c) != "" ==> DefaultClause(c) == "DEFAULT " + c.default.value
    ensures PrimaryKeyClause(c) != "" <==> c.pk != 0
    ensures PrimaryKeyClause(c) != "" ==> PrimaryKeyClause(c) == "PRIMARY KEY"
  {
  }

  /** A column with none of the three clauses still ends in their three separators. */
  lemma BareColumnDef(c: Column)
    requires c.notNull == 0 && c.pk == 0 && (c.default.None? || c.default.value == "")
    ensures ColumnDef(c) == "  `" + c.name + "` " + MapType(c.declType) + "   "
  {
  }

  /** The `CREATE TABLE` body holds one definition per column, in column order, each
      but the last followed by `,\n`. */
  lemma ColumnDefsInOrder(cols: seq<Column>, j: nat)
    requires j < |cols|
    ensures |ColumnDefs(cols)| == |cols| && ColumnDefs(cols)[j] == ColumnDef(cols[j])
    ensures OccursAt(Join(",\n", ColumnDefs(cols)), JoinOffset(",\n", ColumnDefs(cols), j), ColumnDefs(cols)[j])
    ensures j + 1 < |cols| ==>
      OccursAt(Join(",\n", ColumnDefs(cols)), JoinOffset(",\n", ColumnDefs(cols), j) + |ColumnDefs(cols)[j]|, ",\n")
  {
    JoinAt(",\n", ColumnDefs(cols), j);
  }

  /** One more column adds `,\n` and its definition to the end of the body. */
  lemma ColumnBodySnoc(cols: seq<Column>, c: Column)
    ensures Join(",\n", ColumnDefs(cols + [c]))
      == if cols == [] then ColumnDef(c) else Join(",\n", ColumnDefs(cols)) + ",\n" + ColumnDef(c)
  {
    assert ColumnDefs(cols + [c]) == ColumnDefs(cols) + [ColumnDef(c)];
    JoinSnoc(",\n", ColumnDefs(cols), ColumnDef(c));
  }

  // ---------------------------------------------------------------------------
  // Statements: kinds, counts and order

  datatype WriteKind = DropStatement | CreateStatement | InsertStatement | OtherText

  /** What a write is, read from the SQL keyword it begins with. */
  function KindOf(w: string): WriteKind
  {
    if StartsWith(w, "DROP") then DropStatement
    else if StartsWith(w, "CREATE") then CreateStatement
    else if StartsWith(w, "INSERT") then InsertStatement
    else OtherText
  }

  function Kinds(ws: seq<string>): seq<WriteKind>
  {
    seq(|ws|, i requires 0 <= i < |ws| => KindOf(ws[i]))
  }

  /** The writes of `ws` whose kind, as listed in `ks`, is `k`, in order. */
  function Pick(ws: seq<string>, ks: seq<WriteKind>, k: WriteKind): seq<string>
    requires |ks| == |ws|
  {
    if ws == [] then []
    else (if ks[0] == k then [ws[0]] else []) + Pick(ws[1..], ks[1..], k)
  }

  /** The writes of one kind, in the order they were made. */
  function OfKind(ws: seq<string>, k: WriteKind): seq<string>
  {
    Pick(ws, Kinds(ws), k)
  }

  /** All `INSERT` statements for a list of tables: table by table, row by row. */
  function AllInserts(ts: seq<Table>): seq<string>
  {
    if ts == [] then [] else AllInserts(ts[..|ts| - 1]) + InsertLines(ts[|ts| - 1].name, ts[|ts| - 1].rows)
  }

  function TotalRows(ts: seq<Table>): nat
  {
    if ts == [] then 0 else TotalRows(ts[..|ts| - 1]) + |ts[|ts| - 1].rows|
  }

  lemma KindOfOther(w: string)
    requires w == [] || (w[0] != 'D' && w[0] != 'C' && w[0] != 'I')
    ensures KindOf(w) == OtherText
  {
  }

  lemma KindsOfLines(t: Table)
    ensures KindOf(DropLine(t.name)) == DropStatement
    ensures KindOf(CreateLine(t.name)) == CreateStatement
    ensures KindOf(Join(",\n", ColumnDefs(t.columns))) == OtherText
    ensures KindOf(CreateClose) == OtherText && KindOf(TableEnd) == OtherText && KindOf(Header) == OtherText
    ensures forall k | 0 <= k < |t.rows| :: KindOf(InsertLine(t.name, t.rows[k])) == InsertStatement
  {
    KindOfStatement(DropPrefix, t.name + "`;\n", "DROP", DropStatement);
    KindOfStatement(CreatePrefix, t.name + "` (\n", "CREATE", CreateStatement);
    forall k | 0 <= k < |t.rows| ensures KindOf(InsertLine(t.name, t.rows[k])) == InsertStatement {
      KindOfStatement(InsertPrefix, t.name + "` VALUES (" + RenderValues(t.rows[k]) + ");\n", "INSERT", InsertStatement);
      assert InsertLine(t.name, t.rows[k]) == InsertPrefix + (t.name + "` VALUES (" + RenderValues(t.rows[k]) + ");\n");
    }
    ColumnBodyKind(t.columns);
    KindOfOther(CreateClose);
    KindOfOther(TableEnd);
    KindOfOther(Header);
  }

  /** The `CREATE TABLE` body begins with a blank, so it is no statement. */
  lemma ColumnBodyKind(cols: seq<Column>)
    ensures KindOf(Join(",\n", ColumnDefs(cols))) == OtherText
  {
    var defs := ColumnDefs(cols);
    if defs != [] {
      JoinStartsWithFirst(",\n", defs);
      assert defs[0] == "  `" + cols[0].name + "` " + MapType(cols[0].declType) + " " + NotNullClause(cols[0])
        + " " + DefaultClause(cols[0]) + " " + PrimaryKeyClause(cols[0]);
      assert Join(",\n", defs)[0] == defs[0][0] == ' ';
    }
    KindOfOther(Join(",\n", defs));
  }

  /** A write that begins with one of the three statement prefixes is of that kind. */
  lemma KindOfStatement(prefix: string, rest: string, keyword: string, k: WriteKind)
    requires (prefix, keyword, k) in {(DropPrefix, "DROP", DropStatement), (CreatePrefix, "CREATE", CreateStatement),
      (InsertPrefix, "INSERT", InsertStatement)}
    ensures KindOf(prefix + rest) == k
  {
    var w := prefix + rest;
    assert w[..|keyword|] == prefix[..|keyword|] == keyword;
    assert w[0] == keyword[0];
  }


  /** Each table makes exactly one `DROP`, then one `CREATE TABLE`, then one `INSERT`
      per row; nothing else it writes looks like a statement of those kinds. */
  lemma TableWriteKinds(t: Table)
    ensures Kinds(TableWrites(t)) ==
      [DropStatement, CreateStatement, OtherText, OtherText]
      + seq(|t.rows|, k => InsertStatement) + [OtherText]
  {
    KindsOfLines(t);
  }

  lemma {:induction false} PickAppend(xs: seq<string>, xk: seq<WriteKind>, ys: seq<string>, yk: seq<WriteKind>, k: WriteKind)
    requires |xk| == |xs| && |yk| == |ys|
    ensures Pick(xs + ys, xk + yk, k) == Pick(xs, xk, k) + Pick(ys, yk, k)
  {
    if xs == [] {
      assert xs + ys == ys && xk + yk == yk;
    } else {
      assert (xs + ys)[1..] == xs[1..] + ys && (xk + yk)[1..] == xk[1..] + yk;
      PickAppend(xs[1..], xk[1..], ys, yk, k);
    }
  }

  /** Writes all of kind `k` are all kept; writes all of another kind, none. */
  lemma {:induction false} PickUniform(ws: seq<string>, ks: seq<WriteKind>, k: WriteKind, kind: WriteKind)
    requires |ks| == |ws| && forall i | 0 <= i < |ks| :: ks[i] == kind
    ensures Pick(ws, ks, k) == if kind == k then ws else []
  {
    if ws != [] {
      PickUniform(ws[1..], ks[1..], k, kind);
    }
  }

  lemma OfKindAppend(xs: seq<string>, ys: seq<string>, k: WriteKind)
    ensures OfKind(xs + ys, k) == OfKind(xs, k) + OfKind(ys, k)
  {
    assert Kinds(xs + ys) == Kinds(xs) + Kinds(ys);
    PickAppend(xs, Kinds(xs), ys, Kinds(ys), k);
  }

  /** Filtering writes laid out as one table's are: a `DROP`, a `CREATE TABLE`, two
      other writes, a run of `INSERT`s and one more other write. */
  lemma PickTableShape(a: string, b: string, c: string, d: string, ins: seq<string>, ik: seq<WriteKind>, e: string, k: WriteKind)
    requires |ik| == |ins| && forall i | 0 <= i < |ik| :: ik[i] == InsertStatement
    ensures k == DropStatement ==>
      Pick([a, b, c, d] + ins + [e], [DropStatement, CreateStatement, OtherText, OtherText] + ik + [OtherText], k) == [a]
    ensures k == CreateStatement ==>
      Pick([a, b, c, d] + ins + [e], [DropStatement, CreateStatement, OtherText, OtherText] + ik + [OtherText], k) == [b]
    ensures k == InsertStatement ==>
      Pick([a, b, c, d] + ins + [e], [DropStatement, CreateStatement, OtherText, OtherText] + ik + [OtherText], k) == ins
  {
    var hk := [DropStatement, CreateStatement, OtherText, OtherText];
    PickAppend([a, b, c, d] + ins, hk + ik, [e], [OtherText], k);
    PickAppend([a, b, c, d], hk, ins, ik, k);
    PickUniform(ins, ik, k, InsertStatement);
    PickUniform([e], [OtherText], k, OtherText);
    if k != OtherText {
      PickHead(a, b, c, d, k);
    }
  }

  lemma PickHead(a: string, b: string, c: string, d: string, k: WriteKind)
    requires k != OtherText
    ensures Pick([a, b, c, d], [DropStatement, CreateStatement, OtherText, OtherText], k)
      == (if k == DropStatement then [a] else []) + (if k == CreateStatement then [b] else [])
  {
    var ws, ks := [a, b, c, d], [DropStatement, CreateStatement, OtherText, OtherText];
    assert ws[1..] == [b, c, d] && ks[1..] == [CreateStatement, OtherText, OtherText];
    assert Pick(ws, ks, k) == (if k == DropStatement then [a] else []) + Pick([b, c, d], ks[1..], k);
    assert [b, c, d][1..] == [c, d];
    assert Pick([b, c, d], ks[1..], k) == (if k == CreateStatement then [b] else []) + Pick([c, d], [OtherText, OtherText], k);
    PickUniform([c, d], [OtherText, OtherText], k, OtherText);
  }

  /** One table's writes, filtered by kind. */
  lemma TableWritesOfKind(t: Table)
    ensures OfKind(TableWrites(t), DropStatement) == [DropLine(t.name)]
    ensures OfKind(TableWrites(t), CreateStatement) == [CreateLine(t.name)]
    ensures OfKind(TableWrites(t), InsertStatement) == InsertLines(t.name, t.rows)
  {
    TableWriteKinds(t);
    var a, b, c := DropLine(t.name), CreateLine(t.name), Join(",\n", ColumnDefs(t.columns));
    var ins, ik := InsertLines(t.name, t.rows), seq(|t.rows|, k => InsertStatement);
    PickTableShape(a, b, c, CreateClose, ins, ik, TableEnd, DropStatement);
    PickTableShape(a, b, c, CreateClose, ins, ik, TableEnd, CreateStatement);
    PickTableShape(a, b, c, CreateClose, ins, ik, TableEnd, InsertStatement);
  }

  lemma WritesSnoc(ts: seq<Table>)
    requires ts != []
    ensures Writes(Database(ts)) == Writes(Database(ts[..|ts| - 1])) + TableWrites(ts[|ts| - 1])
  {
    var init, last := ts[..|ts| - 1], ts[|ts| - 1];
    assert AllWrites(ts) == AllWrites(init) + TableWrites(last);
    ConsAppend(Header, AllWrites(init), TableWrites(last));
  }

  lemma ConsAppend(h: string, a: seq<string>, b: seq<string>)
    ensures [h] + (a + b) == ([h] + a) + b
  {
  }


  /** Filtering all writes is filtering those before the last table, then the last
      table's own. */
  lemma OfKindStep(ts: seq<Table>, k: WriteKind)
    requires ts != []
    ensures OfKind(Writes(Database(ts)), k)
      == OfKind(Writes(Database(ts[..|ts| - 1])), k) + OfKind(TableWrites(ts[|ts| - 1]), k)
  {
    WritesSnoc(ts);
    OfKindAppend(Writes(Database(ts[..|ts| - 1])), TableWrites(ts[|ts| - 1]), k);
  }

  function DropLines(ts: seq<Table>): seq<string>
  {
    seq(|ts|, i requires 0 <= i < |ts| => DropLine(ts[i].name))
  }

  function CreateLines(ts: seq<Table>): seq<string>
  {
    seq(|ts|, i requires 0 <= i < |ts| => CreateLine(ts[i].name))
  }

  lemma LinesSnoc(ts: seq<Table>)
    requires ts != []
    ensures DropLines(ts) == DropLines(ts[..|ts| - 1]) + [DropLine(ts[|ts| - 1].name)]
    ensures CreateLines(ts) == CreateLines(ts[..|ts| - 1]) + [CreateLine(ts[|ts| - 1].name)]
  {
  }

  /** Before any table, the header is all that is written, and it is no statement. */
  lemma HeaderOfKind(ts: seq<Table>)
    requires ts == []
    ensures forall k | k != OtherText :: OfKind(Writes(Database(ts)), k) == []
  {
    KindOfOther(Header);
    assert Writes(Database(ts)) == [Header];
    assert Kinds([Header]) == [OtherText];
    PickUniform([Header], [OtherText], DropStatement, OtherText);
    PickUniform([Header], [OtherText], CreateStatement, OtherText);
    PickUniform([Header], [OtherText], InsertStatement, OtherText);
  }

  /** The `DROP` statements name the tables in enumeration order, one each. */
  lemma {:induction false} DropsInOrder(ts: seq<Table>)
    ensures OfKind(Writes(Database(ts)), DropStatement) == DropLines(ts)
    decreases |ts|
  {
    if ts == [] {
      HeaderOfKind(ts);
    } else {
      OfKindStep(ts, DropStatement);
      DropsInOrder(ts[..|ts| - 1]);
      TableWritesOfKind(ts[|ts| - 1]);
      LinesSnoc(ts);
    }
  }

  /** The `CREATE TABLE` statements name the tables in enumeration order, one each. */
  lemma {:induction false} CreatesInOrder(ts: seq<Table>)
    ensures OfKind(Writes(Database(ts)), CreateStatement) == CreateLines(ts)
    decreases |ts|
  {
    if ts == [] {
      HeaderOfKind(ts);
    } else {
      OfKindStep(ts, CreateStatement);
      CreatesInOrder(ts[..|ts| - 1]);
      TableWritesOfKind(ts[|ts| - 1]);
      LinesSnoc(ts);
    }
  }

  /** The `INSERT` statements are the first table's rows in row order, then the
      second table's, and so on: one per row, no others. */
  lemma {:induction false} InsertsInOrder(ts: seq<Table>)
    ensures OfKind(Writes(Database(ts)), InsertStatement) == AllInserts(ts)
    ensures |OfKind(Writes(Database(ts)), InsertStatement)| == TotalRows(ts)
    decreases |ts|
  {
    if ts == [] {
      HeaderOfKind(ts);
    } else {
      OfKindStep(ts, InsertStatement);
      InsertsInOrder(ts[..|ts| - 1]);
      TableWritesOfKind(ts[|ts| - 1]);
    }
  }

  // ---------------------------------------------------------------------------
  // The script text

  /** The script opens with the fixed header. */
  lemma ScriptStartsWithHeader(db: Database)
    ensures StartsWith(Script(db), Header)
  {
    FlattenAppend([Header], AllWrites(db.tables));
    FlattenSingleton(Header);
  }

  /** One more table appends exactly that table's text: tables appear in enumeration order. */
  lemma ScriptAppendTable(ts: seq<Table>, t: Table)
    ensures Script(Database(ts + [t])) == Script(Database(ts)) + Flatten(TableWrites(t))
  {
    WritesSnoc(ts + [t]);
    assert (ts + [t])[..|ts|] == ts;
    FlattenAppend(Writes(Database(ts)), TableWrites(t));
  }

  /** Every table's text ends in a blank line. */
  lemma TableTextEndsWithBlankLine(t: Table)
    ensures EndsWith(Flatten(TableWrites(t)), "\n\n")
  {
    var head := [DropLine(t.name), CreateLine(t.name), Join(",\n", ColumnDefs(t.columns)), CreateClose];
    var ins := InsertLines(t.name, t.rows);
    if ins != [] {
      var row := t.rows[|ins| - 1];
      EndsInNewline(InsertPrefix + t.name + "` VALUES (" + RenderValues(row), ");\n");
    }
    BlankLineAfter(head + ins);
  }

  lemma EndsInNewline(a: string, b: string)
    requires b != [] && b[|b| - 1] == '\n'
    ensures (a + b)[|a + b| - 1] == '\n'
  {
  }

  /** Writes whose last one ends a line, followed by one more newline, end in a blank line. */
  lemma BlankLineAfter(ws: seq<string>)
    requires ws != [] && ws[|ws| - 1] != [] && ws[|ws| - 1][|ws[|ws| - 1]| - 1] == '\n'
    ensures EndsWith(Flatten(ws + [TableEnd]), "\n\n")
  {
    var last := ws[|ws| - 1];
    FlattenSnoc(ws, TableEnd);
    assert ws == ws[..|ws| - 1] + [last];
    FlattenSnoc(ws[..|ws| - 1], last);
    NewlineAfterNewline(Flatten(ws[..|ws| - 1]), last);
  }

  lemma NewlineAfterNewline(a: string, b: string)
    requires |b| > 0 && b[|b| - 1] == '\n'
    ensures EndsWith(a + b + "\n", "\n\n")
  {
    var s := a + b + "\n";
    assert s[|s| - 2] == b[|b| - 1];
    assert s[|s| - 2..] == "\n\n";
  }
}
