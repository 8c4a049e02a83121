/** StORM\Connection: identifier quoting, primary key generation, the preparation of one
    input row and the text of a multi-row INSERT. The PDO link, the queries it runs and the
    log are outside the model; the generator callback is represented by its result. */
module Connections {
  import opened Php
  import opened Errors
  import opened Helpers

  // ---------------------------------------------------------------------
  // Quoting

  const QuoteCharMysql := "`"
  const QuoteCharOther := "\""

  /** the quote character the constructor picks from the DSN's driver */
  function QuoteChar(driver: string): (q: string)
    ensures q == (if driver == "mysql" then "`" else "\"")
  {
    if driver == "mysql" then QuoteCharMysql else QuoteCharOther
  }

  /** `quoteIdentifier($string)` */
  function QuoteIdentifier(quoteChar: string, name: string): string {
    quoteChar + name + quoteChar
  }

  /** A quoted identifier is the name between two quote characters of the driver. */
  lemma QuoteIdentifierShape(driver: string, name: string)
    ensures var q := QuoteIdentifier(QuoteChar(driver), name);
      && |q| == |name| + 2
      && q[1..|q| - 1] == name
      && q[0] == q[|q| - 1] == (if driver == "mysql" then '`' else '"')
  {
    var q := QuoteIdentifier(QuoteChar(driver), name);
    assert q[1..|q| - 1] == name;
  }

  // ---------------------------------------------------------------------
  // Primary keys

  /** `generatePrimaryKey()`: null without a generator, else the string form of what the
      generator returned (`generated` stands for that call's result) */
  function GeneratePrimaryKey(generated: Option<Value>): (r: Result<Option<string>>)
    ensures generated.None? ==> r == Ok(None)
    ensures generated.Some? && StringOf(generated.value).Some? ==> r == Ok(StringOf(generated.value))
    ensures r.Err? <==> generated.Some? && generated.value.Obj? && generated.value.toStr.None?
    ensures r.Err? ==> r.error == NoStringForm
    ensures generated.Some? && generated.value.Arr? ==> r == Ok(Some("Array"))
  {
    match generated
    case None => Ok(None)
    case Some(v) =>
      match StringOf(v)
      case None => Err(NoStringForm)
      case Some(s) => Ok(Some(s))
  }

  /** `isset($values[$pk])` */
  predicate IsSet(values: seq<(Key, Value)>, k: string) {
    Get(values, NormKey(k)).Some? && !Get(values, NormKey(k)).value.Null?
  }

  predicate TruthyString(s: Option<string>) {
    s.Some? && s.value != "" && s.value != "0"
  }

  datatype Prepared = Prepared(values: seq<(Key, Value)>, primaryKeys: seq<Value>)

  /** `prepareInputArray($values, $primaryKeys, $nonAutoincrementPK)` for an array input;
      `generated` is what generatePrimaryKey() returns when it is asked */
  function PrepareInputArray(values: seq<(Key, Value)>, primaryKeys: seq<Value>, pk: Option<string>,
                             generated: Option<string>): Prepared
  {
    var filled :=
      if TruthyString(pk) && !IsSet(values, pk.value) && TruthyString(generated)
      then Put(values, NormKey(pk.value), Str(generated.value))
      else values;
    if TruthyString(pk) && IsSet(filled, pk.value)
    then Prepared(filled, primaryKeys + [Get(filled, NormKey(pk.value)).value])
    else Prepared(filled, primaryKeys)
  }

  /** A missing primary key is filled from a truthy generated key and recorded; a present
      one is kept and recorded; without a (truthy) key column nothing changes. */
  lemma PrepareInputArraySpec(values: seq<(Key, Value)>, primaryKeys: seq<Value>, pk: Option<string>,
                              generated: Option<string>)
    ensures var p := PrepareInputArray(values, primaryKeys, pk, generated);
      && (!TruthyString(pk) ==> p == Prepared(values, primaryKeys))
      && (TruthyString(pk) && IsSet(values, pk.value) ==>
            p == Prepared(values, primaryKeys + [Get(values, NormKey(pk.value)).value]))
      && (TruthyString(pk) && !IsSet(values, pk.value) && TruthyString(generated) ==>
            && Get(p.values, NormKey(pk.value)) == Some(Str(generated.value))
            && p.primaryKeys == primaryKeys + [Str(generated.value)]
            && forall k :: k != NormKey(pk.value) ==> Get(p.values, k) == Get(values, k))
      && (TruthyString(pk) && !IsSet(values, pk.value) && !TruthyString(generated) ==>
            p == Prepared(values, primaryKeys))
  {
    if TruthyString(pk) && !IsSet(values, pk.value) && TruthyString(generated) {
      var k := NormKey(pk.value);
      GetPut(values, k, Str(generated.value), k);
      forall k' | k' != k
        ensures Get(Put(values, k, Str(generated.value)), k') == Get(values, k')
      {
        GetPut(values, k, Str(generated.value), k');
      }
    }
  }

  // ---------------------------------------------------------------------
  // getSqlInsert: the rows

  /** one row to insert: property name => raw value, in the order given */
  type Row = seq<(string, Value)>

  /** the binders of one row: `bindVariables($property, $rawValue, $values, $binds, '', (string) $i)`
      for each entry, with no mutations and no prefix */
  function BindRow(row: Row, b: Bound, postfix: string): Result<Bound>
    decreases |row|
  {
    if row == [] then Ok(b)
    else
      match BindVariables(row[0].0, row[0].1, b, "", postfix, [], "")
      case Err(e) => Err(e)
      case Ok(b') => BindRow(row[1..], b', postfix)
  }

  /** `array_values($binds)` or `array_keys($binds)` as a list for createSqlClauseString */
  function AsList(s: seq<string>): (r: seq<(Key, string)>)
    ensures |r| == |s| && forall j :: 0 <= j < |s| ==> r[j] == (IntKey(j), s[j])
  {
    seq(|s|, j requires 0 <= j < |s| => (IntKey(j), s[j]))
  }

  function IgnoreFlag(ignore: bool): string {
    if ignore then " IGNORE" else ""
  }

  /** what the row loop has bound so far: each row's `$binds`, and `$values` */
  datatype Rows = Rows(parts: seq<seq<(string, string)>>, values: seq<(string, Value)>)

  /** `$binds` after the loop: the last row's binders */
  function LastBinds(parts: seq<seq<(string, string)>>): seq<(string, string)> {
    if parts == [] then [] else parts[|parts| - 1]
  }

  /** the text one row adds: the INSERT header and ` VALUES` before the first row, a comma
      before the others, then the row's binders in brackets */
  function RowText(table: string, ignore: bool, i: nat, binds: seq<(string, string)>): string {
    (if i == 0
     then ClauseString("INSERT" + IgnoreFlag(ignore) + " INTO " + table, AsList(ValuesOf(binds)), ",", "", true, false) + " VALUES"
     else ",")
    + ClauseString("", AsList(Keys(binds)), ",", "", true, false)
  }

  /** the text of the rows bound so far, row by row */
  function RowsText(table: string, ignore: bool, parts: seq<seq<(string, string)>>): string {
    if parts == [] then ""
    else RowsText(table, ignore, parts[..|parts| - 1]) + RowText(table, ignore, |parts| - 1, parts[|parts| - 1])
  }

  /** how the loop binds one row: the row, `$values` so far and the row index in, the
      row's `$binds` and the new `$values` out */
  type RowBinder = (Row, seq<(string, Value)>, nat) -> Result<Bound>

  /** what getSqlInsert binds a row with: fresh `$binds`, `(string) $i` as the postfix */
  function BindRowAt(row: Row, values: seq<(string, Value)>, i: nat): Result<Bound> {
    BindRow(row, Bound(values, []), NatToString(i))
  }

  /** The row loop from row `i` on, `count` being the column count of the first row;
      getSqlInsert runs it with `bind` = BindRowAt. */
  function InsertRows(rows: seq<Row>, i: nat, count: nat, acc: Rows, bind: RowBinder): Result<Rows>
    decreases |rows|
  {
    if rows == [] then Ok(acc)
    else
      var n := if i == 0 then |rows[0]| else count;
      if n == 0 then Err(InvalidArgument(NoColumns))
      else if n != |rows[0]| then Err(InvalidArgument(ColumnCountMismatch))
      else
        match bind(rows[0], acc.values, i)
        case Err(e) => Err(e)
        case Ok(b) => InsertRows(rows[1..], i + 1, n, Rows(acc.parts + [b.binds], b.values), bind)
  }

  // ---------------------------------------------------------------------
  // getSqlInsert: ON DUPLICATE KEY UPDATE

  /** an entry of `$onDuplicateUpdate`: a column name or a StORM\Literal */
  datatype Update = Column(name: string) | Lit(sql: string)

  /** the column an entry assigns: the value itself under an integer key */
  function UpdateName(k: Key, u: Update): string {
    if k.IntKey? then (match u case Column(n) => n case Lit(s) => s) else k.s
  }

  /** the `IF(...)` expression that keeps the old value when the checked key differs */
  function CheckedExpression(checkedKey: string, checkedIgnore: bool, name: string): string {
    "IF(" + checkedKey + " != VALUES(" + checkedKey + "), IF (" + (if checkedIgnore then "1" else "0")
    + ", " + name + ", NULL), VALUES(" + name + "))"
  }

  function PlainValue(name: string, u: Update): string {
    if u.Lit? then u.sql else "VALUES(" + name + ")"
  }

  /** One assignment, as the loop body writes it: with a checked key, the checked
      assignment is written and then the plain one as well, with nothing between them. */
  function AssignmentAsWritten(k: Key, u: Update, checkedKey: Option<string>, checkedIgnore: bool): string {
    var name := UpdateName(k, u);
    (if TruthyString(checkedKey)
     then name + "=" + (if u.Lit? then u.sql else CheckedExpression(checkedKey.value, checkedIgnore, name))
     else "")
    + name + "=" + PlainValue(name, u)
  }

  /** One assignment as intended: the checked form replaces the plain one. */
  function Assignment(k: Key, u: Update, checkedKey: Option<string>, checkedIgnore: bool): string {
    var name := UpdateName(k, u);
    if TruthyString(checkedKey) && !u.Lit?
    then name + "=" + CheckedExpression(checkedKey.value, checkedIgnore, name)
    else name + "=" + PlainValue(name, u)
  }

  function Assignments(us: seq<(Key, Update)>, checkedKey: Option<string>, checkedIgnore: bool): (r: seq<string>)
    ensures |r| == |us| && forall j :: 0 <= j < |us| ==> r[j] == Assignment(us[j].0, us[j].1, checkedKey, checkedIgnore)
  {
    seq(|us|, j requires 0 <= j < |us| => Assignment(us[j].0, us[j].1, checkedKey, checkedIgnore))
  }

  /** the default update list: `array_values($binds)` of the last row, i.e. its columns */
  function DefaultUpdates(binds: seq<(string, string)>): (r: seq<(Key, Update)>)
    ensures |r| == |binds| && forall j :: 0 <= j < |binds| ==> r[j] == (IntKey(j), Column(binds[j].1))
  {
    seq(|binds|, j requires 0 <= j < |binds| => (IntKey(j), Column(binds[j].1)))
  }

  /** `$onDuplicateUpdate === null || $onDuplicateUpdate` */
  predicate WantsUpdate(onDuplicateUpdate: Option<seq<(Key, Update)>>) {
    onDuplicateUpdate.None? || onDuplicateUpdate.value != []
  }

  /** the ON DUPLICATE KEY UPDATE part, given the last row's binders */
  function DuplicatePart(onDuplicateUpdate: Option<seq<(Key, Update)>>, lastBinds: seq<(string, string)>,
                         checkedKey: Option<string>, checkedIgnore: bool): string
  {
    if !WantsUpdate(onDuplicateUpdate) then ""
    else
      var us := if onDuplicateUpdate.Some? then onDuplicateUpdate.value else DefaultUpdates(lastBinds);
      " ON DUPLICATE KEY UPDATE " + Implode(",", Assignments(us, checkedKey, checkedIgnore))
  }

  /** the SQL text and the `$vars` getSqlInsert hands back */
  datatype Insert = Insert(sql: string, vars: seq<(string, Value)>)

  /** `getSqlInsert($table, $manyInserts, $vars, $onDuplicateUpdate, $ignore, $checkedKey, $checkedIgnore)` */
  function SqlInsert(table: string, rows: seq<Row>, onDuplicateUpdate: Option<seq<(Key, Update)>>, ignore: bool,
                     checkedKey: Option<string>, checkedIgnore: bool): Result<Insert>
  {
    match InsertRows(rows, 0, 0, Rows([], []), BindRowAt)
    case Err(e) => Err(e)
    case Ok(o) =>
      Ok(Insert(RowsText(table, ignore, o.parts) + DuplicatePart(onDuplicateUpdate, LastBinds(o.parts), checkedKey, checkedIgnore),
                o.values))
  }

  // ---------------------------------------------------------------------
  // getSqlInsert: the loops

  /** the inner loop: bind every entry of one row */
  method BindRowLoop(row: Row, b: Bound, postfix: string) returns (r: Result<Bound>)
    ensures r == BindRow(row, b, postfix)
  {
    var cur := b;
    var j := 0;
    while j < |row|
      invariant 0 <= j <= |row|
      invariant BindRow(row, b, postfix) == BindRow(row[j..], cur, postfix)
    {
      assert row[j..][0] == row[j] && row[j..][1..] == row[j + 1..];
      var next := BindVariablesLoop(row[j].0, row[j].1, cur, "", postfix, [], "");
      if next.Err? {
        return Err(next.error);
      }
      cur := next.value;
      j := j + 1;
    }
    return Ok(cur);
  }

  lemma AssignmentsSnoc(us: seq<(Key, Update)>, i: int, checkedKey: Option<string>, checkedIgnore: bool)
    requires 0 <= i < |us|
    ensures Assignments(us[..i + 1], checkedKey, checkedIgnore)
         == Assignments(us[..i], checkedKey, checkedIgnore) + [Assignment(us[i].0, us[i].1, checkedKey, checkedIgnore)]
  {
    var x := Assignments(us[..i + 1], checkedKey, checkedIgnore);
    var y := Assignments(us[..i], checkedKey, checkedIgnore) + [Assignment(us[i].0, us[i].1, checkedKey, checkedIgnore)];
    assert |x| == |y|;
    forall j | 0 <= j < |x| ensures x[j] == y[j] {
      assert us[..i + 1][j] == us[j];
    }
  }

  lemma AssignmentsStep(us: seq<(Key, Update)>, i: int, checkedKey: Option<string>, checkedIgnore: bool, s: string)
    requires 0 <= i < |us| && s == Implode(",", Assignments(us[..i], checkedKey, checkedIgnore))
    ensures (if i != 0 then s + "," else s) + Assignment(us[i].0, us[i].1, checkedKey, checkedIgnore)
         == Implode(",", Assignments(us[..i + 1], checkedKey, checkedIgnore))
  {
    AssignmentsSnoc(us, i, checkedKey, checkedIgnore);
    ImplodeSnoc(",", Assignments(us[..i], checkedKey, checkedIgnore), Assignment(us[i].0, us[i].1, checkedKey, checkedIgnore));
  }

  /** the ON DUPLICATE KEY UPDATE loop, with the assignments joined by commas */
  method AssignmentsLoop(us: seq<(Key, Update)>, checkedKey: Option<string>, checkedIgnore: bool) returns (s: string)
    ensures s == Implode(",", Assignments(us, checkedKey, checkedIgnore))
  {
    s := "";
    var i := 0;
    while i < |us|
      invariant 0 <= i <= |us|
      invariant s == Implode(",", Assignments(us[..i], checkedKey, checkedIgnore))
    {
      var a := Assignment(us[i].0, us[i].1, checkedKey, checkedIgnore);
      AssignmentsStep(us, i, checkedKey, checkedIgnore, s);
      if i != 0 {
        s := s + ",";
      }
      s := s + a;
      i := i + 1;
    }
    assert us[..i] == us;
  }

  /** one turn of the row loop, unfolded */
  lemma InsertRowsStep(rows: seq<Row>, i: nat, count: nat, acc: Rows, bind: RowBinder, b: Bound)
    requires rows != [] && 0 < (if i == 0 then |rows[0]| else count) == |rows[0]|
    requires bind(rows[0], acc.values, i) == Ok(b)
    ensures InsertRows(rows, i, count, acc, bind)
         == InsertRows(rows[1..], i + 1, |rows[0]|, Rows(acc.parts + [b.binds], b.values), bind)
  {
  }

  /** the text of one row, with createSqlClauseString's loops */
  method RowTextOf(table: string, ignore: bool, i: nat, binds: seq<(string, string)>) returns (text: string)
    ensures text == RowText(table, ignore, i, binds)
  {
    var head: string;
    if i == 0 {
      head := CreateSqlClauseString("INSERT" + IgnoreFlag(ignore) + " INTO " + table, AsList(ValuesOf(binds)), ",", "", true, false);
      head := head + " VALUES";
    } else {
      head := ",";
    }
    var group := CreateSqlClauseString("", AsList(Keys(binds)), ",", "", true, false);
    text := head + group;
  }

  lemma RowsTextSnoc(table: string, ignore: bool, parts: seq<seq<(string, string)>>, binds: seq<(string, string)>)
    ensures RowsText(table, ignore, parts + [binds]) == RowsText(table, ignore, parts) + RowText(table, ignore, |parts|, binds)
  {
    assert (parts + [binds])[..|parts|] == parts;
  }

  /** the loop over the rows: the text and `$values` grow row by row, and `$binds` is
      the row just bound */
  method InsertRowsLoop(table: string, ignore: bool, rows: seq<Row>)
    returns (r: Result<(string, seq<(string, Value)>, seq<(string, string)>)>)
    ensures var o := InsertRows(rows, 0, 0, Rows([], []), BindRowAt);
      && (r.Err? <==> o.Err?)
      && (r.Err? ==> r.error == o.error)
      && (r.Ok? ==> r.value == (RowsText(table, ignore, o.value.parts), o.value.values, LastBinds(o.value.parts)))
  {
    var sql := "";
    var values: seq<(string, Value)> := [];
    var binds: seq<(string, string)> := [];
    ghost var parts: seq<seq<(string, string)>> := [];
    var count: nat := 0;
    var i := 0;
    while i < |rows|
      invariant 0 <= i <= |rows| && |parts| == i
      invariant InsertRows(rows, 0, 0, Rows([], []), BindRowAt) == InsertRows(rows[i..], i, count, Rows(parts, values), BindRowAt)
      invariant sql == RowsText(table, ignore, parts) && binds == LastBinds(parts)
    {
      assert rows[i..][0] == rows[i] && rows[i..][1..] == rows[i + 1..];
      if i == 0 {
        count := |rows[i]|;
      }
      if count == 0 {
        return Err(InvalidArgument(NoColumns));
      }
      if count != |rows[i]| {
        return Err(InvalidArgument(ColumnCountMismatch));
      }
      var b := BindRowLoop(rows[i], Bound(values, []), NatToString(i));
      assert b == BindRowAt(rows[i], values, i);
      if b.Err? {
        return Err(b.error);
      }
      var text := RowTextOf(table, ignore, i, b.value.binds);
      InsertRowsStep(rows[i..], i, count, Rows(parts, values), BindRowAt, b.value);
      RowsTextSnoc(table, ignore, parts, b.value.binds);
      sql := sql + text;
      parts := parts + [b.value.binds];
      values := b.value.values;
      binds := b.value.binds;
      i := i + 1;
    }
    assert rows[i..] == [];
    return Ok((sql, values, binds));
  }

  /** `Connection::getSqlInsert`, with its loops */
  method GetSqlInsert(table: string, rows: seq<Row>, onDuplicateUpdate: Option<seq<(Key, Update)>>, ignore: bool,
                      checkedKey: Option<string>, checkedIgnore: bool) returns (r: Result<Insert>)
    ensures r == SqlInsert(table, rows, onDuplicateUpdate, ignore, checkedKey, checkedIgnore)
  {
    var o := InsertRowsLoop(table, ignore, rows);
    if o.Err? {
      return Err(o.error);
    }
    var (rowsSql, values, binds) := o.value;
    var sql := rowsSql;
    if WantsUpdate(onDuplicateUpdate) {
      var us := if onDuplicateUpdate.Some? then onDuplicateUpdate.value else DefaultUpdates(binds);
      var tail := AssignmentsLoop(us, checkedKey, checkedIgnore);
      sql := sql + (" ON DUPLICATE KEY UPDATE " + tail);
    } else {
      assert sql == sql + "";
    }
    assert sql == rowsSql + DuplicatePart(onDuplicateUpdate, binds, checkedKey, checkedIgnore);
    return Ok(Insert(sql, values));
  }
}

/** What getSqlInsert promises, proved about the model of it. */
module ConnectionProps {
  import opened Php
  import opened Errors
  import opened Helpers
  import opened Connections

  // ---------------------------------------------------------------------
  // The duplicated assignment

  /** As written, a checked key makes every entry assign its column twice: the checked
      assignment is followed directly by the plain one. Without a checked key the loop body
      writes the single intended assignment. */
  lemma AssignmentAsWrittenTwice(k: Key, u: Update, checkedKey: Option<string>, checkedIgnore: bool)
    ensures var name := UpdateName(k, u);
      && (TruthyString(checkedKey) ==>
            AssignmentAsWritten(k, u, checkedKey, checkedIgnore)
            == Assignment(k, u, checkedKey, checkedIgnore) + (name + "=" + PlainValue(name, u)))
      && (!TruthyString(checkedKey) ==>
            AssignmentAsWritten(k, u, checkedKey, checkedIgnore) == Assignment(k, u, checkedKey, checkedIgnore))
  {
    var name := UpdateName(k, u);
    var p := PlainValue(name, u);
    var a := Assignment(k, u, checkedKey, checkedIgnore);
    if TruthyString(checkedKey) {
      assert AssignmentAsWritten(k, u, checkedKey, checkedIgnore) == a + name + "=" + p;
      assert a + name + "=" + p == a + (name + "=" + p);
    } else {
      assert "" + name == name;
      assert AssignmentAsWritten(k, u, checkedKey, checkedIgnore) == name + "=" + p;
    }
  }

  /** The input that shows it: column `a` with checked key `id` gets the checked
      assignment and then `a=VALUES(a)` glued to it. */
  lemma AssignmentAsWrittenExample()
    ensures Assignment(IntKey(0), Column("a"), Some("id"), true) == "a=" + CheckedExpression("id", true, "a")
    ensures AssignmentAsWritten(IntKey(0), Column("a"), Some("id"), true)
         == Assignment(IntKey(0), Column("a"), Some("id"), true) + "a=VALUES(a)"
  {
    assert TruthyString(Some("id"));
    assert UpdateName(IntKey(0), Column("a")) == "a";
    assert "a" + "=" == "a=";
    assert "a" + "=" + "VALUES(" + "a" + ")" == "a=VALUES(a)";
    AssignmentAsWrittenTwice(IntKey(0), Column("a"), Some("id"), true);
  }

  /** The intended assignment assigns its column once: the checked expression when a key
      is checked and the value is not a literal, the literal or `VALUES(name)` otherwise. */
  lemma AssignmentOnce(k: Key, u: Update, checkedKey: Option<string>, checkedIgnore: bool)
    ensures var name := UpdateName(k, u);
      var a := Assignment(k, u, checkedKey, checkedIgnore);
      && (u.Lit? ==> a == name + "=" + u.sql)
      && (!u.Lit? && !TruthyString(checkedKey) ==> a == name + "=VALUES(" + name + ")")
      && (!u.Lit? && TruthyString(checkedKey) ==> a == name + "=" + CheckedExpression(checkedKey.value, checkedIgnore, name))
  {
    var name := UpdateName(k, u);
    var a := Assignment(k, u, checkedKey, checkedIgnore);
    if !u.Lit? && !TruthyString(checkedKey) {
      assert a == name + "=VALUES(" + name + ")";
    }
  }

  // ---------------------------------------------------------------------
  // Rows of scalars

  predicate ScalarRow(row: Row) {
    forall j :: 0 <= j < |row| ==> IsScalarOrNull(row[j].1)
  }

  predicate ScalarRows(rows: seq<Row>) {
    forall i :: 0 <= i < |rows| ==> ScalarRow(rows[i])
  }

  /** the binder a row entry gets: `:` + the column + the row index */
  function BinderName(property: string, postfix: string): string {
    ":" + (BinderColumn(property) + postfix)
  }

  /** the binders a row of distinct columns produces */
  function RowBinds(row: Row, postfix: string): (r: seq<(string, string)>)
    ensures |r| == |row| && forall j :: 0 <= j < |row| ==> r[j] == (BinderName(row[j].0, postfix), row[j].0)
  {
    seq(|row|, j requires 0 <= j < |row| => (BinderName(row[j].0, postfix), row[j].0))
  }

  /** no two properties of the row share a binder column (`a.b` and `a_b` would) */
  predicate DistinctColumns(row: Row) {
    forall j, k :: 0 <= j < k < |row| ==> BinderColumn(row[j].0) != BinderColumn(row[k].0)
  }

  lemma BinderNameCancel(c1: string, c2: string, postfix: string)
    requires ":" + (c1 + postfix) == ":" + (c2 + postfix)
    ensures c1 == c2
  {
    var x, y := c1 + postfix, c2 + postfix;
    assert x == (":" + x)[1..];
    assert y == (":" + y)[1..];
    assert |c1| == |c2|;
    assert c1 == x[..|c1|];
    assert c2 == y[..|c2|];
  }

  lemma ScalarRowTail(row: Row)
    requires row != [] && ScalarRow(row)
    ensures ScalarRow(row[1..]) && IsScalarOrNull(row[0].1)
  {
    forall j | 0 <= j < |row[1..]| ensures IsScalarOrNull(row[1..][j].1) {
      assert row[1..][j] == row[j + 1];
    }
  }

  lemma DistinctColumnsTail(row: Row)
    requires row != [] && DistinctColumns(row)
    ensures DistinctColumns(row[1..])
  {
    forall j, k | 0 <= j < k < |row[1..]| ensures BinderColumn(row[1..][j].0) != BinderColumn(row[1..][k].0) {
      assert row[1..][j] == row[j + 1] && row[1..][k] == row[k + 1];
    }
  }

  /** the effect of binding the first entry of a scalar row */
  lemma BindFirst(row: Row, b: Bound, postfix: string)
    requires row != [] && ScalarRow(row)
    ensures var name := BinderColumn(row[0].0) + postfix;
      && BindVariables(row[0].0, row[0].1, b, "", postfix, [], "")
         == Ok(Bound(Put(b.values, name, BoolAsInt(row[0].1)), Put(b.binds, ":" + name, row[0].0)))
      && BindRow(row, b, postfix)
         == BindRow(row[1..], Bound(Put(b.values, name, BoolAsInt(row[0].1)), Put(b.binds, ":" + name, row[0].0)), postfix)
  {
    var name := BinderColumn(row[0].0) + postfix;
    assert "" + BinderColumn(row[0].0) + postfix == name;
    assert "" + row[0].0 == row[0].0;
  }

  /** the keys of an array, as a set */
  ghost function KeySet<V>(a: seq<(string, V)>): set<string> {
    set k | k in Keys(a)
  }

  /** the names `column.postfix` a row's values are bound under */
  ghost function RowNames(row: Row, postfix: string): set<string>
    decreases |row|
  {
    if row == [] then {} else {BinderColumn(row[0].0) + postfix} + RowNames(row[1..], postfix)
  }

  /** the names of rows `i`, `i+1`, ...: each row's names with its own index */
  ghost function RowsNames(rows: seq<Row>, i: nat): set<string>
    decreases |rows|
  {
    if rows == [] then {} else RowNames(rows[0], NatToString(i)) + RowsNames(rows[1..], i + 1)
  }

  lemma KeySetPut<V>(a: seq<(string, V)>, k: string, v: V)
    ensures KeySet(Put(a, k, v)) == KeySet(a) + {k}
  {
    PutKeys(a, k, v);
  }

  /** A scalar row never fails, and the keys of `$values` grow by exactly the names
      `column.postfix` of its entries. */
  lemma {:induction false} BindRowScalar(row: Row, b: Bound, postfix: string)
    requires ScalarRow(row)
    ensures BindRow(row, b, postfix).Ok?
    ensures KeySet(BindRow(row, b, postfix).value.values) == KeySet(b.values) + RowNames(row, postfix)
    decreases |row|
  {
    if row != [] {
      var name := BinderColumn(row[0].0) + postfix;
      BindFirst(row, b, postfix);
      ScalarRowTail(row);
      var b' := Bound(Put(b.values, name, BoolAsInt(row[0].1)), Put(b.binds, ":" + name, row[0].0));
      KeySetPut(b.values, name, BoolAsInt(row[0].1));
      BindRowScalar(row[1..], b', postfix);
    }
  }

  /** the binders of the rest of the row stay fresh once the first one is added */
  lemma FreshAfterFirst(row: Row, binds: seq<(string, string)>, postfix: string)
    requires row != [] && DistinctColumns(row)
    requires forall j :: 0 <= j < |row| ==> BinderName(row[j].0, postfix) !in Keys(binds)
    ensures forall j :: 0 <= j < |row[1..]| ==>
              BinderName(row[1..][j].0, postfix) !in Keys(binds + [(BinderName(row[0].0, postfix), row[0].0)])
  {
    var x := (BinderName(row[0].0, postfix), row[0].0);
    KeysConcat(binds, [x]);
    forall j | 0 <= j < |row[1..]| ensures BinderName(row[1..][j].0, postfix) !in Keys(binds + [x]) {
      assert row[1..][j] == row[j + 1];
      if BinderName(row[j + 1].0, postfix) == x.0 {
        BinderNameCancel(BinderColumn(row[j + 1].0), BinderColumn(row[0].0), postfix);
      }
    }
  }

  lemma AppendAssoc<T>(a: seq<T>, b: seq<T>, c: seq<T>)
    ensures a + b + c == a + (b + c)
  {
  }

  lemma RowBindsCons(row: Row, postfix: string)
    requires row != []
    ensures RowBinds(row, postfix) == [(BinderName(row[0].0, postfix), row[0].0)] + RowBinds(row[1..], postfix)
  {
  }

  /** With distinct columns, a scalar row's binders `:column.postfix => property` are
      appended in order to binders that do not clash with them. */
  lemma {:induction false} BindRowBinds(row: Row, b: Bound, postfix: string)
    requires ScalarRow(row) && DistinctColumns(row)
    requires forall j :: 0 <= j < |row| ==> BinderName(row[j].0, postfix) !in Keys(b.binds)
    ensures BindRowScalarOk(row, b, postfix)
    ensures BindRow(row, b, postfix).value.binds == b.binds + RowBinds(row, postfix)
    decreases |row|
  {
    if row == [] {
      assert b.binds + RowBinds(row, postfix) == b.binds;
    } else {
      var p := row[0].0;
      var name := BinderColumn(p) + postfix;
      var x := (BinderName(p, postfix), p);
      BindFirst(row, b, postfix);
      ScalarRowTail(row);
      DistinctColumnsTail(row);
      var b' := Bound(Put(b.values, name, BoolAsInt(row[0].1)), Put(b.binds, ":" + name, p));
      assert BinderName(p, postfix) == ":" + name;
      PutKeys(b.binds, ":" + name, p);
      assert b'.binds == b.binds + [x];
      FreshAfterFirst(row, b.binds, postfix);
      BindRowBinds(row[1..], b', postfix);
      RowBindsCons(row, postfix);
      AppendAssoc(b.binds, [x], RowBinds(row[1..], postfix));
    }
  }

  predicate BindRowScalarOk(row: Row, b: Bound, postfix: string) {
    BindRow(row, b, postfix).Ok?
  }

  // ---------------------------------------------------------------------
  // The row loop, for any binder that treats rows of scalars as BindRowAt does

  /** a binder that never fails on a row of scalars */
  ghost predicate OkOnScalars(bind: RowBinder) {
    forall row, values, i :: ScalarRow(row) ==> bind(row, values, i).Ok?
  }

  /** a binder under which the keys of `$values` grow by the names `column.i` of a row of scalars */
  ghost predicate NamesOnScalars(bind: RowBinder) {
    forall row, values, i :: ScalarRow(row) ==>
      bind(row, values, i).Ok? && KeySet(bind(row, values, i).value.values) == KeySet(values) + RowNames(row, NatToString(i))
  }

  /** A scalar row's binders, bound from none, are its RowBinds. */
  lemma BindRowFromNone(row: Row, values: seq<(string, Value)>, postfix: string)
    requires ScalarRow(row) && DistinctColumns(row)
    ensures BindRow(row, Bound(values, []), postfix).Ok?
    ensures BindRow(row, Bound(values, []), postfix).value.binds == RowBinds(row, postfix)
  {
    BindRowBinds(row, Bound(values, []), postfix);
    assert [] + RowBinds(row, postfix) == RowBinds(row, postfix);
  }

  /** getSqlInsert's binder is one of both */
  lemma BindRowAtScalar()
    ensures OkOnScalars(BindRowAt) && NamesOnScalars(BindRowAt)
  {
    forall row, values, i | ScalarRow(row)
      ensures BindRowAt(row, values, i).Ok?
      ensures KeySet(BindRowAt(row, values, i).value.values) == KeySet(values) + RowNames(row, NatToString(i))
    {
      BindRowScalar(row, Bound(values, []), NatToString(i));
    }
  }

  /** the column count the loop checks row `i` against */
  function Expected(rows: seq<Row>, i: nat, count: nat): nat
    requires rows != []
  {
    if i == 0 then |rows[0]| else count
  }

  lemma ScalarRowsTail(rows: seq<Row>)
    requires rows != [] && ScalarRows(rows)
    ensures ScalarRows(rows[1..]) && ScalarRow(rows[0])
  {
    forall a | 0 <= a < |rows[1..]| ensures ScalarRow(rows[1..][a]) {
      assert rows[1..][a] == rows[a + 1];
    }
  }

  /** every row has `n` columns */
  predicate SameCount(rows: seq<Row>, n: nat) {
    forall a :: 0 <= a < |rows| ==> |rows[a]| == n
  }

  lemma SameCountTail(rows: seq<Row>, n: nat)
    requires rows != []
    ensures SameCount(rows, n) <==> |rows[0]| == n && SameCount(rows[1..], n)
  {
    if |rows[0]| == n && SameCount(rows[1..], n) {
      forall a | 0 < a < |rows| ensures |rows[a]| == n {
        assert rows[a] == rows[1..][a - 1];
      }
    }
  }

  /** A turn that succeeds passed both column checks and bound its row. */
  lemma InsertRowsOk(rows: seq<Row>, i: nat, count: nat, acc: Rows, bind: RowBinder)
    requires rows != [] && InsertRows(rows, i, count, acc, bind).Ok?
    ensures 0 < Expected(rows, i, count) == |rows[0]|
    ensures bind(rows[0], acc.values, i).Ok?
  {
  }

  /** a successful turn hands the rest of the rows on with the first row bound */
  lemma InsertRowsTail(rows: seq<Row>, i: nat, count: nat, acc: Rows, bind: RowBinder) returns (acc': Rows)
    requires rows != [] && InsertRows(rows, i, count, acc, bind).Ok?
    ensures bind(rows[0], acc.values, i).Ok?
    ensures acc' == Rows(acc.parts + [bind(rows[0], acc.values, i).value.binds], bind(rows[0], acc.values, i).value.values)
    ensures InsertRows(rows, i, count, acc, bind) == InsertRows(rows[1..], i + 1, |rows[0]|, acc', bind)
  {
    InsertRowsOk(rows, i, count, acc, bind);
    var b := bind(rows[0], acc.values, i).value;
    acc' := Rows(acc.parts + [b.binds], b.values);
    InsertRowsStep(rows, i, count, acc, bind, b);
  }

  /** Rows of scalars fail only on their column counts: no columns in the first row, or a
      row whose count differs from the first row's. */
  lemma {:induction false} InsertRowsErrors(rows: seq<Row>, i: nat, count: nat, acc: Rows, bind: RowBinder)
    requires ScalarRows(rows) && OkOnScalars(bind)
    ensures var r := InsertRows(rows, i, count, acc, bind);
      && (r.Err? <==> rows != [] && (Expected(rows, i, count) == 0 || !SameCount(rows, Expected(rows, i, count))))
      && (r.Err? ==> r.error == InvalidArgument(if Expected(rows, i, count) == 0 then NoColumns else ColumnCountMismatch))
    decreases |rows|
  {
    if rows != [] {
      var n := Expected(rows, i, count);
      SameCountTail(rows, n);
      if n != 0 && n == |rows[0]| {
        ScalarRowsTail(rows);
        assert bind(rows[0], acc.values, i).Ok?;
        var b := bind(rows[0], acc.values, i).value;
        InsertRowsStep(rows, i, count, acc, bind, b);
        InsertRowsErrors(rows[1..], i + 1, n, Rows(acc.parts + [b.binds], b.values), bind);
        if rows[1..] != [] {
          assert Expected(rows[1..], i + 1, n) == n;
        }
      }
    }
  }

  /** The loop binds each row once, in order, after what was bound before. */
  lemma {:induction false} InsertRowsParts(rows: seq<Row>, i: nat, count: nat, acc: Rows, bind: RowBinder)
    requires InsertRows(rows, i, count, acc, bind).Ok?
    ensures var o := InsertRows(rows, i, count, acc, bind).value;
      |o.parts| == |acc.parts| + |rows| && o.parts[..|acc.parts|] == acc.parts
    decreases |rows|
  {
    if rows != [] {
      var acc' := InsertRowsTail(rows, i, count, acc, bind);
      InsertRowsParts(rows[1..], i + 1, |rows[0]|, acc', bind);
      var o := InsertRows(rows, i, count, acc, bind).value;
      assert o.parts[..|acc.parts|] == o.parts[..|acc'.parts|][..|acc.parts|];
    }
  }

  /** `$vars` gets exactly the names `column.rowIndex` of the row entries. */
  lemma {:induction false} InsertRowsKeys(rows: seq<Row>, i: nat, count: nat, acc: Rows, bind: RowBinder)
    requires ScalarRows(rows) && NamesOnScalars(bind) && InsertRows(rows, i, count, acc, bind).Ok?
    ensures KeySet(InsertRows(rows, i, count, acc, bind).value.values) == KeySet(acc.values) + RowsNames(rows, i)
    decreases |rows|
  {
    if rows != [] {
      var acc' := KeysStep(rows, i, count, acc, bind);
      InsertRowsKeys(rows[1..], i + 1, |rows[0]|, acc', bind);
      UnionChain(KeySet(InsertRows(rows, i, count, acc, bind).value.values), KeySet(acc'.values), KeySet(acc.values),
                 RowNames(rows[0], NatToString(i)), RowsNames(rows[1..], i + 1), RowsNames(rows, i));
    }
  }

  lemma UnionChain<T>(r: set<T>, mid: set<T>, a: set<T>, b: set<T>, c: set<T>, d: set<T>)
    requires r == mid + c && mid == a + b && d == b + c
    ensures r == a + d
  {
  }

  /** one turn of the loop adds the names of its row */
  lemma KeysStep(rows: seq<Row>, i: nat, count: nat, acc: Rows, bind: RowBinder) returns (acc': Rows)
    requires rows != [] && ScalarRows(rows) && NamesOnScalars(bind) && InsertRows(rows, i, count, acc, bind).Ok?
    ensures ScalarRows(rows[1..])
    ensures InsertRows(rows, i, count, acc, bind) == InsertRows(rows[1..], i + 1, |rows[0]|, acc', bind)
    ensures KeySet(acc'.values) == KeySet(acc.values) + RowNames(rows[0], NatToString(i))
  {
    ScalarRowsTail(rows);
    acc' := InsertRowsTail(rows, i, count, acc, bind);
  }

  /** The first row is bound first, from no values. */
  lemma FirstPart(rows: seq<Row>, bind: RowBinder)
    requires rows != [] && InsertRows(rows, 0, 0, Rows([], []), bind).Ok?
    ensures bind(rows[0], [], 0).Ok?
    ensures InsertRows(rows, 0, 0, Rows([], []), bind).value.parts != []
    ensures InsertRows(rows, 0, 0, Rows([], []), bind).value.parts[0] == bind(rows[0], [], 0).value.binds
  {
    var acc' := InsertRowsTail(rows, 0, 0, Rows([], []), bind);
    InsertRowsParts(rows[1..], 1, |rows[0]|, acc', bind);
    var o := InsertRows(rows, 0, 0, Rows([], []), bind).value;
    assert o.parts[..1] == acc'.parts;
    assert o.parts[0] == o.parts[..1][0];
  }

  /** After the loop, `$binds` holds the binders of the last row, row `last`, bound from the
      values before it. */
  lemma {:induction false} InsertRowsLastBinds(rows: seq<Row>, i: nat, count: nat, acc: Rows, bind: RowBinder, last: nat)
    returns (values: seq<(string, Value)>)
    requires rows != [] && last == i + |rows| - 1
    requires InsertRows(rows, i, count, acc, bind).Ok?
    ensures bind(rows[|rows| - 1], values, last).Ok?
    ensures LastBinds(InsertRows(rows, i, count, acc, bind).value.parts) == bind(rows[|rows| - 1], values, last).value.binds
    decreases |rows|
  {
    var acc' := InsertRowsTail(rows, i, count, acc, bind);
    if |rows| == 1 {
      assert rows[1..] == [];
      values := acc.values;
    } else {
      var tail := rows[1..];
      assert tail[|tail| - 1] == rows[|rows| - 1];
      values := InsertRowsLastBinds(tail, i + 1, |rows[0]|, acc', bind, last);
    }
  }

  // ---------------------------------------------------------------------
  // getSqlInsert

  function PlainAssignments(properties: seq<string>): (r: seq<string>)
    ensures |r| == |properties| && forall j :: 0 <= j < |properties| ==> r[j] == properties[j] + "=" + ("VALUES(" + properties[j] + ")")
  {
    seq(|properties|, j requires 0 <= j < |properties| => properties[j] + "=" + ("VALUES(" + properties[j] + ")"))
  }

  /** the INSERT header and the first row's binders */
  function Header(table: string, ignore: bool, row: Row): string {
    ("INSERT" + IgnoreFlag(ignore) + " INTO " + table + " (" + Implode(",", Keys(row)) + ")") + " VALUES"
    + (" (" + Implode(",", Keys(RowBinds(row, "0"))) + ")")
  }

  lemma ClauseOfList(prefix: string, xs: seq<string>)
    requires xs != []
    ensures ClauseString(prefix, AsList(xs), ",", "", true, false) == prefix + " (" + Implode(",", xs) + ")"
  {
    assert Fragments(AsList(xs), "", false) == xs;
  }

  lemma ValuesOfRowBinds(row: Row, postfix: string)
    ensures ValuesOf(RowBinds(row, postfix)) == Keys(row)
  {
  }

  lemma EmptyPrefix(t: string)
    ensures "" + t == t
  {
  }

  /** the first row's text is the header */
  lemma HeaderText(table: string, ignore: bool, row: Row)
    requires row != []
    ensures RowText(table, ignore, 0, RowBinds(row, "0")) == Header(table, ignore, row)
  {
    var h := "INSERT" + IgnoreFlag(ignore) + " INTO " + table;
    var y := Implode(",", Keys(RowBinds(row, "0")));
    ValuesOfRowBinds(row, "0");
    ClauseOfList(h, Keys(row));
    ClauseOfList("", Keys(RowBinds(row, "0")));
    EmptyPrefix(" (" + y + ")");
  }

  /** the text of the rows opens with the first row's text */
  lemma {:induction false} RowsTextFirst(table: string, ignore: bool, parts: seq<seq<(string, string)>>)
    requires parts != []
    ensures RowText(table, ignore, 0, parts[0]) <= RowsText(table, ignore, parts)
    decreases |parts|
  {
    var init := parts[..|parts| - 1];
    var last := RowText(table, ignore, |parts| - 1, parts[|parts| - 1]);
    if |parts| == 1 {
      EmptyPrefix(last);
    } else {
      assert init[0] == parts[0];
      RowsTextFirst(table, ignore, init);
      PrefixConcat(RowText(table, ignore, 0, parts[0]), [], RowsText(table, ignore, init));
      assert RowsText(table, ignore, parts) == RowsText(table, ignore, init) + last;
      assert RowsText(table, ignore, parts)[..|RowsText(table, ignore, init)|] == RowsText(table, ignore, init);
    }
  }

  lemma PrefixConcat(a: string, b: string, c: string)
    requires a + b <= c
    ensures a <= c
  {
    assert (a + b)[..|a|] == a;
    assert c[..|a|] == a;
  }

  /** Rows of scalars are rejected exactly for their column counts: none in the first row,
      or a row whose count differs from the first row's. */
  lemma SqlInsertErrors(table: string, rows: seq<Row>, onDuplicateUpdate: Option<seq<(Key, Update)>>, ignore: bool,
                        checkedKey: Option<string>, checkedIgnore: bool)
    requires ScalarRows(rows)
    ensures var r := SqlInsert(table, rows, onDuplicateUpdate, ignore, checkedKey, checkedIgnore);
      && (r.Err? <==> rows != [] && (|rows[0]| == 0 || !SameCount(rows, |rows[0]|)))
      && (r.Err? ==> r.error == InvalidArgument(if |rows[0]| == 0 then NoColumns else ColumnCountMismatch))
  {
    BindRowAtScalar();
    InsertRowsErrors(rows, 0, 0, Rows([], []), BindRowAt);
  }

  /** the SQL text is the rows' text followed by the ON DUPLICATE KEY UPDATE part */
  lemma SqlInsertText(table: string, rows: seq<Row>, onDuplicateUpdate: Option<seq<(Key, Update)>>, ignore: bool,
                      checkedKey: Option<string>, checkedIgnore: bool)
    requires SqlInsert(table, rows, onDuplicateUpdate, ignore, checkedKey, checkedIgnore).Ok?
    ensures InsertRows(rows, 0, 0, Rows([], []), BindRowAt).Ok?
    ensures var parts := InsertRows(rows, 0, 0, Rows([], []), BindRowAt).value.parts;
      SqlInsert(table, rows, onDuplicateUpdate, ignore, checkedKey, checkedIgnore).value.sql
      == RowsText(table, ignore, parts) + DuplicatePart(onDuplicateUpdate, LastBinds(parts), checkedKey, checkedIgnore)
  {
  }

  /** rows whose first part is a row's binders open with that row's header */
  lemma HeaderOpens(table: string, ignore: bool, row: Row, parts: seq<seq<(string, string)>>, rest: string)
    requires row != [] && parts != [] && parts[0] == RowBinds(row, "0")
    ensures Header(table, ignore, row) <= RowsText(table, ignore, parts) + rest
  {
    HeaderText(table, ignore, row);
    RowsTextFirst(table, ignore, parts);
    var t := RowsText(table, ignore, parts);
    assert (t + rest)[..|t|] == t;
    PrefixConcat(Header(table, ignore, row), [], t + rest);
  }

  /** The text opens with `INSERT[ IGNORE] INTO table (properties) VALUES (binders)` taken
      from the first row, whose binders are `:column0`. */
  lemma SqlInsertHeader(table: string, rows: seq<Row>, onDuplicateUpdate: Option<seq<(Key, Update)>>, ignore: bool,
                        checkedKey: Option<string>, checkedIgnore: bool)
    requires rows != [] && |rows[0]| > 0 && ScalarRow(rows[0]) && DistinctColumns(rows[0])
    requires SqlInsert(table, rows, onDuplicateUpdate, ignore, checkedKey, checkedIgnore).Ok?
    ensures Header(table, ignore, rows[0]) <= SqlInsert(table, rows, onDuplicateUpdate, ignore, checkedKey, checkedIgnore).value.sql
  {
    SqlInsertText(table, rows, onDuplicateUpdate, ignore, checkedKey, checkedIgnore);
    FirstPart(rows, BindRowAt);
    BindRowFromNone(rows[0], [], "0");
    var parts := InsertRows(rows, 0, 0, Rows([], []), BindRowAt).value.parts;
    HeaderOpens(table, ignore, rows[0], parts, DuplicatePart(onDuplicateUpdate, LastBinds(parts), checkedKey, checkedIgnore));
  }

  /** The returned `$vars` hold one binder per row entry, `column.rowIndex`, and nothing else. */
  lemma SqlInsertVars(table: string, rows: seq<Row>, onDuplicateUpdate: Option<seq<(Key, Update)>>, ignore: bool,
                      checkedKey: Option<string>, checkedIgnore: bool)
    requires ScalarRows(rows)
    requires SqlInsert(table, rows, onDuplicateUpdate, ignore, checkedKey, checkedIgnore).Ok?
    ensures KeySet(SqlInsert(table, rows, onDuplicateUpdate, ignore, checkedKey, checkedIgnore).value.vars)
            == RowsNames(rows, 0)
  {
    BindRowAtScalar();
    InsertRowsKeys(rows, 0, 0, Rows([], []), BindRowAt);
    assert KeySet<Value>([]) == {};
  }

  /** the text of the rows alone */
  function RowsSql(table: string, ignore: bool, rows: seq<Row>): string
    requires InsertRows(rows, 0, 0, Rows([], []), BindRowAt).Ok?
  {
    RowsText(table, ignore, InsertRows(rows, 0, 0, Rows([], []), BindRowAt).value.parts)
  }

  /** Without a checked key, the default update list assigns each column of the row its
      inserted value; an empty list adds nothing. */
  lemma DefaultDuplicatePart(row: Row, postfix: string, checkedKey: Option<string>, checkedIgnore: bool)
    requires !TruthyString(checkedKey)
    ensures DuplicatePart(None, RowBinds(row, postfix), checkedKey, checkedIgnore)
         == " ON DUPLICATE KEY UPDATE " + Implode(",", PlainAssignments(Keys(row)))
    ensures DuplicatePart(Some([]), RowBinds(row, postfix), checkedKey, checkedIgnore) == ""
  {
    var binds := RowBinds(row, postfix);
    var us := DefaultUpdates(binds);
    forall j | 0 <= j < |us|
      ensures Assignments(us, checkedKey, checkedIgnore)[j] == PlainAssignments(Keys(row))[j]
    {
      assert UpdateName(us[j].0, us[j].1) == row[j].0;
    }
    assert Assignments(us, checkedKey, checkedIgnore) == PlainAssignments(Keys(row));
  }

  /** the last row's binders, after the whole loop */
  lemma LastRowBinds(rows: seq<Row>)
    requires rows != [] && ScalarRow(rows[|rows| - 1]) && DistinctColumns(rows[|rows| - 1])
    requires InsertRows(rows, 0, 0, Rows([], []), BindRowAt).Ok?
    ensures LastBinds(InsertRows(rows, 0, 0, Rows([], []), BindRowAt).value.parts) == RowBinds(rows[|rows| - 1], NatToString(|rows| - 1))
  {
    var values := InsertRowsLastBinds(rows, 0, 0, Rows([], []), BindRowAt, |rows| - 1);
    BindRowFromNone(rows[|rows| - 1], values, NatToString(|rows| - 1));
  }

  /** Without an update list, every column of the last row is updated from its inserted
      value. */
  lemma SqlInsertDefaultUpdate(table: string, rows: seq<Row>, ignore: bool, checkedKey: Option<string>, checkedIgnore: bool)
    requires rows != [] && ScalarRow(rows[|rows| - 1]) && DistinctColumns(rows[|rows| - 1]) && !TruthyString(checkedKey)
    requires SqlInsert(table, rows, None, ignore, checkedKey, checkedIgnore).Ok?
    ensures InsertRows(rows, 0, 0, Rows([], []), BindRowAt).Ok?
    ensures SqlInsert(table, rows, None, ignore, checkedKey, checkedIgnore).value.sql
         == RowsSql(table, ignore, rows) + (" ON DUPLICATE KEY UPDATE " + Implode(",", PlainAssignments(Keys(rows[|rows| - 1]))))
  {
    SqlInsertText(table, rows, None, ignore, checkedKey, checkedIgnore);
    LastRowBinds(rows);
    DefaultDuplicatePart(rows[|rows| - 1], NatToString(|rows| - 1), checkedKey, checkedIgnore);
  }

  /** An empty update list writes no ON DUPLICATE KEY UPDATE at all. */
  lemma SqlInsertNoUpdate(table: string, rows: seq<Row>, ignore: bool, checkedKey: Option<string>, checkedIgnore: bool)
    requires SqlInsert(table, rows, Some([]), ignore, checkedKey, checkedIgnore).Ok?
    ensures InsertRows(rows, 0, 0, Rows([], []), BindRowAt).Ok?
    ensures SqlInsert(table, rows, Some([]), ignore, checkedKey, checkedIgnore).value.sql == RowsSql(table, ignore, rows)
  {
    SqlInsertText(table, rows, Some([]), ignore, checkedKey, checkedIgnore);
    var t := RowsSql(table, ignore, rows);
    assert t + "" == t;
  }
}
