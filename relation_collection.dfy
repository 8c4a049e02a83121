/** StORM\RelationCollection: the entities one entity reaches through a 1:N or an N:N
    relation, and the statements relate(), unrelate() and unrelateAll() send to the
    database. The statements are values here; a small table semantics says what each one
    does to the rows of the table it names. */
module RelationWrites {
  import opened Php
  import opened Errors
  import opened Helpers
  import Meta
  import Query
  import QueryProps
  import Connections

  // ---------------------------------------------------------------------
  // The constructor's guard

  /** `__construct`: the key value as a string, refused with KEY_HOLDER_NOT_ALLOWED when
      the source of the relation holds the key */
  function Open(rel: Meta.RelationMeta, keyValue: Key): (r: Result<string>)
    ensures r.Err? <==> rel.kind.KeyHolder?
    ensures r.Err? ==> r.error == InvalidState(KeyHolderNotAllowed)
    ensures r.Ok? ==> r.value == KeyString(keyValue)
  {
    if rel.kind.KeyHolder? then Err(InvalidState(KeyHolderNotAllowed)) else Ok(KeyString(keyValue))
  }

  // ---------------------------------------------------------------------
  // Statements

  /** one `where($expression, $values)` of a statement */
  datatype Condition = Condition(expression: string, value: Value)

  /** what relate(), unrelate() and unrelateAll() send: an insert into the junction table,
      a delete from it, or an update of one column of the target's rows */
  datatype Write =
    | InsertRows(table: string, rows: seq<Connections.Row>, ignore: bool)
    | DeleteRows(table: string, conditions: seq<Condition>)
    | UpdateRows(target: string, conditions: seq<Condition>, column: string, value: Value)

  /** the value a junction row stores for the key of an entry */
  function IndexValue(k: Key): Value {
    match k
    case IntKey(i) => Int(i)
    case StrKey(s) => Str(s)
  }

  /** the generated primary key as a value: `null` when there is no generator */
  function NullOr(s: Option<string>): Value {
    if s.Some? then Str(s.value) else Null
  }

  /** one row of relate()'s insert for the entry `index => key`: the owner and the related
      key, or the owner and the index merged with the columns an array key carries; a
      truthy primaryKeyName adds a generated key */
  function JunctionRow(sourceViaKey: string, targetViaKey: string, keyValue: string, index: Key, key: Value,
                       pkName: Option<string>, generated: Option<string>): Connections.Row
  {
    var row := if key.Arr?
      then Query.StringKeyed(Merge([(NormKey(sourceViaKey), Str(keyValue)), (NormKey(targetViaKey), IndexValue(index))], key.entries))
      else Put(Put([], sourceViaKey, Str(keyValue)), targetViaKey, key);
    if Connections.TruthyString(pkName) then Put(row, pkName.value, NullOr(generated)) else row
  }

  /** the rows of relate()'s insert, one per entry; generated[i] is what the key generator
      returns for the i-th row */
  function JunctionRows(sourceViaKey: string, targetViaKey: string, keyValue: string, primaryKeys: seq<(Key, Value)>,
                        pkName: Option<string>, generated: seq<Option<string>>): seq<Connections.Row>
    requires |generated| == |primaryKeys|
  {
    Snocs(EntryRow(sourceViaKey, targetViaKey, keyValue, primaryKeys, pkName, generated), |primaryKeys|)
  }

  /** the row of the j-th entry */
  function EntryRow(sourceViaKey: string, targetViaKey: string, keyValue: string, primaryKeys: seq<(Key, Value)>,
                    pkName: Option<string>, generated: seq<Option<string>>): nat -> Connections.Row
    requires |generated| == |primaryKeys|
  {
    (j: nat) => if j < |primaryKeys|
                then JunctionRow(sourceViaKey, targetViaKey, keyValue, primaryKeys[j].0, primaryKeys[j].1, pkName, generated[j])
                else []
  }

  /** f(0), ..., f(n - 1), built one at a time */
  function Snocs<T>(f: nat -> T, n: nat): (r: seq<T>)
    ensures |r| == n
  {
    if n == 0 then [] else Snocs(f, n - 1) + [f(n - 1)]
  }

  lemma {:induction false} SnocsAt<T>(f: nat -> T, n: nat, i: nat)
    requires i < n
    decreases n
    ensures Snocs(f, n)[i] == f(i)
  {
    SnocAt(Snocs(f, n - 1), f(n - 1), i);
    if i < n - 1 {
      SnocsAt(f, n - 1, i);
    }
  }

  /** Row i of relate()'s insert is the row of the i-th entry. */
  lemma JunctionRowsAt(sourceViaKey: string, targetViaKey: string, keyValue: string, primaryKeys: seq<(Key, Value)>,
                       pkName: Option<string>, generated: seq<Option<string>>, i: nat)
    requires |generated| == |primaryKeys| && i < |primaryKeys|
    ensures JunctionRows(sourceViaKey, targetViaKey, keyValue, primaryKeys, pkName, generated)[i]
            == JunctionRow(sourceViaKey, targetViaKey, keyValue, primaryKeys[i].0, primaryKeys[i].1, pkName, generated[i])
  {
    SnocsAt(EntryRow(sourceViaKey, targetViaKey, keyValue, primaryKeys, pkName, generated), |primaryKeys|, i);
  }

  lemma SnocAt<T>(a: seq<T>, x: T, i: nat)
    requires i <= |a|
    ensures (a + [x])[i] == if i < |a| then a[i] else x
  {
  }

  /** the loop of relate() that builds the junction rows */
  method BuildJunctionRows(sourceViaKey: string, targetViaKey: string, keyValue: string,
                           primaryKeys: seq<(Key, Value)>, pkName: Option<string>, generated: seq<Option<string>>)
    returns (inserts: seq<Connections.Row>)
    requires |generated| == |primaryKeys|
    ensures inserts == JunctionRows(sourceViaKey, targetViaKey, keyValue, primaryKeys, pkName, generated)
  {
    ghost var f := EntryRow(sourceViaKey, targetViaKey, keyValue, primaryKeys, pkName, generated);
    inserts := [];
    var i := 0;
    while i < |primaryKeys|
      invariant 0 <= i <= |primaryKeys|
      invariant inserts == Snocs(f, i)
    {
      inserts := inserts + [JunctionRow(sourceViaKey, targetViaKey, keyValue, primaryKeys[i].0, primaryKeys[i].1, pkName, generated[i])];
      i := i + 1;
    }
  }

  /** the N:N branch of `relate($primaryKeys, $checkKeys, $primaryKeyName)`: one insert into
      the junction table, INSERT IGNORE when the keys are not checked */
  function RelateManyToMany(rel: Meta.RelationMeta, keyValue: string, primaryKeys: seq<(Key, Value)>, checkKeys: bool,
                            pkName: Option<string>, generated: seq<Option<string>>): Write
    requires rel.kind.ManyToMany? && |generated| == |primaryKeys|
  {
    InsertRows(rel.kind.via, JunctionRows(rel.kind.sourceViaKey, rel.kind.targetViaKey, keyValue, primaryKeys, pkName, generated),
               !checkKeys)
  }

  /** the array key `array_combine` makes of a requested key; None for a value that is
      neither a string nor an integer */
  function ValueKey(v: Value): Option<Key> {
    match v
    case Int(i) => Some(IntKey(i))
    case Str(s) => Some(NormKey(s))
    case _ => None
  }

  /** the keys of `array_combine(array_values($pk), array_values($pk))` in order: each key
      once, at its first occurrence */
  function Desired(vs: seq<Value>): Option<seq<Key>>
    decreases |vs|
  {
    if vs == [] then Some([])
    else
      var init := Desired(vs[..|vs| - 1]);
      var k := ValueKey(vs[|vs| - 1]);
      if init.None? || k.None? then None
      else if k.value in init.value then init
      else Some(init.value + [k.value])
  }

  /** `array_diff_key($desired, $found)`: the desired keys not found, in order */
  function Missing(desired: seq<Key>, found: seq<Key>): seq<Key>
    decreases |desired|
  {
    if desired == [] then []
    else (if desired[0] in found then [] else [desired[0]]) + Missing(desired[1..], found)
  }

  function KeyStrings(ks: seq<Key>): (r: seq<string>)
    ensures |r| == |ks| && forall i :: 0 <= i < |ks| ==> r[i] == KeyString(ks[i])
  {
    seq(|ks|, i requires 0 <= i < |ks| => KeyString(ks[i]))
  }

  predicate HasArray(vs: seq<Value>) {
    exists v | v in vs :: v.Arr?
  }

  /** every requested key survives parseVars once it is a binder of the `this.uuid`
      condition: a scalar, null or an entity (src/GenericCollection.php:1425-1445) */
  predicate Bindable(vs: seq<Value>) {
    forall i :: 0 <= i < |vs| ==> Query.Parse(vs[i]).Some?
  }

  /** the 1:N branch of relate(): the keys are bound to the `this.uuid` condition, so
      parseVars refuses a key it cannot hand on, in the query of checkKeys or else in the
      update; with checkKeys, the nested-key test comes after that query, and a key no
      target row has is reported (`found` stands for the primary keys that query
      returns); then the target rows named by the keys get the owner's key in the target
      key column */
  function RelateManyToOne(rel: Meta.RelationMeta, keyValue: string, primaryKeys: seq<(Key, Value)>, checkKeys: bool,
                           found: seq<Key>): Result<Write>
  {
    var values := ValuesOf(primaryKeys);
    var desired := Desired(values);
    if !Bindable(values) then Err(InvalidState(InvalidBinderVar))
    else if checkKeys && HasArray(values) then Err(InvalidArgument(NestedKeys))
    else if checkKeys && desired.None? then Err(TypeError)
    else if checkKeys && Missing(desired.value, found) != [] then Err(NotFound(KeyStrings(Missing(desired.value, found))))
    else Ok(UpdateRows(rel.target, [Condition("this.uuid", Arr(Query.AsList(values)))], rel.targetKey, Str(keyValue)))
  }

  /** `unrelate($primaryKeys)`: the keys are bound to a WHERE condition, so parseVars
      refuses a key it cannot hand on when the statement is built; otherwise the
      statement UnrelateWrite describes */
  function Unrelate(rel: Meta.RelationMeta, keyValue: string, primaryKeys: seq<(Key, Value)>): Result<Write> {
    if Bindable(ValuesOf(primaryKeys)) then Ok(UnrelateWrite(rel, keyValue, primaryKeys))
    else Err(InvalidState(InvalidBinderVar))
  }

  /** the statement of `unrelate($primaryKeys)`: the junction rows of the owner and the
      keys deleted (N:N), or the target key column of the named target rows set to null
      (1:N) */
  function UnrelateWrite(rel: Meta.RelationMeta, keyValue: string, primaryKeys: seq<(Key, Value)>): Write {
    var values := Arr(Query.AsList(ValuesOf(primaryKeys)));
    match rel.kind
    case ManyToMany(via, sourceViaKey, targetViaKey) =>
      DeleteRows(via, [Condition("this." + sourceViaKey, Str(keyValue)), Condition("this." + targetViaKey, values)])
    case _ => UpdateRows(rel.target, [Condition("this.uuid", values)], rel.targetKey, Null)
  }

  /** `unrelateAll()` as written: on a 1:N relation it filters the target rows by the
      source key, the owner's own primary-key column */
  function UnrelateAllAsWritten(rel: Meta.RelationMeta, keyValue: string): Write {
    match rel.kind
    case ManyToMany(via, sourceViaKey, _) => DeleteRows(via, [Condition("this." + sourceViaKey, Str(keyValue))])
    case _ => UpdateRows(rel.target, [Condition("this." + rel.sourceKey, Str(keyValue))], rel.targetKey, Null)
  }

  /** `unrelateAll()` filtering the target rows by the target key, the column relate() and
      init() use */
  function UnrelateAll(rel: Meta.RelationMeta, keyValue: string): Write {
    match rel.kind
    case ManyToMany(via, sourceViaKey, _) => DeleteRows(via, [Condition("this." + sourceViaKey, Str(keyValue))])
    case _ => UpdateRows(rel.target, [Condition("this." + rel.targetKey, Str(keyValue))], rel.targetKey, Null)
  }

  // ---------------------------------------------------------------------
  // What a statement does to the rows of its table

  type Table = seq<Connections.Row>

  /** the column a condition names, without the `this.` alias */
  function ColumnOf(e: string): string {
    if |e| >= 5 && e[..5] == "this." then e[5..] else e
  }

  /** a condition holds for a row: a list value means IN, any other value equality */
  predicate Holds(row: Connections.Row, c: Condition) {
    var cell := Get(row, ColumnOf(c.expression));
    cell.Some? && (if c.value.Arr? then cell.value in ValuesOf(c.value.entries) else cell.value == c.value)
  }

  predicate HoldsAll(row: Connections.Row, cs: seq<Condition>) {
    forall i :: 0 <= i < |cs| ==> Holds(row, cs[i])
  }

  /** the rows a DELETE keeps */
  function Kept(t: Table, cs: seq<Condition>): Table
    decreases |t|
  {
    if t == [] then [] else (if HoldsAll(t[0], cs) then [] else [t[0]]) + Kept(t[1..], cs)
  }

  /** the rows after an UPDATE of one column */
  function Updated(t: Table, cs: seq<Condition>, column: string, v: Value): (r: Table)
    ensures |r| == |t|
    ensures forall i :: 0 <= i < |t| ==> r[i] == if HoldsAll(t[i], cs) then Put(t[i], column, v) else t[i]
  {
    seq(|t|, i requires 0 <= i < |t| => if HoldsAll(t[i], cs) then Put(t[i], column, v) else t[i])
  }

  /** a statement applied to the rows of the table it names */
  function Apply(t: Table, w: Write): Table {
    match w
    case InsertRows(_, rows, _) => t + rows
    case DeleteRows(_, cs) => Kept(t, cs)
    case UpdateRows(_, cs, column, v) => Updated(t, cs, column, v)
  }

  lemma {:induction false} KeptConcat(a: Table, b: Table, cs: seq<Condition>)
    decreases |a|
    ensures Kept(a + b, cs) == Kept(a, cs) + Kept(b, cs)
  {
    if a != [] {
      var h := if HoldsAll(a[0], cs) then [] else [a[0]];
      assert (a + b)[0] == a[0] && (a + b)[1..] == a[1..] + b;
      assert Kept(a + b, cs) == h + Kept(a[1..] + b, cs);
      KeptConcat(a[1..], b, cs);
    } else {
      assert a + b == b;
    }
  }

  /** A DELETE whose conditions no row meets keeps every row; one whose conditions every
      row meets keeps none. */
  lemma {:induction false} KeptNone(t: Table, cs: seq<Condition>)
    requires forall i :: 0 <= i < |t| ==> !HoldsAll(t[i], cs)
    decreases |t|
    ensures Kept(t, cs) == t
  {
    if t != [] {
      assert !HoldsAll(t[0], cs);
      KeptNone(t[1..], cs);
    }
  }

  lemma {:induction false} KeptAll(t: Table, cs: seq<Condition>)
    requires forall i :: 0 <= i < |t| ==> HoldsAll(t[i], cs)
    decreases |t|
    ensures Kept(t, cs) == []
  {
    if t != [] {
      assert HoldsAll(t[0], cs);
      KeptAll(t[1..], cs);
    }
  }

  /** After a DELETE no row meets its conditions. */
  lemma {:induction false} KeptMeetsNone(t: Table, cs: seq<Condition>, i: nat)
    requires i < |Kept(t, cs)|
    decreases |t|
    ensures !HoldsAll(Kept(t, cs)[i], cs)
  {
    var head := if HoldsAll(t[0], cs) then [] else [t[0]];
    if i >= |head| {
      KeptMeetsNone(t[1..], cs, i - |head|);
    }
  }

  lemma ColumnOfThis(c: string)
    ensures ColumnOf("this." + c) == c
  {
    var e := "this." + c;
    assert e[..5] == "this.";
    assert e[5..] == c;
  }

  lemma ColumnOfUuid()
    ensures ColumnOf("this.uuid") == "uuid"
  {
    ColumnOfThis("uuid");
    assert "this." + "uuid" == "this.uuid";
  }

  // ---------------------------------------------------------------------
  // relate, unrelate and unrelateAll against the rows

  /** a junction row of the owner and a scalar key, whatever the generated key column adds */
  lemma JunctionRowLinks(sk: string, tk: string, kv: string, index: Key, key: Value,
                         pkName: Option<string>, generated: Option<string>)
    requires !key.Arr? && sk != tk
    requires Connections.TruthyString(pkName) ==> pkName.value != sk && pkName.value != tk
    ensures var row := JunctionRow(sk, tk, kv, index, key, pkName, generated);
      Get(row, sk) == Some(Str(kv)) && Get(row, tk) == Some(key)
  {
    var r0 := Put([], sk, Str(kv));
    var r1 := Put(r0, tk, key);
    GetPut(r0, tk, key, sk);
    GetPut(r0, tk, key, tk);
    if Connections.TruthyString(pkName) {
      GetPut(r1, pkName.value, NullOr(generated), sk);
      GetPut(r1, pkName.value, NullOr(generated), tk);
    }
  }

  /** Every row relate() inserts for scalar keys meets both conditions of unrelate() for
      the same keys. */
  lemma RelatedRowMatches(rel: Meta.RelationMeta, kv: string, primaryKeys: seq<(Key, Value)>,
                          pkName: Option<string>, generated: seq<Option<string>>, i: nat)
    requires rel.kind.ManyToMany? && rel.kind.sourceViaKey != rel.kind.targetViaKey
    requires Connections.TruthyString(pkName) ==> pkName.value != rel.kind.sourceViaKey && pkName.value != rel.kind.targetViaKey
    requires |generated| == |primaryKeys| && i < |primaryKeys| && !primaryKeys[i].1.Arr?
    ensures var sk, tk := rel.kind.sourceViaKey, rel.kind.targetViaKey;
      var rows := JunctionRows(sk, tk, kv, primaryKeys, pkName, generated);
      |rows| == |primaryKeys| && HoldsAll(rows[i], UnrelateWrite(rel, kv, primaryKeys).conditions)
  {
    var sk, tk := rel.kind.sourceViaKey, rel.kind.targetViaKey;
    var row := JunctionRows(sk, tk, kv, primaryKeys, pkName, generated)[i];
    JunctionRowsAt(sk, tk, kv, primaryKeys, pkName, generated, i);
    JunctionRowLinks(sk, tk, kv, primaryKeys[i].0, primaryKeys[i].1, pkName, generated[i]);
    var values := ValuesOf(primaryKeys);
    assert values[i] == primaryKeys[i].1;
    assert ValuesOf(Query.AsList(values))[i] == values[i];
    PairHolds(row, sk, tk, kv, primaryKeys[i].1, Query.AsList(values));
    assert UnrelateWrite(rel, kv, primaryKeys).conditions
        == [Condition("this." + sk, Str(kv)), Condition("this." + tk, Arr(Query.AsList(values)))];
  }

  /** a row holding the owner and one of the keys meets unrelate()'s two conditions */
  lemma PairHolds(row: Connections.Row, sk: string, tk: string, kv: string, key: Value, keys: seq<(Key, Value)>)
    requires Get(row, sk) == Some(Str(kv)) && Get(row, tk) == Some(key) && key in ValuesOf(keys)
    ensures HoldsAll(row, [Condition("this." + sk, Str(kv)), Condition("this." + tk, Arr(keys))])
  {
    ColumnOfThis(sk);
    ColumnOfThis(tk);
    var cs := [Condition("this." + sk, Str(kv)), Condition("this." + tk, Arr(keys))];
    assert Holds(row, cs[0]) && Holds(row, cs[1]);
  }

  /** On an N:N relation unrelate() deletes exactly the rows relate() inserted: for keys
      that are scalars, null or entities, on a junction table that did not yet pair the
      owner with any of them, relating and then unrelating the same keys leaves the table
      as it was. */
  lemma UnrelateUndoesRelate(t: Table, rel: Meta.RelationMeta, kv: string, primaryKeys: seq<(Key, Value)>,
                             checkKeys: bool, pkName: Option<string>, generated: seq<Option<string>>)
    requires rel.kind.ManyToMany? && rel.kind.sourceViaKey != rel.kind.targetViaKey
    requires Connections.TruthyString(pkName) ==> pkName.value != rel.kind.sourceViaKey && pkName.value != rel.kind.targetViaKey
    requires |generated| == |primaryKeys| && Bindable(ValuesOf(primaryKeys))
    requires forall j :: 0 <= j < |t| ==> !HoldsAll(t[j], UnrelateWrite(rel, kv, primaryKeys).conditions)
    ensures Unrelate(rel, kv, primaryKeys).Ok?
    ensures Apply(Apply(t, RelateManyToMany(rel, kv, primaryKeys, checkKeys, pkName, generated)),
                  Unrelate(rel, kv, primaryKeys).value) == t
  {
    forall i | 0 <= i < |primaryKeys| ensures !primaryKeys[i].1.Arr? {
      assert ValuesOf(primaryKeys)[i] == primaryKeys[i].1;
      assert Query.Parse(ValuesOf(primaryKeys)[i]).Some?;
    }
    UnrelateWriteUndoesRelate(t, rel, kv, primaryKeys, checkKeys, pkName, generated);
  }

  /** UnrelateUndoesRelate for the statement itself, for keys that are not arrays */
  lemma UnrelateWriteUndoesRelate(t: Table, rel: Meta.RelationMeta, kv: string, primaryKeys: seq<(Key, Value)>,
                                  checkKeys: bool, pkName: Option<string>, generated: seq<Option<string>>)
    requires rel.kind.ManyToMany? && rel.kind.sourceViaKey != rel.kind.targetViaKey
    requires Connections.TruthyString(pkName) ==> pkName.value != rel.kind.sourceViaKey && pkName.value != rel.kind.targetViaKey
    requires |generated| == |primaryKeys| && forall i :: 0 <= i < |primaryKeys| ==> !primaryKeys[i].1.Arr?
    requires forall j :: 0 <= j < |t| ==> !HoldsAll(t[j], UnrelateWrite(rel, kv, primaryKeys).conditions)
    ensures Apply(Apply(t, RelateManyToMany(rel, kv, primaryKeys, checkKeys, pkName, generated)),
                  UnrelateWrite(rel, kv, primaryKeys)) == t
  {
    var rows := JunctionRows(rel.kind.sourceViaKey, rel.kind.targetViaKey, kv, primaryKeys, pkName, generated);
    var cs := UnrelateWrite(rel, kv, primaryKeys).conditions;
    forall i | 0 <= i < |rows| ensures HoldsAll(rows[i], cs) {
      RelatedRowMatches(rel, kv, primaryKeys, pkName, generated, i);
    }
    KeptConcat(t, rows, cs);
    KeptNone(t, cs);
    KeptAll(rows, cs);
  }

  /** relate() on an N:N relation sends INSERT IGNORE exactly when the keys are not checked. */
  lemma RelateIgnoresUnchecked(rel: Meta.RelationMeta, kv: string, primaryKeys: seq<(Key, Value)>, checkKeys: bool,
                               pkName: Option<string>, generated: seq<Option<string>>)
    requires rel.kind.ManyToMany? && |generated| == |primaryKeys|
    ensures var w := RelateManyToMany(rel, kv, primaryKeys, checkKeys, pkName, generated);
      w.InsertRows? && w.table == rel.kind.via && |w.rows| == |primaryKeys| && (w.ignore <==> !checkKeys)
  {
  }

  /** Desired fails exactly when one of the requested values makes no key. */
  lemma {:induction false} DesiredFails(vs: seq<Value>)
    decreases |vs|
    ensures Desired(vs).None? <==> exists i :: 0 <= i < |vs| && ValueKey(vs[i]).None?
  {
    if vs != [] {
      var p := vs[..|vs| - 1];
      DesiredFails(p);
      if exists i :: 0 <= i < |p| && ValueKey(p[i]).None? {
        var i :| 0 <= i < |p| && ValueKey(p[i]).None?;
        assert vs[i] == p[i];
      }
      if exists i :: 0 <= i < |vs| && ValueKey(vs[i]).None? {
        var i :| 0 <= i < |vs| && ValueKey(vs[i]).None?;
        if i < |p| {
          assert vs[i] == p[i];
        }
      }
    }
  }

  /** Desired lists each key the requested values make, each exactly once. */
  lemma DesiredKeys(vs: seq<Value>)
    requires Desired(vs).Some?
    ensures Distinct(Desired(vs).value)
    ensures forall k :: k in Desired(vs).value <==> exists i :: 0 <= i < |vs| && ValueKey(vs[i]) == Some(k)
  {
    DesiredDistinct(vs);
    forall k ensures k in Desired(vs).value <==> exists i :: 0 <= i < |vs| && ValueKey(vs[i]) == Some(k) {
      DesiredMember(vs, k);
    }
  }

  lemma {:induction false} DesiredDistinct(vs: seq<Value>)
    requires Desired(vs).Some?
    decreases |vs|
    ensures Distinct(Desired(vs).value)
  {
    if vs != [] {
      var p := vs[..|vs| - 1];
      var last := ValueKey(vs[|vs| - 1]).value;
      DesiredDistinct(p);
      if last !in Desired(p).value {
        DistinctConcat(Desired(p).value, [last]);
      }
    }
  }

  lemma DesiredSnoc(vs: seq<Value>, k: Key)
    requires vs != [] && Desired(vs).Some?
    ensures Desired(vs[..|vs| - 1]).Some? && ValueKey(vs[|vs| - 1]).Some?
    ensures k in Desired(vs).value <==> k in Desired(vs[..|vs| - 1]).value || ValueKey(vs[|vs| - 1]) == Some(k)
  {
  }

  lemma DesiredMember(vs: seq<Value>, k: Key)
    requires Desired(vs).Some?
    ensures k in Desired(vs).value <==> exists i :: 0 <= i < |vs| && ValueKey(vs[i]) == Some(k)
  {
    if k in Desired(vs).value {
      DesiredMemberFound(vs, k);
    }
    if exists i :: 0 <= i < |vs| && ValueKey(vs[i]) == Some(k) {
      var i :| 0 <= i < |vs| && ValueKey(vs[i]) == Some(k);
      DesiredMemberMade(vs, k, i);
    }
  }

  lemma {:induction false} DesiredMemberFound(vs: seq<Value>, k: Key)
    requires Desired(vs).Some? && k in Desired(vs).value
    decreases |vs|
    ensures exists i :: 0 <= i < |vs| && ValueKey(vs[i]) == Some(k)
  {
    var p := vs[..|vs| - 1];
    var n := |vs| - 1;
    DesiredSnoc(vs, k);
    if k in Desired(p).value {
      DesiredMemberFound(p, k);
      var i :| 0 <= i < |p| && ValueKey(p[i]) == Some(k);
      assert vs[i] == p[i];
    } else {
      assert ValueKey(vs[n]) == Some(k);
    }
  }

  lemma {:induction false} DesiredMemberMade(vs: seq<Value>, k: Key, i: nat)
    requires Desired(vs).Some? && i < |vs| && ValueKey(vs[i]) == Some(k)
    decreases |vs|
    ensures k in Desired(vs).value
  {
    var p := vs[..|vs| - 1];
    DesiredSnoc(vs, k);
    if i < |vs| - 1 {
      assert p[i] == vs[i];
      DesiredMemberMade(p, k, i);
    }
  }

  /** The reported keys are the desired keys not found, each once. */
  lemma {:induction false} MissingSpec(desired: seq<Key>, found: seq<Key>)
    decreases |desired|
    ensures forall k :: k in Missing(desired, found) <==> k in desired && k !in found
    ensures Distinct(desired) ==> Distinct(Missing(desired, found))
  {
    if desired != [] {
      MissingSpec(desired[1..], found);
      DistinctCons(desired[0], desired[1..]);
      assert desired == [desired[0]] + desired[1..];
      var head := if desired[0] in found then [] else [desired[0]];
      DistinctCons(desired[0], Missing(desired[1..], found));
    }
  }

  /** relate() on a 1:N relation with checked keys: a key parseVars cannot hand on, a
      nested key among them, fails with INVALID_BINDER_VAR in the query for the found
      keys, so the nested-key test after it never fires; with keys that are strings or
      integers it reports NotFound exactly when some requested key has no target row, and
      the keys it reports are those keys, each once. */
  lemma RelateChecksKeys(rel: Meta.RelationMeta, kv: string, primaryKeys: seq<(Key, Value)>, found: seq<Key>)
    ensures var r := RelateManyToOne(rel, kv, primaryKeys, true, found);
      var values := ValuesOf(primaryKeys);
      && (!Bindable(values) <==> r == Err(InvalidState(InvalidBinderVar)))
      && (HasArray(values) ==> r == Err(InvalidState(InvalidBinderVar)))
      && r != Err(InvalidArgument(NestedKeys))
      && ((forall i :: 0 <= i < |values| ==> ValueKey(values[i]).Some?) ==>
            && Desired(values).Some?
            && (r.Err? <==> exists i :: 0 <= i < |values| && ValueKey(values[i]).value !in found)
            && (r.Err? ==> r.error.NotFound? && |r.error.keys| == |Missing(Desired(values).value, found)|
                           && Distinct(Missing(Desired(values).value, found))
                           && forall k :: k in Missing(Desired(values).value, found) <==>
                                (k !in found && exists i :: 0 <= i < |values| && ValueKey(values[i]) == Some(k))))
  {
    RelateChecksBinders(rel, kv, primaryKeys, found);
    var values := ValuesOf(primaryKeys);
    if forall i :: 0 <= i < |values| ==> ValueKey(values[i]).Some? {
      assert Bindable(values) by {
        forall i | 0 <= i < |values| ensures Query.Parse(values[i]).Some? {
          assert values[i].Int? || values[i].Str?;
        }
      }
      RelateChecksFound(values, found);
    }
  }

  /** the binder part of RelateChecksKeys: a key parseVars refuses, a nested array among
      them, fails before the nested-key test */
  lemma RelateChecksBinders(rel: Meta.RelationMeta, kv: string, primaryKeys: seq<(Key, Value)>, found: seq<Key>)
    ensures var r := RelateManyToOne(rel, kv, primaryKeys, true, found);
      var values := ValuesOf(primaryKeys);
      && (!Bindable(values) <==> r == Err(InvalidState(InvalidBinderVar)))
      && (HasArray(values) ==> r == Err(InvalidState(InvalidBinderVar)))
      && r != Err(InvalidArgument(NestedKeys))
  {
    var values := ValuesOf(primaryKeys);
    if HasArray(values) {
      var v :| v in values && v.Arr?;
      var i :| 0 <= i < |values| && values[i] == v;
      assert Query.Parse(values[i]).None?;
    }
  }

  /** the NotFound part of RelateChecksKeys, for keys that are strings or integers */
  lemma RelateChecksFound(values: seq<Value>, found: seq<Key>)
    requires forall i :: 0 <= i < |values| ==> ValueKey(values[i]).Some?
    ensures Desired(values).Some?
    ensures var r := if Missing(Desired(values).value, found) != []
                     then Err(NotFound(KeyStrings(Missing(Desired(values).value, found)))) else Ok(());
      && (r.Err? <==> exists i :: 0 <= i < |values| && ValueKey(values[i]).value !in found)
      && (r.Err? ==> r.error.NotFound? && |r.error.keys| == |Missing(Desired(values).value, found)|
                     && Distinct(Missing(Desired(values).value, found))
                     && forall k :: k in Missing(Desired(values).value, found) <==>
                          (k !in found && exists i :: 0 <= i < |values| && ValueKey(values[i]) == Some(k)))
  {
    DesiredFails(values);
    DesiredKeys(values);
    var d := Desired(values).value;
    MissingSpec(d, found);
    if exists i :: 0 <= i < |values| && ValueKey(values[i]).value !in found {
      var i :| 0 <= i < |values| && ValueKey(values[i]).value !in found;
      assert ValueKey(values[i]).value in d;
      assert ValueKey(values[i]).value in Missing(d, found);
    }
    if Missing(d, found) != [] {
      var k := Missing(d, found)[0];
      assert k in d && k !in found;
      var i :| 0 <= i < |values| && ValueKey(values[i]) == Some(k);
    }
  }

  /** Without the check relate() on a 1:N relation sends its update unless parseVars
      refuses a key when the update is built. */
  lemma RelateUncheckedUpdates(rel: Meta.RelationMeta, kv: string, primaryKeys: seq<(Key, Value)>, found: seq<Key>)
    ensures var r := RelateManyToOne(rel, kv, primaryKeys, false, found);
      && (r.Ok? <==> Bindable(ValuesOf(primaryKeys)))
      && (r.Err? ==> r.error == InvalidState(InvalidBinderVar))
      && (r.Ok? ==> r.value.UpdateRows? && r.value.target == rel.target && r.value.column == rel.targetKey)
  {
  }

  /** relate() on a 1:N relation gives every target row whose key is requested the owner's
      key in the target key column, and changes no other row. */
  lemma RelateManyToOneLinks(t: Table, rel: Meta.RelationMeta, kv: string, primaryKeys: seq<(Key, Value)>, checkKeys: bool,
                             found: seq<Key>, j: nat)
    requires RelateManyToOne(rel, kv, primaryKeys, checkKeys, found).Ok? && j < |t|
    ensures var t' := Apply(t, RelateManyToOne(rel, kv, primaryKeys, checkKeys, found).value);
      var uuid := Get(t[j], "uuid");
      && |t'| == |t|
      && (uuid.Some? && uuid.value in ValuesOf(primaryKeys) ==> Get(t'[j], rel.targetKey) == Some(Str(kv)))
      && (uuid.None? || uuid.value !in ValuesOf(primaryKeys) ==> t'[j] == t[j])
  {
    var values := ValuesOf(primaryKeys);
    var cs := [Condition("this.uuid", Arr(Query.AsList(values)))];
    ColumnOfUuid();
    var uuid := Get(t[j], "uuid");
    if uuid.Some? {
      assert uuid.value in values <==> uuid.value in ValuesOf(Query.AsList(values)) by {
        assert ValuesOf(Query.AsList(values)) == values;
      }
    }
    assert HoldsAll(t[j], cs) <==> Holds(t[j], cs[0]);
    GetPut(t[j], rel.targetKey, Str(kv), rel.targetKey);
  }

  lemma {:induction false} PutPut<K, V>(a: seq<(K, V)>, k: K, v1: V, v2: V)
    decreases |a|
    ensures Put(Put(a, k, v1), k, v2) == Put(a, k, v2)
  {
    if a != [] && a[0].0 != k {
      PutPut(a[1..], k, v1, v2);
    }
  }

  /** On a 1:N relation unrelate() undoes relate(): relating and then unrelating the same
      keys leaves the rows as unrelating alone does, the target key of every named row null. */
  lemma UnrelateOverridesRelate(t: Table, rel: Meta.RelationMeta, kv: string, primaryKeys: seq<(Key, Value)>,
                                checkKeys: bool, found: seq<Key>)
    requires !rel.kind.ManyToMany? && rel.targetKey != "uuid"
    requires RelateManyToOne(rel, kv, primaryKeys, checkKeys, found).Ok?
    ensures Unrelate(rel, kv, primaryKeys).Ok?
    ensures Apply(Apply(t, RelateManyToOne(rel, kv, primaryKeys, checkKeys, found).value), Unrelate(rel, kv, primaryKeys).value)
            == Apply(t, Unrelate(rel, kv, primaryKeys).value)
  {
    var values := Arr(Query.AsList(ValuesOf(primaryKeys)));
    var cs := [Condition("this.uuid", values)];
    var t1 := Updated(t, cs, rel.targetKey, Str(kv));
    var t2 := Updated(t1, cs, rel.targetKey, Null);
    var t3 := Updated(t, cs, rel.targetKey, Null);
    ColumnOfUuid();
    forall j | 0 <= j < |t| ensures t2[j] == t3[j] {
      if HoldsAll(t[j], cs) {
        GetPut(t[j], rel.targetKey, Str(kv), "uuid");
        assert HoldsAll(t1[j], cs) by { assert Holds(t1[j], cs[0]); }
        PutPut(t[j], rel.targetKey, Str(kv), Null);
      }
    }
  }

  /** After unrelateAll() nothing is related to the owner any more: no junction row names
      it (N:N), no target row holds its key in the target key column (1:N). */
  lemma UnrelateAllEmpties(t: Table, rel: Meta.RelationMeta, kv: string, j: nat)
    requires !rel.kind.KeyHolder? && j < |Apply(t, UnrelateAll(rel, kv))|
    ensures var col := if rel.kind.ManyToMany? then rel.kind.sourceViaKey else rel.targetKey;
      Get(Apply(t, UnrelateAll(rel, kv))[j], col) != Some(Str(kv))
  {
    var col := if rel.kind.ManyToMany? then rel.kind.sourceViaKey else rel.targetKey;
    var cs := [Condition("this." + col, Str(kv))];
    ColumnOfThis(col);
    if rel.kind.ManyToMany? {
      KeptMeetsNone(t, cs, j);
      assert !Holds(Kept(t, cs)[j], cs[0]);
    } else {
      GetPut(t[j], col, Null, col);
    }
  }

  /** The unrelateAll() of the source misses the rows it should clear: a target row that
      holds the owner's key "s1" in fk_s is left as it was, because the statement filters
      by the owner's primary-key column uuid. */
  lemma UnrelateAllAsWrittenMisses()
    ensures var rel := Meta.RelationMeta("items", "Shop", "Item", "uuid", "fk_s", true, Meta.Inverse);
      var t := [[("uuid", Str("t1")), ("fk_s", Str("s1"))]];
      && Apply(t, UnrelateAllAsWritten(rel, "s1")) == t
      && Get(Apply(t, UnrelateAllAsWritten(rel, "s1"))[0], "fk_s") == Some(Str("s1"))
      && Get(Apply(t, UnrelateAll(rel, "s1"))[0], "fk_s") == Some(Null)
  {
    var rel := Meta.RelationMeta("items", "Shop", "Item", "uuid", "fk_s", true, Meta.Inverse);
    var row: Connections.Row := [("uuid", Str("t1")), ("fk_s", Str("s1"))];
    var t := [row];
    ColumnOfThis("uuid");
    ColumnOfThis("fk_s");
    assert Get(row, "uuid") == Some(Str("t1"));
    assert Get(row, "fk_s") == Some(Str("s1"));
    assert "t1"[0] != "s1"[0];
    var c := Condition("this." + "uuid", Str("s1"));
    assert ColumnOf(c.expression) == "uuid";
    assert Get(row, ColumnOf(c.expression)) == Some(Str("t1"));
    assert Str("t1") != Str("s1");
    assert !Holds(row, c);
    assert !HoldsAll(row, [c]) by {
      assert [c][0] == c;
    }
    assert Apply(t, UnrelateAllAsWritten(rel, "s1"))[0] == row;
    assert HoldsAll(row, [Condition("this." + "fk_s", Str("s1"))]);
    GetPut(row, "fk_s", Null, "fk_s");
  }

  // ---------------------------------------------------------------------
  // init(): the relation's filter on the target collection

  /** what init() adds to the target collection's own init: a join of the junction table
      and the owner's key on it (N:N), or the owner's key in the target key column (1:N) */
  function RelationFilter(st: Query.State, rel: Meta.RelationMeta, keyValue: string): Query.Out {
    match rel.kind
    case ManyToMany(via, sourceViaKey, targetViaKey) =>
      var o := Query.SetJoin(st, [(StrKey("via"), Query.Text(via))], Some("via." + targetViaKey + "=this." + rel.targetKey), [], None);
      if o.err.Some? then o else Query.SetWhere(o.st, Some("via." + sourceViaKey), Str(keyValue))
    case _ => Query.SetWhere(st, Some(rel.targetKey), Arr([(IntKey(0), Str(keyValue))]))
  }

  /** `init()`: the collection's init, then the relation's filter */
  function RelationInit(st: Query.State, rel: Meta.RelationMeta, keyValue: string): Query.Out {
    var o := Query.Init(st);
    if o.err.Some? then o else RelationFilter(o.st, rel, keyValue)
  }

  /** the one condition the relation's filter leaves, on column col, bound to the owner's key */
  ghost predicate FilteredBy(o: Query.Out, st: Query.State, col: string, keyValue: string) {
    var b := Query.Binder(st);
    && o.err.None?
    && o.st.where == ["(" + col + " = :" + b + ")"]
    && Get(o.st.vars, b) == Some(Str(keyValue))
    && o.st.binderCounter == st.binderCounter + 1
    && o.st.possibleValues == [(col, [(IntKey(0), Str(keyValue))])]
  }

  /** the WHERE half of the filter, on a state with no binders */
  lemma SetWhereOwner(s: Query.State, col: string, v: Value, kv: string)
    requires !s.loaded && s.vars == []
    requires v == Str(kv) || v == Arr([(IntKey(0), Str(kv))])
    ensures FilteredBy(Query.SetWhere(s, Some(col), v), s, col, kv)
  {
    var s1 := Query.Prepare(s, true);
    assert s1.vars == [];
    assert Query.Free(s1, Query.Binder(s1));
    QueryProps.ProcessWhereSingleShape(s, col, Str(kv), false, true);
    assert Keys([(IntKey(0), Str(kv))]) == IntKeys(Range(0, 0));
    QueryProps.AttachSingleSpec(s1, col, Str(kv), false);
  }

  lemma ViaAlias(quote: string, via: string)
    requires quote == "`" || quote == "\""
    ensures Query.AliasOf(quote, StrKey("via"), Query.Text(via)) == "via"
    ensures IsValidIdentifier("via")
  {
    assert "via"[0] == 'v' && IdentChar('v');
    assert Query.FirstChar("via") == "v";
  }

  /** the JOIN half of the N:N filter */
  lemma SetJoinVia(st: Query.State, via: string, condition: string)
    requires !st.loaded && st.vars == [] && st.varsFlags == [] && UniqueKeys(st.aliases)
    requires (st.quote == "`" || st.quote == "\"") && Get(st.aliases, "via") in {None, Some(Query.JoinClause)}
    ensures var o := Query.SetJoin(st, [(StrKey("via"), Query.Text(via))], Some(condition), [], None);
      && o.err.None? && !o.st.loaded && o.st.vars == [] && o.st.binderCounter == st.binderCounter
      && o.st.binderName == st.binderName
      && o.st.joins == [Query.Join(Query.DefaultJoin, [(StrKey("via"), Query.Text(via))], Some(condition))]
      && Get(o.st.aliases, "via") == Some(Query.JoinClause)
  {
    var from := [(StrKey("via"), Query.Text(via))];
    var s0 := Query.RemoveVars(Query.RemoveAlias(st, Query.JoinClause), Query.JoinClause);
    assert s0.vars == [] && s0.varsFlags == [];
    QueryProps.DropClauseSpec(st.aliases, Query.JoinClause, "via");
    ViaAlias(st.quote, via);
    assert QueryProps.AliasNames(st.quote, from) == ["via"];
    assert QueryProps.AliasesOk(["via"], Keys(s0.aliases));
    QueryProps.AddAliasFails(s0, from, Query.JoinClause);
    QueryProps.AddAliasRegisters(s0, from, Query.JoinClause, "via");
  }

  /** On the state init() leaves (no binders), the filter succeeds whenever the name via is
      not taken by a clause other than JOIN: the target rows are those whose target key is
      the owner's key (1:N), or those the junction table pairs with the owner (N:N), and
      the owner's key is recorded as the only possible value of the filtered column. */
  lemma RelationFilterSpec(st: Query.State, rel: Meta.RelationMeta, keyValue: string)
    requires !st.loaded && st.vars == [] && st.varsFlags == []
    requires !rel.kind.KeyHolder?
    requires rel.kind.ManyToMany? ==>
               && UniqueKeys(st.aliases)
               && (st.quote == "`" || st.quote == "\"")
               && Get(st.aliases, "via") in {None, Some(Query.JoinClause)}
    ensures var o := RelationFilter(st, rel, keyValue);
      match rel.kind
      case ManyToMany(via, sourceViaKey, targetViaKey) =>
        && FilteredBy(o, st, "via." + sourceViaKey, keyValue)
        && o.st.joins == [Query.Join(Query.DefaultJoin, [(StrKey("via"), Query.Text(via))], Some("via." + targetViaKey + "=this." + rel.targetKey))]
        && Get(o.st.aliases, "via") == Some(Query.JoinClause)
      case _ => FilteredBy(o, st, rel.targetKey, keyValue)
  {
    match rel.kind
    case ManyToMany(via, sourceViaKey, targetViaKey) =>
      JunctionFilter(st, via, sourceViaKey, "via." + targetViaKey + "=this." + rel.targetKey, keyValue);
    case _ =>
      SetWhereOwner(st, rel.targetKey, Arr([(IntKey(0), Str(keyValue))]), keyValue);
  }

  /** the N:N half of the filter: the junction join, then the WHERE on its source column */
  lemma JunctionFilter(st: Query.State, via: string, sourceViaKey: string, condition: string, keyValue: string)
    requires !st.loaded && st.vars == [] && st.varsFlags == [] && UniqueKeys(st.aliases)
    requires (st.quote == "`" || st.quote == "\"") && Get(st.aliases, "via") in {None, Some(Query.JoinClause)}
    ensures var o := Query.SetJoin(st, [(StrKey("via"), Query.Text(via))], Some(condition), [], None);
      var o2 := Query.SetWhere(o.st, Some("via." + sourceViaKey), Str(keyValue));
      && o.err.None?
      && FilteredBy(o2, st, "via." + sourceViaKey, keyValue)
      && o2.st.joins == [Query.Join(Query.DefaultJoin, [(StrKey("via"), Query.Text(via))], Some(condition))]
      && Get(o2.st.aliases, "via") == Some(Query.JoinClause)
  {
    SetJoinVia(st, via, condition);
    var o := Query.SetJoin(st, [(StrKey("via"), Query.Text(via))], Some(condition), [], None);
    WhereAfterJoin(o.st, st, "via." + sourceViaKey, keyValue);
  }

  /** the WHERE on a state whose binders are those of st keeps its joins and aliases */
  lemma WhereAfterJoin(s: Query.State, st: Query.State, col: string, keyValue: string)
    requires !s.loaded && s.vars == [] && s.binderName == st.binderName && s.binderCounter == st.binderCounter
    ensures var o := Query.SetWhere(s, Some(col), Str(keyValue));
      && FilteredBy(o, st, col, keyValue) && o.st.joins == s.joins && o.st.aliases == s.aliases
  {
    SetWhereOwner(s, col, Str(keyValue), keyValue);
  }
}

/** The relation collection as an object: a collection of the relation's target whose init
    adds the relation's filter, and whose relate(), unrelate() and unrelateAll() clear a
    loaded collection before they hand on their statement. */
module RelationCollections {
  import opened Php
  import opened Errors
  import Meta
  import Query
  import Structures
  import Repositories
  import Autojoins
  import Collections
  import RelationWrites
  import GenericCollections

  class RelationCollection {
    const collection: Collections.Collection
    const relation: Meta.RelationMeta
    const keyValue: string

    constructor (collection: Collections.Collection, relation: Meta.RelationMeta, keyValue: string)
      ensures this.collection == collection && this.relation == relation && this.keyValue == keyValue
    {
      this.collection := collection;
      this.relation := relation;
      this.keyValue := keyValue;
    }

    /** `__construct($repository, $relation, $keyValue)` over the target's structure: a key
        holder is refused before anything is built; otherwise the target's collection is
        constructed and its init() ends with the relation's filter */
    static method Create(relation: Meta.RelationMeta, keyValue: Key, objectId: nat, quote: string,
                         schema: Autojoins.Schema, target: Structures.Structure,
                         defaultSelect: seq<(Key, Query.Src)>, fallbackSelect: seq<(Key, Query.Src)>)
      returns (r: Result<RelationCollection>)
      ensures relation.kind.KeyHolder? ==> r == Err(InvalidState(KeyHolderNotAllowed))
      ensures !relation.kind.KeyHolder? ==>
        var o := RelationWrites.RelationInit(Query.Pristine(objectId, quote, Some(Repositories.DefaultFrom(target.table)), fallbackSelect,
                                                            Some(Repositories.DefaultAlias + "." + target.pk.name)),
                                             relation, KeyString(keyValue));
        && (o.err.Some? ==> r == Err(o.err.value))
        && (o.err.None? ==> && r.Ok? && fresh(r.value) && fresh(r.value.collection) && fresh(r.value.collection.base)
                            && r.value.relation == relation && r.value.keyValue == KeyString(keyValue)
                            && r.value.collection.base.Abs() == o.st
                            && r.value.collection.entityClass == target.entityClass)
    {
      var kv := RelationWrites.Open(relation, keyValue);
      if kv.Err? {
        return Err(kv.error);
      }
      var c, err := Collections.Collection.Create(objectId, quote, schema, target, defaultSelect, fallbackSelect);
      if err.Some? {
        return Err(err.value);
      }
      err := Filter(c.base, relation, kv.value);
      if err.Some? {
        return Err(err.value);
      }
      var rc := new RelationCollection(c, relation, kv.value);
      return Ok(rc);
    }

    /** the part of init() after the collection's own: join the junction table and filter by
        the owner's key on it (N:N), or filter the target key column by the owner's key */
    static method Filter(base: GenericCollections.GenericCollection, relation: Meta.RelationMeta, keyValue: string)
      returns (err: Option<Error>)
      modifies base
      ensures Query.Out(base.Abs(), err) == RelationWrites.RelationFilter(old(base.Abs()), relation, keyValue)
    {
      match relation.kind {
        case ManyToMany(via, sourceViaKey, targetViaKey) =>
          err := base.SetJoin([(StrKey("via"), Query.Text(via))], Some("via." + targetViaKey + "=this." + relation.targetKey), [], None);
          if err.None? {
            err := base.SetWhere(Some("via." + sourceViaKey), Str(keyValue));
          }
        case _ =>
          err := base.SetWhere(Some(relation.targetKey), Arr([(IntKey(0), Str(keyValue))]));
      }
    }

    /** `if ($this->isLoaded()) $this->clear();` */
    method ClearIfLoaded()
      modifies collection.base
      ensures collection.base.Abs() == old(collection.base.Abs()).(loaded := false)
    {
      if collection.base.loaded {
        var _ := collection.base.Clear(false);
      }
    }

    /** `relate($primaryKeys, $checkKeys, $primaryKeyName)`: the junction rows of an N:N
        relation (generated[i] is the key generated for the i-th row), or the 1:N update of
        the target rows (found are the keys the target rows have) */
    method Relate(primaryKeys: seq<(Key, Value)>, checkKeys: bool, pkName: Option<string>,
                  generated: seq<Option<string>>, found: seq<Key>)
      returns (r: Result<RelationWrites.Write>)
      requires |generated| == |primaryKeys|
      modifies collection.base
      ensures collection.base.Abs() == old(collection.base.Abs()).(loaded := false)
      ensures relation.kind.ManyToMany? ==>
        r == Ok(RelationWrites.RelateManyToMany(relation, keyValue, primaryKeys, checkKeys, pkName, generated))
      ensures !relation.kind.ManyToMany? ==>
        r == RelationWrites.RelateManyToOne(relation, keyValue, primaryKeys, checkKeys, found)
      ensures !relation.kind.ManyToMany? && (exists i :: 0 <= i < |primaryKeys| && Query.Parse(primaryKeys[i].1).None?)
              ==> r == Err(InvalidState(InvalidBinderVar))
    {
      ClearIfLoaded();
      if relation.kind.ManyToMany? {
        var inserts := RelationWrites.BuildJunctionRows(relation.kind.sourceViaKey, relation.kind.targetViaKey, keyValue,
                                                        primaryKeys, pkName, generated);
        return Ok(RelationWrites.InsertRows(relation.kind.via, inserts, !checkKeys));
      }
      r := RelationWrites.RelateManyToOne(relation, keyValue, primaryKeys, checkKeys, found);
      assert forall i :: 0 <= i < |primaryKeys| ==> ValuesOf(primaryKeys)[i] == primaryKeys[i].1;
    }

    /** `unrelate($primaryKeys)`: the statement, or INVALID_BINDER_VAR for a key that
        parseVars cannot hand on */
    method Unrelate(primaryKeys: seq<(Key, Value)>) returns (r: Result<RelationWrites.Write>)
      modifies collection.base
      ensures collection.base.Abs() == old(collection.base.Abs()).(loaded := false)
      ensures r == RelationWrites.Unrelate(relation, keyValue, primaryKeys)
      ensures r.Err? <==> exists i :: 0 <= i < |primaryKeys| && Query.Parse(primaryKeys[i].1).None?
      ensures r.Err? ==> r.error == InvalidState(InvalidBinderVar)
    {
      ClearIfLoaded();
      r := RelationWrites.Unrelate(relation, keyValue, primaryKeys);
      assert forall i :: 0 <= i < |primaryKeys| ==> ValuesOf(primaryKeys)[i] == primaryKeys[i].1;
    }

    /** `unrelateAll()`, filtering a 1:N relation's target rows by the target key */
    method UnrelateAll() returns (w: RelationWrites.Write)
      modifies collection.base
      ensures collection.base.Abs() == old(collection.base.Abs()).(loaded := false)
      ensures w == RelationWrites.UnrelateAll(relation, keyValue)
    {
      ClearIfLoaded();
      w := RelationWrites.UnrelateAll(relation, keyValue);
    }
  }
}
