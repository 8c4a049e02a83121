/** StORM\Repository: how a repository turns entity properties into columns, normalises
    the condition of one(), calls user filters, takes the relation arrays out of an input
    row, maps the update list of syncOne() and syncMany(), and finds the primary keys
    syncMany() returns. The database's answers (lastInsertId, row counts) and the entities
    that nested syncs return are inputs. */
module Repositories {
  import opened Php
  import opened Errors
  import opened Helpers
  import Query
  import Meta
  import Structures
  import Connections
  import InsertResults
  import QueryProps

  /** Repository::DEFAULT_ALIAS */
  const DefaultAlias := "this"
  /** Repository::FILTER_PREFIX */
  const FilterPrefix := "filter"

  // ---------------------------------------------------------------------
  // propertiesToColumns

  /** the key propertiesToColumns() writes one entry under: a known property is renamed
      to its column, unless skipArrays keeps an array value under its property name */
  function ColumnKey(columns: seq<(string, Structures.Column)>, skipArrays: bool, e: (Key, Value)): Key {
    match e.0
    case IntKey(_) => e.0
    case StrKey(name) =>
      match Get(columns, name)
      case None => e.0
      case Some(c) => if skipArrays && e.1.Arr? then e.0 else StrKey(c.name)
  }

  function Renamed(columns: seq<(string, Structures.Column)>, skipArrays: bool, values: seq<(Key, Value)>): (r: seq<(Key, Value)>)
    ensures |r| == |values|
    ensures forall i :: 0 <= i < |values| ==> r[i] == (ColumnKey(columns, skipArrays, values[i]), values[i].1)
  {
    seq(|values|, i requires 0 <= i < |values| => (ColumnKey(columns, skipArrays, values[i]), values[i].1))
  }

  /** `propertiesToColumns($values, $skipArrays)`: every entry written, in order, under its column key */
  function PropertiesToColumns(values: seq<(Key, Value)>, columns: seq<(string, Structures.Column)>,
                               skipArrays: bool): seq<(Key, Value)>
  {
    PutAll([], Renamed(columns, skipArrays, values))
  }

  lemma {:induction false} GetLastOnly<K, V>(a: seq<(K, V)>, i: nat)
    requires i < |a| && forall j :: 0 <= j < |a| && j != i ==> a[j].0 != a[i].0
    ensures GetLast(a, a[i].0) == Some(a[i].1)
    decreases |a|
  {
    if i != |a| - 1 {
      var p := a[..|a| - 1];
      assert p[i] == a[i];
      GetLastOnly(p, i);
    }
  }

  /** The result holds only the renamed keys, and a value whose column key no other entry
      shares is found under that key: a known property under its column name (or, with
      skipArrays, an array under its property name), anything else under its own key. */
  lemma PropertiesToColumnsGet(values: seq<(Key, Value)>, columns: seq<(string, Structures.Column)>,
                               skipArrays: bool, i: nat)
    requires i < |values|
    requires forall j :: 0 <= j < |values| && j != i ==>
               ColumnKey(columns, skipArrays, values[j]) != ColumnKey(columns, skipArrays, values[i])
    ensures var k := ColumnKey(columns, skipArrays, values[i]);
      && Get(PropertiesToColumns(values, columns, skipArrays), k) == Some(values[i].1)
      && (values[i].0.IntKey? || Get(columns, values[i].0.s).None? ==> k == values[i].0)
      && (values[i].0.StrKey? && Get(columns, values[i].0.s).Some? && !(skipArrays && values[i].1.Arr?) ==>
            k == StrKey(Get(columns, values[i].0.s).value.name))
  {
    var r := Renamed(columns, skipArrays, values);
    var k := ColumnKey(columns, skipArrays, values[i]);
    GetPutAll([], r, k);
    assert r[i].0 == k;
    GetLastOnly(r, i);
  }

  lemma PropertiesToColumnsKeys(values: seq<(Key, Value)>, columns: seq<(string, Structures.Column)>,
                                skipArrays: bool, k: Key)
    requires forall j :: 0 <= j < |values| ==> ColumnKey(columns, skipArrays, values[j]) != k
    ensures k !in Keys(PropertiesToColumns(values, columns, skipArrays))
  {
    var r := Renamed(columns, skipArrays, values);
    GetPutAll([], r, k);
    assert k !in Keys(r) by {
      forall j | 0 <= j < |r| ensures Keys(r)[j] != k {
        assert Keys(r)[j] == r[j].0;
      }
    }
  }

  /** the loop of propertiesToColumns() */
  method PropertiesToColumnsLoop(values: seq<(Key, Value)>, columns: seq<(string, Structures.Column)>,
                                 skipArrays: bool) returns (r: seq<(Key, Value)>)
    ensures r == PropertiesToColumns(values, columns, skipArrays)
  {
    ghost var renamed := Renamed(columns, skipArrays, values);
    r := [];
    var i := 0;
    while i < |values|
      invariant 0 <= i <= |values|
      invariant r == PutAll([], renamed[..i])
    {
      var name := values[i].0;
      var value := values[i].1;
      var key := name;
      if name.StrKey? {
        var column := Get(columns, name.s);
        if column.Some? && !(skipArrays && value.Arr?) {
          key := StrKey(column.value.name);
        }
      }
      assert renamed[..i + 1] == renamed[..i] + [(key, value)];
      PutAllSnoc([], renamed[..i], (key, value));
      r := Put(r, key, value);
      i := i + 1;
    }
    assert renamed[..|values|] == renamed;
  }

  // ---------------------------------------------------------------------
  // getDefaultFrom and one()

  /** `getDefaultFrom()`: the table under the alias `this` */
  function DefaultFrom(table: string): seq<(Key, Query.Src)> {
    [(StrKey(DefaultAlias), Query.Text(table))]
  }

  /** A collection whose FROM is the default one has `this` as its alias prefix. */
  lemma DefaultFromPrefix(st: Query.State, table: string)
    requires st.from == DefaultFrom(table)
    ensures Query.GetPrefix(st, true) == Some("this.")
    ensures Query.GetPrefix(st, false) == Some("this")
  {
    assert st.from[0].0 == StrKey("this") && Query.KeyTruthy(StrKey("this"));
    assert "this" + "." == "this." && "this" + "" == "this";
  }

  /** gettype() is 'array', 'string' or 'integer' */
  predicate ValidCondition(condition: Value) {
    condition.Arr? || condition.Str? || condition.Int?
  }

  /** the condition map of one(): a scalar is a primary-key value */
  function ConditionMap(condition: Value, pkName: string): seq<(Key, Value)> {
    if condition.Arr? then condition.entries else [(StrKey(pkName), condition)]
  }

  /** `one($condition, $needed, $select)` up to the fetch: the query of the collection whose
      first row is returned; `many` is the state of the fresh collection many() makes */
  function One(many: Query.State, condition: Value, pkName: string, select: Option<seq<(Key, Query.Src)>>): Query.Out {
    if !ValidCondition(condition) then Query.Out(many, Some(InvalidArgument(BadConditionType)))
    else
      var s := if select.Some? then Query.SetSelect(many, select.value, [], true) else Query.Out(many, None);
      if s.err.Some? then s
      else Query.WhereMatch(s.st, ConditionMap(condition, pkName), DefaultAlias + ".")
  }

  /** A condition that is not an array, a string or an integer is refused before any query
      is built; a scalar one looks the row up by its primary key under `this.`, and an
      array is matched entry by entry under `this.`. */
  lemma OneSpec(many: Query.State, condition: Value, pkName: string)
    ensures !ValidCondition(condition) ==> One(many, condition, pkName, None) == Query.Out(many, Some(InvalidArgument(BadConditionType)))
    ensures condition.Str? || condition.Int? ==> One(many, condition, pkName, None) == Query.Where(many, "this." + pkName, condition)
    ensures condition.Arr? ==> One(many, condition, pkName, None) == Query.WhereMatch(many, condition.entries, "this.")
  {
    assert DefaultAlias + "." == "this.";
    if condition.Str? || condition.Int? {
      var cs := [(StrKey(pkName), condition)];
      assert cs[1..] == [];
      assert KeyString(StrKey(pkName)) == pkName;
      var o := Query.Where(many, "this." + pkName, condition);
      assert Query.WhereMatch(many, cs, "this.") == (if o.err.Some? then o else Query.WhereMatch(o.st, [], "this."));
    }
  }

  // ---------------------------------------------------------------------
  // filter()

  function UpperChar(c: char): char {
    if 'a' <= c <= 'z' then (c as int - 32) as char else c
  }

  /** Strings::firstUpper, on ASCII letters */
  function FirstUpper(s: string): (r: string)
    ensures |r| == |s| && (s != [] ==> r[0] == UpperChar(s[0]) && r[1..] == s[1..])
  {
    if s == [] then s else [UpperChar(s[0])] + s[1..]
  }

  /** the method a filter name calls: `filter` + ucfirst(name) */
  function FilterMethod(name: string): string {
    FilterPrefix + FirstUpper(name)
  }

  /** the filter methods called, each with its value, and the exception that ended the loop */
  datatype Filtered = Filtered(calls: seq<(string, Value)>, err: Option<Error>)

  /** `filter($collection, $filters, $silent)`; `methods` are the repository's method names */
  function Filter(filters: seq<(Key, Value)>, methods: set<string>, silent: bool): Filtered
    decreases |filters|
  {
    if filters == [] then Filtered([], None)
    else
      var rest := Filter(filters[1..], methods, silent);
      match filters[0].0
      case IntKey(_) => rest
      case StrKey(name) =>
        if FilterMethod(name) in methods then Filtered([(FilterMethod(name), filters[0].1)] + rest.calls, rest.err)
        else if silent then rest
        else Filtered([], Some(InvalidArgument(UnknownFilter(FilterMethod(name)))))
  }

  predicate UnknownFilterAt(filters: seq<(Key, Value)>, methods: set<string>, i: int) {
    0 <= i < |filters| && filters[i].0.StrKey? && FilterMethod(filters[i].0.s) !in methods
  }

  /** Filters fail exactly when one of them names no method and the call is not silent. */
  lemma {:induction false} FilterFails(filters: seq<(Key, Value)>, methods: set<string>, silent: bool)
    ensures Filter(filters, methods, silent).err.Some? <==> !silent && exists i :: UnknownFilterAt(filters, methods, i)
    decreases |filters|
  {
    if filters != [] {
      var tail := filters[1..];
      FilterFails(tail, methods, silent);
      var f, rest := Filter(filters, methods, silent), Filter(tail, methods, silent);
      if UnknownFilterAt(filters, methods, 0) {
        assert f.err.Some? <==> !silent || rest.err.Some?;
      } else {
        assert f.err == rest.err;
      }
      if exists i :: UnknownFilterAt(tail, methods, i) {
        var i :| UnknownFilterAt(tail, methods, i);
        assert tail[i] == filters[i + 1];
        assert UnknownFilterAt(filters, methods, i + 1);
      }
      if exists i :: UnknownFilterAt(filters, methods, i) {
        var i :| UnknownFilterAt(filters, methods, i);
        if i > 0 {
          assert tail[i - 1] == filters[i];
          assert UnknownFilterAt(tail, methods, i - 1);
        }
      }
    }
  }

  /** Only existing methods are called, and when no filter fails every string-keyed filter
      whose method exists is called with its value. */
  lemma {:induction false} FilterCalls(filters: seq<(Key, Value)>, methods: set<string>, silent: bool)
    ensures var f := Filter(filters, methods, silent);
      && (forall c :: c in f.calls ==> c.0 in methods)
      && (f.err.None? ==> forall i :: 0 <= i < |filters| && filters[i].0.StrKey? && FilterMethod(filters[i].0.s) in methods ==>
            (FilterMethod(filters[i].0.s), filters[i].1) in f.calls)
    decreases |filters|
  {
    if filters != [] {
      var tail := filters[1..];
      FilterCalls(tail, methods, silent);
      forall i | 1 <= i < |filters| ensures filters[i] == tail[i - 1] { }
    }
  }

  function Prepend(calls: seq<(string, Value)>, f: Filtered): Filtered {
    Filtered(calls + f.calls, f.err)
  }

  /** one iteration of the loop of filter(), on the filters from i on */
  lemma FilterFrom(filters: seq<(Key, Value)>, methods: set<string>, silent: bool, i: nat, calls: seq<(string, Value)>)
    requires i < |filters|
    ensures var k, rest := filters[i].0, Filter(filters[i + 1..], methods, silent);
      Prepend(calls, Filter(filters[i..], methods, silent)) ==
        if k.IntKey? then Prepend(calls, rest)
        else if FilterMethod(k.s) in methods then Prepend(calls + [(FilterMethod(k.s), filters[i].1)], rest)
        else if silent then Prepend(calls, rest)
        else Filtered(calls, Some(InvalidArgument(UnknownFilter(FilterMethod(k.s)))))
  {
    assert filters[i..][1..] == filters[i + 1..];
    assert calls + [] == calls;
  }

  /** the loop of filter() */
  method FilterLoop(filters: seq<(Key, Value)>, methods: set<string>, silent: bool) returns (calls: seq<(string, Value)>, err: Option<Error>)
    ensures Filtered(calls, err) == Filter(filters, methods, silent)
  {
    calls := [];
    err := None;
    var i := 0;
    assert filters[0..] == filters;
    while i < |filters|
      invariant 0 <= i <= |filters|
      invariant Filter(filters, methods, silent) == Prepend(calls, Filter(filters[i..], methods, silent))
    {
      FilterFrom(filters, methods, silent, i, calls);
      var key := filters[i].0;
      if key.StrKey? {
        var realName := FilterMethod(key.s);
        if realName in methods {
          calls := calls + [(realName, filters[i].1)];
        } else if !silent {
          err := Some(InvalidArgument(UnknownFilter(realName)));
          return;
        }
      }
      i := i + 1;
    }
    assert calls + [] == calls;
  }

  // ---------------------------------------------------------------------
  // createRelations

  /** the entity a nested syncOne() of the target repository returns, given the target
      class, the relation's array and whether it updates all columns */
  type Syncer = (string, seq<(Key, Value)>, bool) -> Value

  /** the input row after createRelations(), and the keys of every other relation by name */
  datatype Split = Split(values: seq<(Key, Value)>, joins: seq<(string, seq<Value>)>)

  /** one iteration of createRelations(): an array under a key-holder relation's name is
      replaced by the synced target, one under another relation's name moves out, as a
      list, into the returned map */
  function RelationStep(acc: Split, r: Meta.RelationMeta, sync: bool, syncTarget: Syncer): Split {
    var v := Get(acc.values, StrKey(r.name));
    if v.None? || !v.value.Arr? then acc
    else if r.kind.KeyHolder? then Split(Put(acc.values, StrKey(r.name), syncTarget(r.target, v.value.entries, sync)), acc.joins)
    else Split(Remove(acc.values, StrKey(r.name)), Put(acc.joins, r.name, ValuesOf(v.value.entries)))
  }

  /** `createRelations($values, $sync)` over the structure's relations */
  function CreateRelations(values: seq<(Key, Value)>, rels: seq<Meta.RelationMeta>, sync: bool, syncTarget: Syncer): Split
    decreases |rels|
  {
    if rels == [] then Split(values, [])
    else RelationStep(CreateRelations(values, rels[..|rels| - 1], sync, syncTarget), rels[|rels| - 1], sync, syncTarget)
  }

  predicate Untouched(acc: Split, values: seq<(Key, Value)>, n: string) {
    Get(acc.values, StrKey(n)) == Get(values, StrKey(n)) && Get(acc.joins, n).None?
  }

  /** what createRelations() leaves for relation r of the input row `values` */
  predicate Handled(acc: Split, values: seq<(Key, Value)>, r: Meta.RelationMeta, sync: bool, syncTarget: Syncer) {
    var v := Get(values, StrKey(r.name));
    if v.None? || !v.value.Arr? then Untouched(acc, values, r.name)
    else if r.kind.KeyHolder? then
      Get(acc.values, StrKey(r.name)) == Some(syncTarget(r.target, v.value.entries, sync)) && Get(acc.joins, r.name).None?
    else Get(acc.values, StrKey(r.name)).None? && Get(acc.joins, r.name) == Some(ValuesOf(v.value.entries))
  }

  lemma StepOther(acc: Split, r: Meta.RelationMeta, sync: bool, syncTarget: Syncer, k: Key, n: string)
    requires k != StrKey(r.name) && n != r.name
    ensures Get(RelationStep(acc, r, sync, syncTarget).values, k) == Get(acc.values, k)
    ensures Get(RelationStep(acc, r, sync, syncTarget).joins, n) == Get(acc.joins, n)
  {
    var v := Get(acc.values, StrKey(r.name));
    if v.Some? && v.value.Arr? {
      if r.kind.KeyHolder? {
        GetPut(acc.values, StrKey(r.name), syncTarget(r.target, v.value.entries, sync), k);
      } else {
        GetPut(acc.joins, r.name, ValuesOf(v.value.entries), n);
      }
    }
  }

  lemma StepSelf(acc: Split, values: seq<(Key, Value)>, r: Meta.RelationMeta, sync: bool, syncTarget: Syncer)
    requires Untouched(acc, values, r.name)
    ensures Handled(RelationStep(acc, r, sync, syncTarget), values, r, sync, syncTarget)
  {
    var v := Get(acc.values, StrKey(r.name));
    if v.Some? && v.value.Arr? {
      GetPut(acc.values, StrKey(r.name), syncTarget(r.target, v.value.entries, sync), StrKey(r.name));
      GetPut(acc.joins, r.name, ValuesOf(v.value.entries), r.name);
    }
  }

  predicate DistinctNames(rels: seq<Meta.RelationMeta>) {
    forall a, b :: 0 <= a < b < |rels| ==> rels[a].name != rels[b].name
  }

  lemma {:induction false} CreateRelationsPrefix(values: seq<(Key, Value)>, rels: seq<Meta.RelationMeta>, sync: bool,
                                                 syncTarget: Syncer, i: nat, m: nat)
    requires i < |rels| && m <= |rels| && DistinctNames(rels)
    ensures m <= i ==> Untouched(CreateRelations(values, rels[..m], sync, syncTarget), values, rels[i].name)
    ensures m > i ==> Handled(CreateRelations(values, rels[..m], sync, syncTarget), values, rels[i], sync, syncTarget)
  {
    if m > 0 {
      var p := rels[..m - 1];
      assert rels[..m][..m - 1] == p && rels[..m][m - 1] == rels[m - 1];
      CreateRelationsPrefix(values, rels, sync, syncTarget, i, m - 1);
      var acc := CreateRelations(values, p, sync, syncTarget);
      var next := CreateRelations(values, rels[..m], sync, syncTarget);
      assert next == RelationStep(acc, rels[m - 1], sync, syncTarget);
      if m - 1 == i {
        StepSelf(acc, values, rels[i], sync, syncTarget);
      } else {
        assert rels[m - 1].name != rels[i].name;
        StepOther(acc, rels[m - 1], sync, syncTarget, StrKey(rels[i].name), rels[i].name);
      }
    }
  }

  /** Among relations with distinct names, an array under a key-holder relation's name is
      replaced by the target entity its own sync returns; an array under another relation's
      name leaves the row and its values, as a list, are returned under that name; a
      relation without an array under its name changes nothing. */
  lemma CreateRelationsSpec(values: seq<(Key, Value)>, rels: seq<Meta.RelationMeta>, sync: bool, syncTarget: Syncer, i: nat)
    requires i < |rels| && DistinctNames(rels)
    ensures Handled(CreateRelations(values, rels, sync, syncTarget), values, rels[i], sync, syncTarget)
  {
    CreateRelationsPrefix(values, rels, sync, syncTarget, i, |rels|);
    assert rels[..|rels|] == rels;
  }

  /** Keys that name no relation keep their values, and only relation names are returned. */
  lemma {:induction false} CreateRelationsOthers(values: seq<(Key, Value)>, rels: seq<Meta.RelationMeta>, sync: bool,
                                                 syncTarget: Syncer, k: Key, n: string)
    requires forall j :: 0 <= j < |rels| ==> k != StrKey(rels[j].name) && n != rels[j].name
    ensures Get(CreateRelations(values, rels, sync, syncTarget).values, k) == Get(values, k)
    ensures Get(CreateRelations(values, rels, sync, syncTarget).joins, n).None?
    decreases |rels|
  {
    if rels != [] {
      var p := rels[..|rels| - 1];
      CreateRelationsOthers(values, p, sync, syncTarget, k, n);
      StepOther(CreateRelations(values, p, sync, syncTarget), rels[|rels| - 1], sync, syncTarget, k, n);
    }
  }

  /** the loop of createRelations() */
  method CreateRelationsLoop(values: seq<(Key, Value)>, rels: seq<Meta.RelationMeta>, sync: bool, syncTarget: Syncer)
    returns (row: seq<(Key, Value)>, joinRelations: seq<(string, seq<Value>)>)
    ensures Split(row, joinRelations) == CreateRelations(values, rels, sync, syncTarget)
  {
    row, joinRelations := values, [];
    var i := 0;
    while i < |rels|
      invariant 0 <= i <= |rels|
      invariant Split(row, joinRelations) == CreateRelations(values, rels[..i], sync, syncTarget)
    {
      assert rels[..i + 1][..i] == rels[..i];
      var r := rels[i];
      var v := Get(row, StrKey(r.name));
      if v.Some? && v.value.Arr? {
        if r.kind.KeyHolder? {
          row := Put(row, StrKey(r.name), syncTarget(r.target, v.value.entries, sync));
        } else {
          joinRelations := Put(joinRelations, r.name, ValuesOf(v.value.entries));
          row := Remove(row, StrKey(r.name));
        }
      }
      i := i + 1;
    }
    assert rels[..|rels|] == rels;
  }

  // ---------------------------------------------------------------------
  // syncOne(): the update list

  type UpdateList = seq<(Key, Connections.Update)>

  /** the update list after the loop, and the relations it named (`$updateRelations`) */
  datatype Mapped = Mapped(props: UpdateList, relations: seq<(string, string)>)

  /** One iteration of syncOne()'s update-list loop. A Literal is skipped; a relation name
      is moved to the relations and its entry removed, under its key (`byKey`) or, as
      written, under the name itself; an unknown name fails; any other name becomes the
      column's name. */
  function UpdateStep(acc: Result<Mapped>, e: (Key, Connections.Update), joins: seq<(string, seq<Value>)>,
                      columns: seq<(string, Structures.Column)>, byKey: bool): Result<Mapped>
  {
    if acc.Err? || e.1.Lit? then acc
    else
      var name := e.1.name;
      if Get(joins, name).Some? then
        Ok(Mapped(Remove(acc.value.props, if byKey then e.0 else NormKey(name)), Put(acc.value.relations, name, name)))
      else
        match Get(columns, name)
        case None => Err(NotExists(Property, name))
        case Some(c) => Ok(Mapped(Put(acc.value.props, e.0, Connections.Column(c.name)), acc.value.relations))
  }

  /** the loop over the entries `es`, working on a copy of `props` as PHP's foreach does */
  function UpdatesOver(props: UpdateList, es: UpdateList, joins: seq<(string, seq<Value>)>,
                       columns: seq<(string, Structures.Column)>, byKey: bool): Result<Mapped>
    decreases |es|
  {
    if es == [] then Ok(Mapped(props, []))
    else UpdateStep(UpdatesOver(props, es[..|es| - 1], joins, columns, byKey), es[|es| - 1], joins, columns, byKey)
  }

  /** syncOne()'s loop as written: a relation name is unset under the name (`unset($updateProps[$name])`) */
  function UpdatePropsAsWritten(props: UpdateList, joins: seq<(string, seq<Value>)>,
                                columns: seq<(string, Structures.Column)>): Result<Mapped>
  {
    UpdatesOver(props, props, joins, columns, false)
  }

  /** syncOne()'s loop as intended: a relation name's entry is unset under its key */
  function UpdateProps(props: UpdateList, joins: seq<(string, seq<Value>)>,
                       columns: seq<(string, Structures.Column)>): Result<Mapped>
  {
    UpdatesOver(props, props, joins, columns, true)
  }

  /** an entry that names neither a relation of the row nor a column */
  predicate UnknownProp(u: Connections.Update, joins: seq<(string, seq<Value>)>, columns: seq<(string, Structures.Column)>) {
    u.Column? && Get(joins, u.name).None? && Get(columns, u.name).None?
  }

  /** what the loop leaves for one entry e of the original list */
  predicate MappedEntry(m: Mapped, e: (Key, Connections.Update), joins: seq<(string, seq<Value>)>,
                        columns: seq<(string, Structures.Column)>)
  {
    match e.1
    case Lit(_) => Get(m.props, e.0) == Some(e.1)
    case Column(n) =>
      if Get(joins, n).Some? then Get(m.props, e.0).None? && Get(m.relations, n) == Some(n)
      else Get(columns, n).Some? && Get(m.props, e.0) == Some(Connections.Column(Get(columns, n).value.name))
  }

  /** the loop's invariant after n entries, when no entry has failed */
  predicate OkInv(props: UpdateList, n: nat, m: Mapped, joins: seq<(string, seq<Value>)>,
                  columns: seq<(string, Structures.Column)>)
    requires n <= |props|
  {
    && (forall j :: 0 <= j < n ==> MappedEntry(m, props[j], joins, columns))
    && (forall j :: n <= j < |props| ==> Get(m.props, props[j].0) == Some(props[j].1))
    && (forall k :: k in Keys(m.props) ==> k in Keys(props))
  }

  predicate UpdatesInv(props: UpdateList, n: nat, r: Result<Mapped>, joins: seq<(string, seq<Value>)>,
                       columns: seq<(string, Structures.Column)>)
    requires n <= |props|
  {
    && (r.Err? <==> exists j :: 0 <= j < n && UnknownProp(props[j].1, joins, columns))
    && (r.Ok? ==> OkInv(props, n, r.value, joins, columns))
  }

  lemma NoneEmpty<T>(s: seq<T>)
    requires forall x :: x !in s
    ensures s == []
  {
    var m := multiset(s);
    assert |m| == |s|;
    forall x ensures m[x] == 0 { assert x !in s; }
    assert m == multiset{};
  }

  lemma KeysDiffer<K, V>(a: seq<(K, V)>, i: int, j: int)
    requires UniqueKeys(a) && 0 <= i < |a| && 0 <= j < |a| && i != j
    ensures a[i].0 != a[j].0
  {
    assert Keys(a)[i] == a[i].0 && Keys(a)[j] == a[j].0;
  }

  lemma StepRelation(props: UpdateList, n: nat, m: Mapped, joins: seq<(string, seq<Value>)>,
                     columns: seq<(string, Structures.Column)>)
    requires n < |props| && UniqueKeys(props) && props[n].1.Column? && Get(joins, props[n].1.name).Some?
    requires OkInv(props, n, m, joins, columns)
    ensures OkInv(props, n + 1, Mapped(Remove(m.props, props[n].0), Put(m.relations, props[n].1.name, props[n].1.name)), joins, columns)
  {
    var e := props[n];
    var m' := Mapped(Remove(m.props, e.0), Put(m.relations, e.1.name, e.1.name));
    forall j | 0 <= j < |props| && j != n ensures Get(m'.props, props[j].0) == Get(m.props, props[j].0) {
      KeysDiffer(props, j, n);
    }
    forall j | 0 <= j < n ensures MappedEntry(m', props[j], joins, columns) {
      if props[j].1.Column? {
        GetPut(m.relations, e.1.name, e.1.name, props[j].1.name);
      }
    }
    GetPut(m.relations, e.1.name, e.1.name, e.1.name);
  }

  lemma StepColumn(props: UpdateList, n: nat, m: Mapped, joins: seq<(string, seq<Value>)>,
                   columns: seq<(string, Structures.Column)>)
    requires n < |props| && UniqueKeys(props) && props[n].1.Column? && Get(joins, props[n].1.name).None?
    requires Get(columns, props[n].1.name).Some?
    requires OkInv(props, n, m, joins, columns)
    ensures OkInv(props, n + 1, Mapped(Put(m.props, props[n].0, Connections.Column(Get(columns, props[n].1.name).value.name)),
                                        m.relations), joins, columns)
  {
    var e := props[n];
    var u := Connections.Column(Get(columns, e.1.name).value.name);
    var q := Put(m.props, e.0, u);
    var m' := Mapped(q, m.relations);
    forall j | 0 <= j < |props| && j != n ensures Get(q, props[j].0) == Get(m.props, props[j].0) {
      KeysDiffer(props, j, n);
      GetPut(m.props, e.0, u, props[j].0);
    }
    forall j | 0 <= j < n ensures MappedEntry(m', props[j], joins, columns) {
      assert MappedEntry(m, props[j], joins, columns);
    }
    GetPut(m.props, e.0, u, e.0);
    assert MappedEntry(m', e, joins, columns);
    forall j | n + 1 <= j < |props| ensures Get(q, props[j].0) == Some(props[j].1) {
      assert Get(m.props, props[j].0) == Some(props[j].1);
    }
    PutKeys(m.props, e.0, u);
    assert e.0 in Keys(props) by { assert Keys(props)[n] == e.0; }
  }

  lemma UpdatesStep(props: UpdateList, n: nat, r: Result<Mapped>, joins: seq<(string, seq<Value>)>,
                    columns: seq<(string, Structures.Column)>)
    requires 0 < n <= |props| && UniqueKeys(props) && UpdatesInv(props, n - 1, r, joins, columns)
    ensures UpdatesInv(props, n, UpdateStep(r, props[n - 1], joins, columns, true), joins, columns)
  {
    var e := props[n - 1];
    if r.Err? {
    } else if e.1.Lit? {
    } else if Get(joins, e.1.name).Some? {
      StepRelation(props, n - 1, r.value, joins, columns);
    } else if Get(columns, e.1.name).Some? {
      StepColumn(props, n - 1, r.value, joins, columns);
    } else {
      assert UnknownProp(props[n - 1].1, joins, columns);
    }
  }

  /** before the first entry nothing is mapped and the list is the caller's */
  lemma UpdatesStart(props: UpdateList, joins: seq<(string, seq<Value>)>, columns: seq<(string, Structures.Column)>)
    requires UniqueKeys(props)
    ensures UpdatesInv(props, 0, UpdatesOver(props, props[..0], joins, columns, true), joins, columns)
  {
    assert props[..0] == [];
    forall j | 0 <= j < |props| ensures Get(props, props[j].0) == Some(props[j].1) {
      GetUnique(props, j);
    }
  }

  lemma UpdatesOverSnoc(props: UpdateList, n: nat, joins: seq<(string, seq<Value>)>,
                        columns: seq<(string, Structures.Column)>)
    requires 0 < n <= |props|
    ensures UpdatesOver(props, props[..n], joins, columns, true)
         == UpdateStep(UpdatesOver(props, props[..n - 1], joins, columns, true), props[n - 1], joins, columns, true)
  {
    assert props[..n][..n - 1] == props[..n - 1];
  }

  lemma {:induction false} UpdatesPrefix(props: UpdateList, n: nat, joins: seq<(string, seq<Value>)>,
                                         columns: seq<(string, Structures.Column)>)
    requires n <= |props| && UniqueKeys(props)
    ensures UpdatesInv(props, n, UpdatesOver(props, props[..n], joins, columns, true), joins, columns)
  {
    if n == 0 {
      UpdatesStart(props, joins, columns);
    } else {
      UpdatesPrefix(props, n - 1, joins, columns);
      UpdatesStep(props, n, UpdatesOver(props, props[..n - 1], joins, columns, true), joins, columns);
      UpdatesOverSnoc(props, n, joins, columns);
    }
  }

  /** The update list fails exactly when an entry names neither a relation nor a column.
      Otherwise every Literal stays under its key, every relation name leaves the list and
      is recorded in the relations, every other name becomes its column's name under its
      key, and no key is added. */
  lemma UpdatePropsSpec(props: UpdateList, joins: seq<(string, seq<Value>)>, columns: seq<(string, Structures.Column)>)
    requires UniqueKeys(props)
    ensures var r := UpdateProps(props, joins, columns);
      && (r.Err? <==> exists j :: 0 <= j < |props| && UnknownProp(props[j].1, joins, columns))
      && (r.Ok? ==> forall j :: 0 <= j < |props| ==> MappedEntry(r.value, props[j], joins, columns))
      && (r.Ok? ==> forall k :: k in Keys(r.value.props) ==> k in Keys(props))
  {
    UpdatesPrefix(props, |props|, joins, columns);
    assert props[..|props|] == props;
  }

  /** An update list that names only relations of the row leaves nothing to update. */
  lemma UpdatePropsOnlyRelations(props: UpdateList, joins: seq<(string, seq<Value>)>, columns: seq<(string, Structures.Column)>)
    requires UniqueKeys(props)
    requires forall j :: 0 <= j < |props| ==> props[j].1.Column? && Get(joins, props[j].1.name).Some?
    ensures UpdateProps(props, joins, columns).Ok? && UpdateProps(props, joins, columns).value.props == []
  {
    UpdatePropsSpec(props, joins, columns);
    var r := UpdateProps(props, joins, columns);
    assert r.Ok? by {
      forall j | 0 <= j < |props| ensures !UnknownProp(props[j].1, joins, columns) { }
    }
    var q := r.value.props;
    forall k | k in Keys(props) ensures k !in Keys(q) {
      var j :| 0 <= j < |props| && Keys(props)[j] == k;
      assert MappedEntry(r.value, props[j], joins, columns);
    }
    forall k ensures k !in Keys(q) { }
    NoneEmpty(Keys(q));
  }

  /** As written, the relation name stays in a list such as `['tags']` (its key is 0, not
      'tags'); under its key it is removed. */
  lemma UpdatePropsAsWrittenKeepsRelation()
    ensures var props := [(IntKey(0), Connections.Column("tags"))];
      var joins := [("tags", [Str("t1")])];
      && UpdatePropsAsWritten(props, joins, []) == Ok(Mapped(props, [("tags", "tags")]))
      && UpdateProps(props, joins, []) == Ok(Mapped([], [("tags", "tags")]))
  {
    var props := [(IntKey(0), Connections.Column("tags"))];
    var joins := [("tags", [Str("t1")])];
    assert props[..0] == [];
    assert NormKey("tags") == StrKey("tags") by {
      assert StringIntVal("tags") == 0;
      assert IntToString(0) == "0";
    }
    assert Remove(props, StrKey("tags")) == props;
    assert Remove(props, IntKey(0)) == [];
    assert UpdatesOver(props, [], joins, [], false) == Ok(Mapped(props, []));
  }

  /** The entry left behind reaches the ON DUPLICATE KEY UPDATE clause as a column of the
      table; with the entry removed and nothing left to update, no such clause is written. */
  lemma RelationReachesDuplicateUpdate()
    ensures Connections.DuplicatePart(Some([(IntKey(0), Connections.Column("tags"))]), [], None, true)
              == " ON DUPLICATE KEY UPDATE tags=VALUES(tags)"
    ensures Connections.DuplicatePart(Some([]), [], None, true) == ""
  {
    var props := [(IntKey(0), Connections.Column("tags"))];
    var us := Connections.Assignments(props, None, true);
    assert us == [Connections.Assignment(IntKey(0), Connections.Column("tags"), None, true)];
    assert Implode(",", us) == us[0];
  }

  /** `$ignore ?? !$updateProps`: without an explicit flag the insert ignores duplicates
      when there is no update list or it is empty */
  function SyncIgnore(ignore: Option<bool>, updates: Option<UpdateList>): bool {
    if ignore.Some? then ignore.value else updates.None? || updates.value == []
  }

  /** what syncOne() sends to the database and keeps for after the insert */
  datatype SyncPlan = SyncPlan(insert: Connections.Insert, values: seq<(Key, Value)>,
                               joins: seq<(string, seq<Value>)>, updates: Option<UpdateList>,
                               relations: seq<(string, string)>)

  /** the mapped update list: the loop runs only on a non-empty list */
  function SyncUpdates(updateProps: Option<UpdateList>, joins: seq<(string, seq<Value>)>,
                       columns: seq<(string, Structures.Column)>): Result<(Option<UpdateList>, seq<(string, string)>)>
  {
    if updateProps.None? || updateProps.value == [] then Ok((updateProps, []))
    else
      match UpdateProps(updateProps.value, joins, columns)
      case Err(e) => Err(e)
      case Ok(m) => Ok((Some(m.props), m.relations))
  }

  /** the row syncOne() inserts and the input row, once a missing non-auto-increment primary
      key is generated; `generated` is the generator's answer */
  function WithPrimaryKey(insert: seq<(Key, Value)>, values: seq<(Key, Value)>, pk: Structures.Column,
                          autoincrement: Option<bool>, generated: Option<Value>): Result<(seq<(Key, Value)>, seq<(Key, Value)>)>
  {
    if Connections.IsSet(insert, pk.name) || autoincrement == Some(true) then Ok((insert, values))
    else
      match Connections.GeneratePrimaryKey(generated)
      case Err(e) => Err(e)
      case Ok(k) =>
        if Connections.TruthyString(k)
        then Ok((Put(insert, NormKey(pk.name), Str(k.value)), Put(values, NormKey(pk.property), Str(k.value))))
        else Ok((insert, values))
  }

  /** `syncOne($values, $updateProps, $filterByColumns, $ignore)` up to the query */
  function SyncOnePlan(s: Structures.Structure, autoincrement: Option<bool>, values: seq<(Key, Value)>,
                       updateProps: Option<UpdateList>, filterByColumns: Option<bool>, ignore: Option<bool>,
                       syncTarget: Syncer, generated: Option<Value>): Result<SyncPlan>
  {
    var split := CreateRelations(values, ValuesOf(s.relations), updateProps.None?, syncTarget);
    var filtered := if filterByColumns.Some? then FilterInputArray(split.values, Keys(s.columns), filterByColumns.value)
                    else Ok(split.values);
    if filtered.Err? then Err(filtered.error)
    else
      var insert := PropertiesToColumns(filtered.value, s.columns, false);
      match SyncUpdates(updateProps, split.joins, s.columns)
      case Err(e) => Err(e)
      case Ok(u) =>
        match WithPrimaryKey(insert, filtered.value, s.pk, autoincrement, generated)
        case Err(e) => Err(e)
        case Ok(rows) =>
          match Connections.SqlInsert(s.table, [Query.StringKeyed(rows.0)], u.0, SyncIgnore(ignore, u.0), None, true)
          case Err(e) => Err(e)
          case Ok(sql) => Ok(SyncPlan(sql, rows.1, split.joins, u.0, u.1))
  }

  /** With an update list that names only relations of the row, syncOne() inserts with
      IGNORE and writes no ON DUPLICATE KEY UPDATE clause, unless told otherwise. */
  lemma SyncUpdatesOnlyRelations(props: UpdateList, joins: seq<(string, seq<Value>)>, columns: seq<(string, Structures.Column)>)
    requires UniqueKeys(props) && props != []
    requires forall j :: 0 <= j < |props| ==> props[j].1.Column? && Get(joins, props[j].1.name).Some?
    ensures var r := SyncUpdates(Some(props), joins, columns);
      && r.Ok? && r.value.0 == Some([]) && SyncIgnore(None, r.value.0)
      && !Connections.WantsUpdate(r.value.0)
  {
    UpdatePropsOnlyRelations(props, joins, columns);
  }

  /** `$values[$pk]` after the insert: lastInsertId when the key was not given and it is
      auto-increment, or may be and the id moved */
  function PkAfterInsert(values: seq<(Key, Value)>, pkProperty: string, autoincrement: Option<bool>,
                         beforeId: int, afterId: int): seq<(Key, Value)>
  {
    if !Connections.IsSet(values, pkProperty) && (autoincrement == Some(true) || (autoincrement.None? && beforeId != afterId))
    then Put(values, NormKey(pkProperty), Int(afterId))
    else values
  }

  /** After the insert an auto-increment entity always knows its key: the given one, or
      the id the insert used; nothing else in the row changes. */
  lemma PkAfterInsertSpec(values: seq<(Key, Value)>, pkProperty: string, autoincrement: Option<bool>,
                          beforeId: int, afterId: int, k: Key)
    ensures autoincrement == Some(true) ==> Connections.IsSet(PkAfterInsert(values, pkProperty, autoincrement, beforeId, afterId), pkProperty)
    ensures Connections.IsSet(values, pkProperty) ==> PkAfterInsert(values, pkProperty, autoincrement, beforeId, afterId) == values
    ensures autoincrement == Some(false) ==> PkAfterInsert(values, pkProperty, autoincrement, beforeId, afterId) == values
    ensures k != NormKey(pkProperty) ==> Get(PkAfterInsert(values, pkProperty, autoincrement, beforeId, afterId), k) == Get(values, k)
  {
    GetPut(values, NormKey(pkProperty), Int(afterId), k);
    GetPut(values, NormKey(pkProperty), Int(afterId), NormKey(pkProperty));
  }

  /** the relations syncOne() relates again after the insert: every one when the row was
      inserted or all columns are updated, else only those the update list named */
  function Resynced(joins: seq<(string, seq<Value>)>, rowCount: int, allColumns: bool,
                    relations: seq<(string, string)>): seq<(string, seq<Value>)>
    decreases |joins|
  {
    if joins == [] then []
    else
      var rest := Resynced(joins[1..], rowCount, allColumns, relations);
      if rowCount == InsertAffectedCount || allColumns || Get(relations, joins[0].0).Some? then [joins[0]] + rest else rest
  }

  /** InsertResult::INSERT_AFFECTED_COUNT */
  const InsertAffectedCount := 1

  lemma {:induction false} ResyncedSpec(joins: seq<(string, seq<Value>)>, rowCount: int, allColumns: bool,
                                        relations: seq<(string, string)>, e: (string, seq<Value>))
    ensures e in Resynced(joins, rowCount, allColumns, relations) <==>
              e in joins && (rowCount == InsertAffectedCount || allColumns || Get(relations, e.0).Some?)
    decreases |joins|
  {
    if joins != [] {
      ResyncedSpec(joins[1..], rowCount, allColumns, relations, e);
      MemberCons(e, joins);
    }
  }

  // ---------------------------------------------------------------------
  // syncMany()

  /** the error syncMany()'s update-list loop raises for an entry, if any: a Literal is no
      valid array offset, and an unknown name fails */
  function ManyError(u: Connections.Update, columns: seq<(string, Structures.Column)>): Option<Error> {
    match u
    case Lit(_) => Some(TypeError)
    case Column(n) => if Get(columns, n).None? then Some(NotExists(Property, n)) else None
  }

  lemma PutAt<K, V>(a: seq<(K, V)>, i: nat, v: V)
    requires UniqueKeys(a) && i < |a|
    ensures Put(a, a[i].0, v) == a[i := (a[i].0, v)]
    decreases i
  {
    if i > 0 {
      KeysDiffer(a, 0, i);
      assert UniqueKeys(a[1..]) by {
        forall x, y | 0 <= x < y < |a[1..]| ensures Keys(a[1..])[x] != Keys(a[1..])[y] {
          KeysDiffer(a, x + 1, y + 1);
        }
      }
      assert a[1..][i - 1] == a[i];
      PutAt(a[1..], i - 1, v);
      assert a[1..][i - 1 := (a[i].0, v)] == a[i := (a[i].0, v)][1..];
    }
  }

  /** writing at the key of the i-th entry, in a copy with the same keys, replaces that entry */
  lemma ManyStep(props: UpdateList, updated: UpdateList, i: nat, v: Connections.Update)
    requires UniqueKeys(props) && i < |props| && |updated| == |props| && Keys(updated) == Keys(props)
    ensures Put(updated, props[i].0, v) == updated[i := (props[i].0, v)]
    ensures Keys(updated[i := (props[i].0, v)]) == Keys(props)
  {
    assert updated[i].0 == Keys(updated)[i] == props[i].0;
    PutAt(updated, i, v);
    var u := updated[i := (props[i].0, v)];
    forall j | 0 <= j < |props| ensures Keys(u)[j] == Keys(props)[j] {
      assert Keys(updated)[j] == updated[j].0;
    }
  }

  /** syncMany()'s update-list loop: every name becomes its column's name, in place */
  method SyncManyUpdates(props: UpdateList, columns: seq<(string, Structures.Column)>) returns (r: Result<UpdateList>)
    requires UniqueKeys(props)
    ensures r.Err? <==> exists i :: 0 <= i < |props| && ManyError(props[i].1, columns).Some?
    ensures r.Err? ==> exists i :: 0 <= i < |props| && Some(r.error) == ManyError(props[i].1, columns) &&
                                   forall j :: 0 <= j < i ==> ManyError(props[j].1, columns).None?
    ensures r.Ok? ==> |r.value| == |props| && forall i :: 0 <= i < |props| ==>
              props[i].1.Column? && Get(columns, props[i].1.name).Some? &&
              r.value[i] == (props[i].0, Connections.Column(Get(columns, props[i].1.name).value.name))
  {
    var updated := props;
    var i := 0;
    while i < |props|
      invariant 0 <= i <= |props| && |updated| == |props|
      invariant forall j :: 0 <= j < i ==> ManyError(props[j].1, columns).None?
      invariant forall j :: 0 <= j < i ==>
                  props[j].1.Column? && Get(columns, props[j].1.name).Some? &&
                  updated[j] == (props[j].0, Connections.Column(Get(columns, props[j].1.name).value.name))
      invariant forall j :: i <= j < |props| ==> updated[j] == props[j]
      invariant Keys(updated) == Keys(props)
    {
      var e := props[i];
      var err := ManyError(e.1, columns);
      if err.Some? {
        return Err(err.value);
      }
      var column := Get(columns, e.1.name).value;
      ManyStep(props, updated, i, Connections.Column(column.name));
      updated := Put(updated, e.0, Connections.Column(column.name));
      i := i + 1;
    }
    return Ok(updated);
  }

  /** the database's answers for one chunk of syncMany(): the primary keys its rows carried,
      the rows the insert affected, and lastInsertId before and after it */
  datatype Chunk = Chunk(keys: seq<Value>, rowCount: int, beforeId: int, afterId: int)

  /** the keys gathered so far and the affected rows counted so far */
  datatype Gathered = Gathered(keys: seq<Value>, affected: int)

  /** the condition under which a chunk keeps the keys its rows carried rather than
      deriving them from the auto-increment ids */
  predicate KeepsKeys(ignore: bool, updateProps: Option<UpdateList>, autoincrement: Option<bool>, c: Chunk) {
    ignore || updateProps != Some([]) || (autoincrement != Some(true) && (autoincrement.Some? || c.beforeId == c.afterId))
  }

  function ChunkStep(acc: Gathered, c: Chunk, ignore: bool, updateProps: Option<UpdateList>, autoincrement: Option<bool>): Gathered {
    var affected := acc.affected + c.rowCount;
    if KeepsKeys(ignore, updateProps, autoincrement, c) then Gathered(acc.keys + c.keys, affected)
    else Gathered(InsertResults.IntValues(Range(c.afterId - affected, c.afterId - 1)), affected)
  }

  /** the chunk loop of syncMany(), as far as the primary keys are concerned */
  function SyncManyKeys(chunks: seq<Chunk>, ignore: bool, updateProps: Option<UpdateList>, autoincrement: Option<bool>): Gathered
    decreases |chunks|
  {
    if chunks == [] then Gathered([], 0)
    else ChunkStep(SyncManyKeys(chunks[..|chunks| - 1], ignore, updateProps, autoincrement), chunks[|chunks| - 1],
                   ignore, updateProps, autoincrement)
  }

  function Concat(chunks: seq<Chunk>): seq<Value>
    decreases |chunks|
  {
    if chunks == [] then [] else Concat(chunks[..|chunks| - 1]) + chunks[|chunks| - 1].keys
  }

  function TotalRows(chunks: seq<Chunk>): int
    decreases |chunks|
  {
    if chunks == [] then 0 else TotalRows(chunks[..|chunks| - 1]) + chunks[|chunks| - 1].rowCount
  }

  /** syncMany() counts the affected rows of every chunk. */
  lemma {:induction false} SyncManyAffected(chunks: seq<Chunk>, ignore: bool, updateProps: Option<UpdateList>,
                                            autoincrement: Option<bool>)
    ensures SyncManyKeys(chunks, ignore, updateProps, autoincrement).affected == TotalRows(chunks)
    decreases |chunks|
  {
    if chunks != [] {
      SyncManyAffected(chunks[..|chunks| - 1], ignore, updateProps, autoincrement);
    }
  }

  /** When every chunk keeps its keys, the result is the keys the rows carried, in order. */
  lemma {:induction false} SyncManyKept(chunks: seq<Chunk>, ignore: bool, updateProps: Option<UpdateList>,
                                        autoincrement: Option<bool>)
    requires forall i :: 0 <= i < |chunks| ==> KeepsKeys(ignore, updateProps, autoincrement, chunks[i])
    ensures SyncManyKeys(chunks, ignore, updateProps, autoincrement).keys == Concat(chunks)
    decreases |chunks|
  {
    if chunks != [] {
      var p := chunks[..|chunks| - 1];
      assert forall i :: 0 <= i < |p| ==> p[i] == chunks[i];
      SyncManyKept(p, ignore, updateProps, autoincrement);
    }
  }

  /** When the last chunk derives the keys, they are the ids lastInsertId - affected ..
      lastInsertId - 1, with the rows of all chunks counted. */
  lemma SyncManyDerived(chunks: seq<Chunk>, ignore: bool, updateProps: Option<UpdateList>, autoincrement: Option<bool>)
    requires chunks != [] && !KeepsKeys(ignore, updateProps, autoincrement, chunks[|chunks| - 1])
    ensures var last := chunks[|chunks| - 1];
      SyncManyKeys(chunks, ignore, updateProps, autoincrement).keys ==
        InsertResults.IntValues(Range(last.afterId - TotalRows(chunks), last.afterId - 1))
  {
    SyncManyAffected(chunks, ignore, updateProps, autoincrement);
  }

  /** the collection syncMany() returns: the rows with the gathered keys, or none at all */
  function SyncManyCollection(many: Query.State, pkName: string, keys: seq<Value>): Query.Out {
    if keys != [] then Query.SetWhere(many, Some(DefaultAlias + "." + pkName), Arr(Query.AsList(keys)))
    else Query.SetWhere(many, Some("1=0"), Null)
  }

  /** Without keys the collection is filtered by `(1=0)` alone and binds nothing: only the
      binders of other clauses remain. */
  lemma SyncManyCollectionEmpty(many: Query.State, pkName: string)
    requires !many.loaded
    ensures var o := SyncManyCollection(many, pkName, []);
      o.err.None? && o.st.where == ["(1=0)"] && o.st.vars == Query.RemoveVars(many, Query.WhereClause).vars
  {
    assert "(" + "1=0" + ")" == "(1=0)" by {
      var t := "(" + "1=0" + ")";
      assert |t| == 5 && t[0] == '(' && t[1] == '1' && t[2] == '=' && t[3] == '0' && t[4] == ')';
    }
    var o := Query.ProcessWhere(many, "1=0", Null, false, true);
    QueryProps.ProcessWhereNull(many, "1=0", false, true);
    assert SyncManyCollection(many, pkName, []) == o;
    assert o.st.where == [] + ["(" + "1=0" + ")"];
  }
}
