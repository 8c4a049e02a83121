/** UnionCollection: several collections read as one `(…) UNION (…)` query. The union keeps
    its own ORDER BY, LIMIT and OFFSET and its own binders; the WHERE family is handed on
    unchanged to every sub-collection. The functions of this module say what each operation
    does to the union's state; the class holds that state in fields and each of its methods
    is proved to leave the object in the state the matching function gives. */
module Unions {
  import opened Php
  import opened Errors
  import opened Helpers
  import Query
  import QueryProps

  /** the union's state: the sub-collections, the binder table, its own modifiers and
      whether items were loaded. ORDER BY is `None` until setOrderBy stores a list: the
      constructor leaves the modifier array empty. */
  datatype UState = UState(
    parts: seq<Query.State>,
    vars: seq<(string, Value)>,
    varsFlags: seq<(string, set<Query.Clause>)>,
    orderBy: Option<seq<(Key, Query.Src)>>,
    limit: Option<int>,
    offset: Option<int>,
    loaded: bool)

  /** the state after an operation, and the exception it threw if any */
  datatype UOut = UOut(u: UState, err: Option<Error>)

  /** `__construct($collections, …)`: no modifier and no binder yet */
  function Fresh(parts: seq<Query.State>): UState {
    UState(parts, [], [], None, None, None, false)
  }

  /** the union's modifier setters start with `if ($this->isLoaded()) throw …` */
  function Guard(u: UState, body: UOut): UOut {
    if u.loaded then UOut(u, Some(Loaded)) else body
  }

  // ---------------------------------------------------------------------
  // Binders

  function Flags(u: UState, name: string): set<Query.Clause> {
    match Get(u.varsFlags, name)
    case Some(f) => f
    case None => {}
  }

  /** isset($this->vars[$name]) is false */
  predicate Free(u: UState, name: string) {
    var cur := Get(u.vars, name);
    cur.None? || cur.value == Null
  }

  /** `bindVar($name, $value, $flag)` */
  function BindVar(u: UState, name: string, v: Value, c: Query.Clause): UOut {
    if !Free(u, name) then UOut(u, Some(AlreadyExists(BindVarExists, name)))
    else UOut(u.(vars := Put(u.vars, name, v), varsFlags := Put(u.varsFlags, name, Flags(u, name) + {c})), None)
  }

  /** `foreach ($values as $k => $v) $this->bindVar($k, $v, $flag)` */
  function BindAll(u: UState, values: seq<(string, Value)>, c: Query.Clause): UOut
    decreases |values|
  {
    if values == [] then UOut(u, None)
    else
      var o := BindVar(u, values[0].0, values[0].1, c);
      if o.err.Some? then o else BindAll(o.u, values[1..], c)
  }

  /** `removeVars($flag)`: clear the bit and unset the binders left with none */
  function RemoveVars(u: UState, c: Query.Clause): UState {
    u.(varsFlags := Query.StripFlag(u.varsFlags, c), vars := RemoveKeys(u.vars, Query.DeadNames(u.varsFlags, c)))
  }

  // ---------------------------------------------------------------------
  // The union's own modifiers

  /** `setTake($number)` */
  function SetTake(u: UState, n: Option<int>): UOut {
    Guard(u, UOut(u.(limit := n), None))
  }

  /** `setSkip($number)` */
  function SetSkip(u: UState, n: Option<int>): UOut {
    Guard(u, UOut(u.(offset := n), None))
  }

  /** `setPage($page, $onPage)`: setSkip then setTake */
  function SetPage(u: UState, page: int, onPage: int): UOut {
    Guard(u,
      var o := SetSkip(u, Some((page - 1) * onPage));
      if o.err.Some? then o else SetTake(o.u, Some(onPage)))
  }

  /** `setOrderBy($order, $values)`: store the list, drop the ORDER BY binders, bind anew */
  function SetOrderBy(u: UState, order: seq<(Key, Query.Src)>, values: seq<(string, Value)>): UOut {
    Guard(u, BindAll(RemoveVars(u.(orderBy := Some(order)), Query.OrderByClause), values, Query.OrderByClause))
  }

  /** `orderBy($order, $values)` as written: array_merge on the never-initialised ORDER BY
      modifier is given null and raises PHP's TypeError */
  function OrderByAsWritten(u: UState, order: seq<(Key, Query.Src)>, values: seq<(string, Value)>): UOut {
    Guard(u,
      if u.orderBy.None? then UOut(u, Some(TypeError))
      else BindAll(u.(orderBy := Some(Merge(u.orderBy.value, order))), values, Query.OrderByClause))
  }

  /** the ORDER BY list createSqlSuffix reads; an unset modifier reads as null, which
      createSqlClauseString renders as nothing */
  function OrderList(u: UState): seq<(Key, Query.Src)> {
    if u.orderBy.None? then [] else u.orderBy.value
  }

  /** `orderBy($order, $values)` with the modifier starting as an empty list */
  function OrderBy(u: UState, order: seq<(Key, Query.Src)>, values: seq<(string, Value)>): UOut {
    Guard(u, BindAll(u.(orderBy := Some(Merge(OrderList(u), order))), values, Query.OrderByClause))
  }

  /** the guard of fetch() */
  function FetchGuard(u: UState): Option<Error> {
    if u.loaded then Some(Loaded) else None
  }

  // ---------------------------------------------------------------------
  // The WHERE family, handed on to every sub-collection

  /** the parts after applying f to each in turn, and the first exception; the
      sub-collections before the throwing one keep their new state, the throwing one
      its state at the throw, the rest are untouched */
  function Forward(parts: seq<Query.State>, f: Query.State -> Query.Out): (r: (seq<Query.State>, Option<Error>))
    ensures |r.0| == |parts|
    decreases |parts|
  {
    if parts == [] then ([], None)
    else
      var o := f(parts[0]);
      if o.err.Some? then ([o.st] + parts[1..], o.err)
      else
        var rest := Forward(parts[1..], f);
        ([o.st] + rest.0, rest.1)
  }

  function ForwardAll(u: UState, f: Query.State -> Query.Out): UOut {
    var r := Forward(u.parts, f);
    UOut(u.(parts := r.0), r.1)
  }

  /** `setWhere($expression, $values)` on every sub-collection */
  function SetWhere(u: UState, e: Option<string>, values: Value): UOut {
    ForwardAll(u, s => Query.SetWhere(s, e, values))
  }

  /** `where($expression, $values)` on every sub-collection */
  function Where(u: UState, e: string, values: Value): UOut {
    ForwardAll(u, s => Query.Where(s, e, values))
  }

  /** `whereMatch($conditions, $columnPrefix)` on every sub-collection */
  function WhereMatch(u: UState, conditions: seq<(Key, Value)>, prefix: string): UOut {
    ForwardAll(u, s => Query.WhereMatch(s, conditions, prefix))
  }

  /** `whereBetween(…)` on every sub-collection */
  function WhereBetween(u: UState, e: string, lo: Value, hi: Value, loEquals: bool, hiEquals: bool): UOut {
    ForwardAll(u, s => Query.WhereBetween(s, e, lo, hi, loEquals, hiEquals))
  }

  /** `setWhereNot($expression, $values)` on every sub-collection */
  function SetWhereNot(u: UState, e: string, values: Value): UOut {
    ForwardAll(u, s => Query.SetWhereNot(s, e, values))
  }

  /** `whereNot($expression, $values)` on every sub-collection */
  function WhereNot(u: UState, e: string, values: Value): UOut {
    ForwardAll(u, s => Query.WhereNot(s, e, values))
  }

  // ---------------------------------------------------------------------
  // SQL and binder values

  /** `createSqlSuffix(true)`: the union's own ORDER BY, LIMIT and OFFSET */
  function Suffix(u: UState): string {
    ClauseString(" ORDER BY", Query.RenderAll(OrderList(u)), ",", " ", false, true)
    + Query.LimitText(u.limit, u.offset)
  }

  /** the sub-collections' SQL texts, each in parentheses, compiled front to back; the
      compiled parts carry the state their getSql() leaves (the `*` rewrite) */
  datatype Compiled = Compiled(parts: seq<Query.State>, texts: Result<seq<string>>)

  function CompileParts(parts: seq<Query.State>, compile: Query.State -> Query.Compiled): (c: Compiled)
    ensures |c.parts| == |parts|
    decreases |parts|
  {
    if parts == [] then Compiled([], Ok([]))
    else
      var c := compile(parts[0]);
      if c.sql.Err? then Compiled([c.st] + parts[1..], Err(c.sql.error))
      else
        var rest := CompileParts(parts[1..], compile);
        Compiled([c.st] + rest.parts, if rest.texts.Err? then rest.texts else Ok(["(" + c.sql.value + ")"] + rest.texts.value))
  }

  /** `getSql()`: the parts joined by UNION, the suffix, then the union's own Literals;
      `compile` is the sub-collections' own getSql() (Query.GetSql for a plain collection) */
  function GetSql(u: UState, compile: Query.State -> Query.Compiled): (UState, Result<string>) {
    var c := CompileParts(u.parts, compile);
    var u' := u.(parts := c.parts);
    if c.texts.Err? then (u', Err(c.texts.error))
    else (u', Ok(Query.ReplaceLiterals(Implode(" UNION ", c.texts.value) + Suffix(u), u.vars)))
  }

  /** the union's own binders whose flags meet the mask */
  function OwnVars(u: UState, vars: seq<(string, Value)>, mask: Option<set<Query.Clause>>): seq<(string, Value)>
    decreases |vars|
  {
    if vars == [] then []
    else
      var last := vars[|vars| - 1];
      var init := OwnVars(u, vars[..|vars| - 1], mask);
      if mask.None? || Flags(u, last.0) * mask.value != {} then init + [last] else init
  }

  /** `$return += $collection->getVars()` for each part in turn */
  function AddPartVars(acc: seq<(string, Value)>, parts: seq<Query.State>): Result<seq<(string, Value)>>
    decreases |parts|
  {
    if parts == [] then Ok(acc)
    else
      var pv := Query.GetVars(parts[0], None);
      if pv.Err? then Err(pv.error) else AddPartVars(Php.Union(acc, pv.value), parts[1..])
  }

  /** `getVars($flags)` */
  function GetVars(u: UState, mask: Option<set<Query.Clause>>): Result<seq<(string, Value)>> {
    var all := AddPartVars(OwnVars(u, u.vars, mask), u.parts);
    if all.Err? then all else Query.ParseVars(all.value)
  }

  // ---------------------------------------------------------------------
  // Properties

  /** Once loaded, every union modifier setter and fetch() raise InvalidState and change
      nothing. */
  lemma LoadedGuard(u: UState, n: Option<int>, page: int, onPage: int, order: seq<(Key, Query.Src)>,
                    values: seq<(string, Value)>)
    requires u.loaded
    ensures SetTake(u, n) == UOut(u, Some(Loaded)) && SetSkip(u, n) == UOut(u, Some(Loaded))
    ensures SetPage(u, page, onPage) == UOut(u, Some(Loaded))
    ensures SetOrderBy(u, order, values) == UOut(u, Some(Loaded))
    ensures OrderBy(u, order, values) == UOut(u, Some(Loaded))
    ensures FetchGuard(u) == Some(Loaded)
  {
  }

  /** setPage stores OFFSET (page-1)*onPage and LIMIT onPage, and nothing else. */
  lemma SetPageSpec(u: UState, page: int, onPage: int)
    requires !u.loaded
    ensures SetPage(u, page, onPage) == UOut(u.(offset := Some((page - 1) * onPage), limit := Some(onPage)), None)
  {
  }

  /** bindVar refuses a name bound to a value other than null, and otherwise binds it and
      adds the clause to its flags. */
  lemma BindVarSpec(u: UState, name: string, v: Value, c: Query.Clause)
    ensures var o := BindVar(u, name, v, c);
      && (o.err.Some? <==> Get(u.vars, name).Some? && Get(u.vars, name).value != Null)
      && (o.err.Some? ==> o == UOut(u, Some(AlreadyExists(BindVarExists, name))))
      && (o.err.None? ==> Get(o.u.vars, name) == Some(v) && Get(o.u.varsFlags, name) == Some(Flags(u, name) + {c}))
  {
    var o := BindVar(u, name, v, c);
    if o.err.None? {
      GetPut(u.vars, name, v, name);
      GetPut(u.varsFlags, name, Flags(u, name) + {c}, name);
    }
  }

  /** removeVars unsets exactly the binders whose only flag was the cleared one; every
      other binder keeps its value. */
  lemma RemoveVarsSpec(u: UState, c: Query.Clause, n: string)
    ensures var r := RemoveVars(u, c);
      && (n in Keys(r.vars) <==> n in Keys(u.vars) && n !in Query.DeadNames(u.varsFlags, c))
      && (n !in Query.DeadNames(u.varsFlags, c) ==> Get(r.vars, n) == Get(u.vars, n))
  {
  }

  /** the index of the first sub-collection that refuses f, or the count when none does */
  function FirstRefusal(parts: seq<Query.State>, f: Query.State -> Query.Out): (j: nat)
    ensures j <= |parts|
    ensures forall k :: 0 <= k < j ==> f(parts[k]).err.None?
    ensures j < |parts| ==> f(parts[j]).err.Some?
    decreases |parts|
  {
    if parts == [] || f(parts[0]).err.Some? then 0 else 1 + FirstRefusal(parts[1..], f)
  }

  /** A forwarded operation fails exactly when a sub-collection refuses it, with that
      sub-collection's exception; every sub-collection up to the first refusal is left in
      the state the operation gives it alone, and the ones after it are untouched. */
  lemma {:induction false} ForwardSpec(parts: seq<Query.State>, f: Query.State -> Query.Out, k: nat)
    requires k < |parts|
    ensures var r := Forward(parts, f);
      var j := FirstRefusal(parts, f);
      && (r.1.Some? <==> j < |parts|)
      && (j < |parts| ==> r.1 == f(parts[j]).err)
      && (k <= j ==> r.0[k] == f(parts[k]).st)
      && (k > j ==> r.0[k] == parts[k])
    decreases |parts|
  {
    var o := f(parts[0]);
    if o.err.None? && |parts| > 1 {
      var k' := if k == 0 then 0 else k - 1;
      ForwardSpec(parts[1..], f, k');
      if k > 0 {
        assert parts[1..][k - 1] == parts[k];
      } else {
        assert FirstRefusal(parts, f) >= 1;
      }
      if FirstRefusal(parts[1..], f) < |parts[1..]| {
        assert parts[1..][FirstRefusal(parts[1..], f)] == parts[FirstRefusal(parts, f)];
      }
    }
  }

  /** The union's SQL is built from every sub-collection's SQL, each in parentheses; the
      first sub-collection whose getSql() throws decides the exception. */
  lemma {:induction false} CompilePartsSpec(parts: seq<Query.State>, compile: Query.State -> Query.Compiled, k: nat)
    requires k < |parts|
    ensures var c := CompileParts(parts, compile);
      && (c.texts.Ok? ==> |c.texts.value| == |parts| && compile(parts[k]).sql.Ok?)
      && (c.texts.Ok? ==> c.texts.value[k] == "(" + compile(parts[k]).sql.value + ")")
      && (c.texts.Ok? ==> c.parts[k] == compile(parts[k]).st)
      && (compile(parts[k]).sql.Err? ==> c.texts.Err?)
    decreases |parts|
  {
    var g := compile(parts[0]);
    if g.sql.Ok? && |parts| > 1 {
      var rest := CompileParts(parts[1..], compile);
      if k > 0 {
        CompilePartsSpec(parts[1..], compile, k - 1);
        assert parts[1..][k - 1] == parts[k];
      } else {
        CompilePartsSpec(parts[1..], compile, 0);
      }
    }
  }

  /** Without ORDER BY the union's suffix is only its LIMIT and OFFSET text. */
  lemma SuffixWithoutOrder(u: UState)
    requires u.orderBy.None? || u.orderBy.value == []
    ensures Suffix(u) == Query.LimitText(u.limit, u.offset)
  {
    assert Query.RenderAll(OrderList(u)) == [];
  }

  /** An OFFSET without a LIMIT renders `LIMIT 18446744073709551615` before it. */
  lemma SuffixOffsetOnly(u: UState)
    requires u.limit.None? && u.offset.Some?
    ensures Suffix(u) == ClauseString(" ORDER BY", Query.RenderAll(OrderList(u)), ",", " ", false, true)
                         + (" LIMIT " + Query.MaxLimit + " OFFSET " + IntToString(u.offset.value))
  {
    QueryProps.LimitTextOrder(u.limit, u.offset);
  }

  /** getVars keeps the union's own binders first and adds a sub-collection's binder only
      under a name not yet present. */
  lemma {:induction false} AddPartVarsKeeps(acc: seq<(string, Value)>, parts: seq<Query.State>, n: string)
    requires AddPartVars(acc, parts).Ok? && n in Keys(acc)
    ensures Get(AddPartVars(acc, parts).value, n) == Get(acc, n)
    decreases |parts|
  {
    if parts != [] {
      var pv := Query.GetVars(parts[0], None);
      AddPartVarsKeeps(Php.Union(acc, pv.value), parts[1..], n);
    }
  }

  /** A name no earlier binder table has takes the value of the first sub-collection that
      binds it. */
  lemma {:induction false} AddPartVarsFirst(acc: seq<(string, Value)>, parts: seq<Query.State>, n: string, j: nat)
    requires AddPartVars(acc, parts).Ok? && j < |parts| && n !in Keys(acc)
    requires forall k :: 0 <= k < j ==> Query.GetVars(parts[k], None).Ok? && n !in Keys(Query.GetVars(parts[k], None).value)
    requires Query.GetVars(parts[j], None).Ok? && n in Keys(Query.GetVars(parts[j], None).value)
    ensures Get(AddPartVars(acc, parts).value, n) == Get(Query.GetVars(parts[j], None).value, n)
    decreases |parts|
  {
    var pv := Query.GetVars(parts[0], None);
    var acc' := Php.Union(acc, pv.value);
    if j == 0 {
      AddPartVarsKeeps(acc', parts[1..], n);
    } else {
      assert Query.GetVars(parts[0], None).Ok?;
      assert n !in Keys(pv.value);
      forall k | 0 <= k < j - 1
        ensures Query.GetVars(parts[1..][k], None).Ok? && n !in Keys(Query.GetVars(parts[1..][k], None).value)
      {
        assert parts[1..][k] == parts[k + 1];
      }
      assert parts[1..][j - 1] == parts[j];
      AddPartVarsFirst(acc', parts[1..], n, j - 1);
    }
  }

  /** As written, orderBy() on a union that never had setOrderBy() fails with TypeError:
      the constructor leaves the ORDER BY modifier unset and array_merge is given null. */
  lemma OrderByAsWrittenFailsFresh(parts: seq<Query.State>, order: seq<(Key, Query.Src)>)
    ensures OrderByAsWritten(Fresh(parts), order, []) == UOut(Fresh(parts), Some(TypeError))
    ensures OrderBy(Fresh(parts), order, []).err.None?
  {
  }

  /** With the modifier starting empty, orderBy() on a fresh union stores its list (keys
      renumbered as array_merge does) and orderBy() after setOrderBy() appends to it. */
  lemma OrderBySpec(u: UState, order: seq<(Key, Query.Src)>)
    requires !u.loaded
    ensures OrderBy(u, order, []) == UOut(u.(orderBy := Some(Merge(OrderList(u), order))), None)
    ensures u.orderBy.Some? ==> OrderBy(u, order, []) == OrderByAsWritten(u, order, [])
  {
  }
}

/** The UnionCollection object: its fields hold a `Unions.UState`, and each method is proved
    to leave the object in the state the function of the same name gives. */
module UnionCollections {
  import opened Php
  import opened Errors
  import Query
  import opened Unions

  class UnionCollection {
    var parts: seq<Query.State>
    var vars: seq<(string, Value)>
    var varsFlags: seq<(string, set<Query.Clause>)>
    var orderBy: Option<seq<(Key, Query.Src)>>
    var limit: Option<int>
    var offset: Option<int>
    var loaded: bool

    function Abs(): UState
      reads this
    {
      UState(parts, vars, varsFlags, orderBy, limit, offset, loaded)
    }

    constructor (collections: seq<Query.State>)
      ensures Abs() == Fresh(collections)
    {
      parts, vars, varsFlags := collections, [], [];
      orderBy, limit, offset, loaded := None, None, None, false;
    }

    /** `bindVar($name, $value, $flag)` */
    method BindVar(name: string, v: Value, c: Query.Clause) returns (err: Option<Error>)
      modifies this
      ensures UOut(Abs(), err) == Unions.BindVar(old(Abs()), name, v, c)
    {
      if !Free(Abs(), name) {
        return Some(AlreadyExists(BindVarExists, name));
      }
      var flags := Flags(Abs(), name);
      vars := Put(vars, name, v);
      varsFlags := Put(varsFlags, name, flags + {c});
      return None;
    }

    method BindAll(values: seq<(string, Value)>, c: Query.Clause) returns (err: Option<Error>)
      modifies this
      ensures UOut(Abs(), err) == Unions.BindAll(old(Abs()), values, c)
    {
      var i := 0;
      while i < |values|
        invariant 0 <= i <= |values|
        invariant Unions.BindAll(Abs(), values[i..], c) == Unions.BindAll(old(Abs()), values, c)
      {
        BindAllStep(Abs(), values, i, c);
        err := BindVar(values[i].0, values[i].1, c);
        if err.Some? {
          return;
        }
        i := i + 1;
      }
      return None;
    }

    /** `removeVars($flagToRemove)` */
    method RemoveVars(c: Query.Clause)
      modifies this
      ensures Abs() == Unions.RemoveVars(old(Abs()), c)
    {
      var dead := Query.DeadNames(varsFlags, c);
      vars := RemoveKeys(vars, dead);
      varsFlags := Query.StripFlag(varsFlags, c);
    }

    /** `setTake($number)` */
    method SetTake(n: Option<int>) returns (err: Option<Error>)
      modifies this
      ensures UOut(Abs(), err) == Unions.SetTake(old(Abs()), n)
    {
      if loaded {
        return Some(Loaded);
      }
      limit := n;
      return None;
    }

    /** `setSkip($number)` */
    method SetSkip(n: Option<int>) returns (err: Option<Error>)
      modifies this
      ensures UOut(Abs(), err) == Unions.SetSkip(old(Abs()), n)
    {
      if loaded {
        return Some(Loaded);
      }
      offset := n;
      return None;
    }

    /** `setPage($page, $onPage)` */
    method SetPage(page: int, onPage: int) returns (err: Option<Error>)
      modifies this
      ensures UOut(Abs(), err) == Unions.SetPage(old(Abs()), page, onPage)
    {
      if loaded {
        return Some(Loaded);
      }
      err := SetSkip(Some((page - 1) * onPage));
      if err.Some? {
        return;
      }
      err := SetTake(Some(onPage));
    }

    /** `setOrderBy($order, $values)` */
    method SetOrderBy(order: seq<(Key, Query.Src)>, values: seq<(string, Value)>) returns (err: Option<Error>)
      modifies this
      ensures UOut(Abs(), err) == Unions.SetOrderBy(old(Abs()), order, values)
    {
      if loaded {
        return Some(Loaded);
      }
      orderBy := Some(order);
      RemoveVars(Query.OrderByClause);
      err := BindAll(values, Query.OrderByClause);
    }

    /** `orderBy($order, $values)`, with the ORDER BY modifier read as an empty list until
        it is first set */
    method OrderBy(order: seq<(Key, Query.Src)>, values: seq<(string, Value)>) returns (err: Option<Error>)
      modifies this
      ensures UOut(Abs(), err) == Unions.OrderBy(old(Abs()), order, values)
    {
      if loaded {
        return Some(Loaded);
      }
      var current := if orderBy.None? then [] else orderBy.value;
      orderBy := Some(Merge(current, order));
      err := BindAll(values, Query.OrderByClause);
    }

    /** the WHERE family: apply f to every sub-collection, stopping at the first one
        that throws */
    method ForwardAll(f: Query.State -> Query.Out) returns (err: Option<Error>)
      modifies this
      ensures UOut(Abs(), err) == Unions.ForwardAll(old(Abs()), f)
    {
      var updated;
      updated, err := ForwardLoop(parts, f);
      parts := updated;
    }

    /** `setWhere($expression, $values)` */
    method SetWhere(e: Option<string>, values: Value) returns (err: Option<Error>)
      modifies this
      ensures UOut(Abs(), err) == Unions.SetWhere(old(Abs()), e, values)
    {
      err := ForwardAll(s => Query.SetWhere(s, e, values));
    }

    /** `where($expression, $values)` */
    method Where(e: string, values: Value) returns (err: Option<Error>)
      modifies this
      ensures UOut(Abs(), err) == Unions.Where(old(Abs()), e, values)
    {
      err := ForwardAll(s => Query.Where(s, e, values));
    }

    /** `whereMatch($conditions, $columnPrefix)` */
    method WhereMatch(conditions: seq<(Key, Value)>, prefix: string) returns (err: Option<Error>)
      modifies this
      ensures UOut(Abs(), err) == Unions.WhereMatch(old(Abs()), conditions, prefix)
    {
      err := ForwardAll(s => Query.WhereMatch(s, conditions, prefix));
    }

    /** `whereBetween(…)` */
    method WhereBetween(e: string, lo: Value, hi: Value, loEquals: bool, hiEquals: bool) returns (err: Option<Error>)
      modifies this
      ensures UOut(Abs(), err) == Unions.WhereBetween(old(Abs()), e, lo, hi, loEquals, hiEquals)
    {
      err := ForwardAll(s => Query.WhereBetween(s, e, lo, hi, loEquals, hiEquals));
    }

    /** `setWhereNot($expression, $values)` */
    method SetWhereNot(e: string, values: Value) returns (err: Option<Error>)
      modifies this
      ensures UOut(Abs(), err) == Unions.SetWhereNot(old(Abs()), e, values)
    {
      err := ForwardAll(s => Query.SetWhereNot(s, e, values));
    }

    /** `whereNot($expression, $values)` */
    method WhereNot(e: string, values: Value) returns (err: Option<Error>)
      modifies this
      ensures UOut(Abs(), err) == Unions.WhereNot(old(Abs()), e, values)
    {
      err := ForwardAll(s => Query.WhereNot(s, e, values));
    }

    /** `getSql()` */
    method GetSql(compile: Query.State -> Query.Compiled) returns (sql: Result<string>)
      modifies this
      ensures (Abs(), sql) == Unions.GetSql(old(Abs()), compile)
    {
      var compiled, texts := CompileLoop(parts, compile);
      parts := compiled;
      if texts.Err? {
        return Err(texts.error);
      }
      var text := Implode(" UNION ", texts.value) + Suffix(Abs());
      return Ok(Query.ReplaceLiterals(text, vars));
    }

    /** `getVars($flags)` */
    method GetVars(mask: Option<set<Query.Clause>>) returns (r: Result<seq<(string, Value)>>)
      ensures r == Unions.GetVars(Abs(), mask)
    {
      var acc := OwnVarsLoop(Abs(), mask);
      var i := 0;
      while i < |parts|
        invariant 0 <= i <= |parts|
        invariant AddPartVars(OwnVars(Abs(), vars, mask), parts) == AddPartVars(acc, parts[i..])
      {
        assert parts[i..][1..] == parts[i + 1..];
        var pv := Query.GetVars(parts[i], None);
        if pv.Err? {
          return Err(pv.error);
        }
        acc := Php.Union(acc, pv.value);
        i := i + 1;
      }
      r := Query.ParseVars(acc);
    }
  }

  /** the loop of the WHERE family over the sub-collections */
  method ForwardLoop(start: seq<Query.State>, f: Query.State -> Query.Out) returns (parts: seq<Query.State>, err: Option<Error>)
    ensures (parts, err) == Forward(start, f)
  {
    parts := start;
    var i := 0;
    assert parts[..0] == [] && parts[0..] == parts;
    assert [] + Forward(start, f).0 == Forward(start, f).0;
    while i < |parts|
      invariant 0 <= i <= |parts| && |parts| == |start|
      invariant parts[i..] == start[i..]
      invariant Forward(start, f) == Done(parts[..i], Forward(parts[i..], f))
    {
      var o := f(parts[i]);
      ForwardStep(parts, i, f);
      parts := parts[i := o.st];
      if o.err.Some? {
        return parts, o.err;
      }
      assert parts[i + 1..] == start[i + 1..];
      i := i + 1;
    }
    assert parts[..i] == parts && parts[i..] == [] && parts + [] == parts;
    return parts, None;
  }

  /** the loop of getSql over the sub-collections */
  method CompileLoop(start: seq<Query.State>, compile: Query.State -> Query.Compiled)
    returns (parts: seq<Query.State>, texts: Result<seq<string>>)
    ensures Compiled(parts, texts) == CompileParts(start, compile)
  {
    parts := start;
    var done: seq<string> := [];
    var i := 0;
    assert parts[..0] == [] && parts[0..] == parts;
    assert [] + CompileParts(start, compile).parts == CompileParts(start, compile).parts;
    assert CompileParts(start, compile).texts.Ok? ==> [] + CompileParts(start, compile).texts.value == CompileParts(start, compile).texts.value;
    while i < |parts|
      invariant 0 <= i <= |parts| && |parts| == |start|
      invariant parts[i..] == start[i..]
      invariant CompileParts(start, compile) == Prefixed(parts[..i], done, CompileParts(parts[i..], compile))
    {
      var c := compile(parts[i]);
      CompileStep(parts, compile, i, done);
      parts := parts[i := c.st];
      if c.sql.Err? {
        return parts, Err(c.sql.error);
      }
      done := done + ["(" + c.sql.value + ")"];
      assert parts[i + 1..] == start[i + 1..];
      i := i + 1;
    }
    assert parts[..i] == parts && parts[i..] == [];
    assert parts + [] == parts && done + [] == done;
    return parts, Ok(done);
  }

  /** the loop state of ForwardAll: the parts done so far in front of the rest's result */
  function Done(done: seq<Query.State>, rest: (seq<Query.State>, Option<Error>)): (seq<Query.State>, Option<Error>) {
    (done + rest.0, rest.1)
  }

  lemma ForwardStep(parts: seq<Query.State>, i: nat, f: Query.State -> Query.Out)
    requires i < |parts|
    ensures var o := f(parts[i]);
      var p := parts[i := o.st];
      && (o.err.Some? ==> Done(parts[..i], Forward(parts[i..], f)) == (p, o.err))
      && (o.err.None? ==> Done(parts[..i], Forward(parts[i..], f)) == Done(p[..i + 1], Forward(parts[i + 1..], f)))
  {
    var o := f(parts[i]);
    var p := parts[i := o.st];
    assert parts[i..][0] == parts[i] && parts[i..][1..] == parts[i + 1..];
    assert p[..i + 1] == parts[..i] + [o.st];
    if o.err.Some? {
      assert Forward(parts[i..], f) == ([o.st] + parts[i + 1..], o.err);
      assert parts[..i] + ([o.st] + parts[i + 1..]) == p;
    } else {
      var rest := Forward(parts[i + 1..], f);
      assert Forward(parts[i..], f) == ([o.st] + rest.0, rest.1);
      assert parts[..i] + ([o.st] + rest.0) == p[..i + 1] + rest.0;
    }
  }

  /** the loop state of GetSql: the parts compiled so far, their texts, and the rest */
  function Prefixed(done: seq<Query.State>, texts: seq<string>, rest: Compiled): Compiled {
    Compiled(done + rest.parts, if rest.texts.Err? then rest.texts else Ok(texts + rest.texts.value))
  }

  lemma CompileStep(parts: seq<Query.State>, compile: Query.State -> Query.Compiled, i: nat, texts: seq<string>)
    requires i < |parts|
    ensures var c := compile(parts[i]);
      var p := parts[i := c.st];
      && (c.sql.Err? ==> Prefixed(parts[..i], texts, CompileParts(parts[i..], compile)) == Compiled(p, Err(c.sql.error)))
      && (c.sql.Ok? ==> Prefixed(parts[..i], texts, CompileParts(parts[i..], compile))
                        == Prefixed(p[..i + 1], texts + ["(" + c.sql.value + ")"], CompileParts(parts[i + 1..], compile)))
  {
    var c := compile(parts[i]);
    var p := parts[i := c.st];
    assert parts[i..][0] == parts[i] && parts[i..][1..] == parts[i + 1..];
    assert p[..i + 1] == parts[..i] + [c.st];
    if c.sql.Err? {
      assert CompileParts(parts[i..], compile) == Compiled([c.st] + parts[i + 1..], Err(c.sql.error));
      assert parts[..i] + ([c.st] + parts[i + 1..]) == p;
    } else {
      var rest := CompileParts(parts[i + 1..], compile);
      var t := "(" + c.sql.value + ")";
      assert CompileParts(parts[i..], compile) == Compiled([c.st] + rest.parts, if rest.texts.Err? then rest.texts else Ok([t] + rest.texts.value));
      assert parts[..i] + ([c.st] + rest.parts) == p[..i + 1] + rest.parts;
      if rest.texts.Ok? {
        assert texts + ([t] + rest.texts.value) == texts + [t] + rest.texts.value;
      }
    }
  }

  lemma BindAllStep(u: UState, values: seq<(string, Value)>, i: nat, c: Query.Clause)
    requires i < |values|
    ensures var o := Unions.BindVar(u, values[i].0, values[i].1, c);
      Unions.BindAll(u, values[i..], c) == if o.err.Some? then o else Unions.BindAll(o.u, values[i + 1..], c)
  {
    assert values[i..][0] == values[i] && values[i..][1..] == values[i + 1..];
  }

  /** the first loop of getVars: the union's own binders that meet the mask */
  method OwnVarsLoop(u: UState, mask: Option<set<Query.Clause>>) returns (r: seq<(string, Value)>)
    ensures r == OwnVars(u, u.vars, mask)
  {
    r := [];
    var i := 0;
    while i < |u.vars|
      invariant 0 <= i <= |u.vars|
      invariant r == OwnVars(u, u.vars[..i], mask)
    {
      assert u.vars[..i + 1][..i] == u.vars[..i];
      if mask.None? || Flags(u, u.vars[i].0) * mask.value != {} {
        r := r + [u.vars[i]];
      }
      i := i + 1;
    }
    assert u.vars[..i] == u.vars;
  }

}
