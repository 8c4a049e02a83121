/** StORM\GenericCollection as an object whose methods update its fields in place. Every
    method is proved to leave the object in the state the matching function of module
    Query computes from the state before the call, and to throw what that function
    throws; the properties of those functions are proved in module QueryProps. */
module GenericCollections {
  import opened Php
  import opened Errors
  import opened Helpers
  import Query
  import opened QueryProps

  type State = Query.State
  type Src = Query.Src
  type Clause = Query.Clause
  type Join = Query.Join
  type Out = Query.Out

  /** one loop step over a suffix: dropping the head of s[i..] leaves s[i+1..] */
  lemma Step<T>(s: seq<T>, i: int)
    requires 0 <= i < |s|
    ensures s[i..][0] == s[i] && s[i..][1..] == s[i + 1..]
  {
  }

  /** one getVars step: the binder at i is picked exactly when its flags meet the mask */
  lemma SelectVarsStep(vars: seq<(string, Value)>, i: int, st: Query.State, mask: Option<set<Clause>>,
                       picked: seq<(string, Value)>)
    requires 0 <= i < |vars|
    requires picked + Query.SelectVars(vars[i..], st, mask) == Query.SelectVars(vars, st, mask)
    ensures var keep := mask.None? || Query.Flags(st, vars[i].0) * mask.value != {};
      (if keep then picked + [vars[i]] else picked) + Query.SelectVars(vars[i + 1..], st, mask)
      == Query.SelectVars(vars, st, mask)
  {
    Step(vars, i);
  }

  /** the names one removeVars step deletes, over a growing prefix of the flags */
  lemma DeadNamesSnoc(flags: seq<(string, set<Clause>)>, c: Clause, i: int)
    requires 0 <= i < |flags|
    ensures Query.DeadNames(flags[..i + 1], c)
            == Query.DeadNames(flags[..i], c) + (if flags[i].1 - {c} == {} then {flags[i].0} else {})
  {
    var a, b := flags[..i], flags[..i + 1];
    assert forall j :: 0 <= j < i ==> b[j] == a[j];
    assert b[i] == flags[i];
  }

  /** removing one more key is one more unset */
  lemma {:induction false} RemoveKeysSnoc<K(!new), V>(a: seq<(K, V)>, ks: set<K>, k: K)
    ensures RemoveKeys(a, ks + {k}) == Remove(RemoveKeys(a, ks), k)
  {
    if a != [] {
      RemoveKeysSnoc(a[1..], ks, k);
      if a[0].0 !in ks && a[0].0 != k {
        var r := RemoveKeys(a[1..], ks);
        assert ([a[0]] + r)[1..] == r;
      }
    }
  }

  lemma {:induction false} RemoveKeysNone<K(!new), V>(a: seq<(K, V)>)
    ensures RemoveKeys(a, {}) == a
  {
    if a != [] {
      RemoveKeysNone(a[1..]);
      assert a == [a[0]] + a[1..];
    }
  }

  /** whereBetween on an unloaded collection, once its first bound has given o */
  lemma WhereBetweenShape(st: State, e: string, lo: Value, hi: Value, loEquals: bool, hiEquals: bool, o: Out)
    requires !st.loaded
    requires o == if Truthy(lo) then Query.BetweenBound(st, e, lo, if loEquals then ">=" else ">") else Query.Out(st, None)
    ensures Query.WhereBetween(st, e, lo, hi, loEquals, hiEquals)
            == if o.err.Some? || !Truthy(hi) then o else Query.BetweenBound(o.st, e, hi, if hiEquals then "<=" else "<")
  {
  }

  /** init() once setSelect has given o1 and the base FROM has given o2 */
  lemma InitShape(st: State, o1: Out, o2: Out)
    requires o1 == Query.SetSelect(st, st.baseSelect, [], true) && o1.err.None?
    requires var s1 := o1.st.(from := []);
      o2 == if s1.baseFrom.Some? then Query.SetFrom(s1, s1.baseFrom.value, []) else Query.Out(s1, None)
    ensures Query.Init(st)
            == if o2.err.Some? then o2 else Query.Out(Query.ResetModifiers(o2.st), None)
  {
  }

  /** what the removeVars loop has done after its first i steps */
  ghost predicate ClearedUpTo(flags: seq<(string, set<Clause>)>, vars: seq<(string, Value)>, c: Clause, i: int,
                              kept: seq<(string, set<Clause>)>, vs: seq<(string, Value)>)
    requires 0 <= i <= |flags|
  {
    && kept + Query.StripFlag(flags[i..], c) == Query.StripFlag(flags, c)
    && vs == RemoveKeys(vars, Query.DeadNames(flags[..i], c))
  }

  /** one step of the removeVars loop keeps ClearedUpTo */
  lemma ClearFlagStep(flags: seq<(string, set<Clause>)>, vars: seq<(string, Value)>, c: Clause, i: int,
                      kept: seq<(string, set<Clause>)>, vs: seq<(string, Value)>)
    requires 0 <= i < |flags| && ClearedUpTo(flags, vars, c, i, kept, vs)
    ensures var f := flags[i].1 - {c};
      ClearedUpTo(flags, vars, c, i + 1, if f != {} then kept + [(flags[i].0, f)] else kept,
                  if f != {} then vs else Remove(vs, flags[i].0))
  {
    Step(flags, i);
    var dead := Query.DeadNames(flags[..i], c);
    DeadNamesSnoc(flags, c, i);
    var f := flags[i].1 - {c};
    if f == {} {
      RemoveKeysSnoc(vars, dead, flags[i].0);
    } else {
      assert dead + {} == dead;
      assert Query.StripFlag(flags[i..], c) == [(flags[i].0, f)] + Query.StripFlag(flags[i + 1..], c);
    }
  }

  lemma ClearedStart(flags: seq<(string, set<Clause>)>, vars: seq<(string, Value)>, c: Clause)
    ensures ClearedUpTo(flags, vars, c, 0, [], vars)
  {
    assert Query.DeadNames(flags[..0], c) == {};
    assert flags[0..] == flags;
    RemoveKeysNone(vars);
  }

  lemma ClearedEnd(flags: seq<(string, set<Clause>)>, vars: seq<(string, Value)>, c: Clause,
                   kept: seq<(string, set<Clause>)>, vs: seq<(string, Value)>)
    requires ClearedUpTo(flags, vars, c, |flags|, kept, vs)
    ensures kept == Query.StripFlag(flags, c) && vs == RemoveKeys(vars, Query.DeadNames(flags, c))
  {
    assert flags[..|flags|] == flags;
    assert flags[|flags|..] == [];
  }

  /** the loop of removeVars: every flag set loses c, and the entries left with no flag
      are dropped from the flags and from the binder values */
  method ClearFlag(flags: seq<(string, set<Clause>)>, vars: seq<(string, Value)>, c: Clause)
    returns (kept: seq<(string, set<Clause>)>, vs: seq<(string, Value)>)
    ensures kept == Query.StripFlag(flags, c)
    ensures vs == RemoveKeys(vars, Query.DeadNames(flags, c))
  {
    kept, vs := [], vars;
    var i := 0;
    ClearedStart(flags, vars, c);
    while i < |flags|
      invariant 0 <= i <= |flags|
      invariant ClearedUpTo(flags, vars, c, i, kept, vs)
    {
      ClearFlagStep(flags, vars, c, i, kept, vs);
      var f := flags[i].1 - {c};
      if f != {} {
        kept := kept + [(flags[i].0, f)];
      } else {
        vs := Remove(vs, flags[i].0);
      }
      i := i + 1;
    }
    ClearedEnd(flags, vars, c, kept, vs);
  }

  class GenericCollection {
    // the modifiers
    var select: seq<(Key, Src)>
    var from: seq<(Key, Src)>
    var joins: seq<Join>
    var where: seq<string>
    var groupBy: seq<(Key, Src)>
    var having: Option<string>
    var orderBy: seq<(Key, Src)>
    var limit: Option<int>
    var offset: Option<int>
    // the binder table
    var vars: seq<(string, Value)>
    var varsFlags: seq<(string, set<Clause>)>
    var binderCounter: nat
    // the alias registry
    var aliases: seq<(string, Clause)>
    var tableAliases: seq<(string, string)>
    var possibleValues: seq<(string, seq<(Key, Value)>)>
    var loaded: bool
    var index: Option<string>
    var prefixIndex: bool
    // fixed by the constructor
    const binderName: string
    const quote: string
    const baseFrom: Option<seq<(Key, Src)>>
    const baseSelect: seq<(Key, Src)>

    /** the query state the fields hold */
    function Abs(): State
      reads this
    {
      Query.State(select, from, joins, where, groupBy, having, orderBy, limit, offset, vars, varsFlags,
                  binderCounter, aliases, tableAliases, possibleValues, loaded, index, prefixIndex,
                  binderName, quote, baseFrom, baseSelect)
    }

    /** the field assignments of `__construct` before it calls init() */
    constructor (objectId: nat, quote: string, baseFrom: Option<seq<(Key, Src)>>, baseSelect: seq<(Key, Src)>,
                 index: Option<string>)
      ensures Abs() == Query.Pristine(objectId, quote, baseFrom, baseSelect, index)
    {
      select, from, joins, where, groupBy, having, orderBy, limit, offset := [], [], [], [], [], None, [], None, None;
      vars, varsFlags, binderCounter := [], [], 0;
      aliases, tableAliases, possibleValues := [], [], [];
      loaded, this.index, prefixIndex := false, index, true;
      binderName := "__var" + NatToString(objectId);
      this.quote, this.baseFrom, this.baseSelect := quote, baseFrom, baseSelect;
    }

    // -------------------------------------------------------------------
    // Binders

    /** `bindVar($name, $value, $modifierFlag)` */
    method BindVar(name: string, v: Value, c: Clause) returns (err: Option<Error>)
      modifies this
      ensures Query.Out(Abs(), err) == Query.BindVar(old(Abs()), name, v, c)
    {
      if !Query.Free(Abs(), name) {
        return Some(AlreadyExists(BindVarExists, name));
      }
      var flags := Query.Flags(Abs(), name);
      vars := Put(vars, name, v);
      varsFlags := Put(varsFlags, name, flags + {c});
      return None;
    }

    /** `foreach ($values as $k => $v) $this->bindVar($k, $v, $flag)` */
    method BindAll(values: seq<(string, Value)>, c: Clause) returns (err: Option<Error>)
      modifies this
      ensures Query.Out(Abs(), err) == Query.BindAll(old(Abs()), values, c)
    {
      var i := 0;
      while i < |values|
        invariant 0 <= i <= |values|
        invariant Query.BindAll(Abs(), values[i..], c) == Query.BindAll(old(Abs()), values, c)
      {
        Step(values, i);
        err := BindVar(values[i].0, values[i].1, c);
        if err.Some? {
          return;
        }
        i := i + 1;
      }
      return None;
    }

    /** `generateBinder()` */
    method GenerateBinder() returns (b: string)
      modifies this
      ensures b == Query.Binder(old(Abs())) && Abs() == Query.Advance(old(Abs()))
    {
      b := binderName + NatToString(binderCounter);
      binderCounter := binderCounter + 1;
    }

    /** `removeVars($flagToRemove)`: clear the bit on every binder and unset the binders
        left with no bit */
    method RemoveVars(c: Clause)
      modifies this
      ensures Abs() == Query.RemoveVars(old(Abs()), c)
    {
      varsFlags, vars := ClearFlag(varsFlags, vars, c);
    }

    // -------------------------------------------------------------------
    // Aliases

    /** `addAlias($aliases, $modifier)` */
    method AddAlias(tables: seq<(Key, Src)>, c: Clause) returns (err: Option<Error>)
      modifies this
      ensures Query.Out(Abs(), err) == Query.AddAlias(old(Abs()), tables, c)
    {
      var i := 0;
      while i < |tables|
        invariant 0 <= i <= |tables|
        invariant Query.AddAlias(Abs(), tables[i..], c) == Query.AddAlias(old(Abs()), tables, c)
      {
        Step(tables, i);
        var alias := Query.AliasOf(quote, tables[i].0, tables[i].1);
        if !IsValidIdentifier(alias) {
          return Some(InvalidState(InvalidIdentifier));
        }
        if alias in Keys(aliases) {
          return Some(AlreadyExists(AliasExists, alias));
        }
        aliases := Put(aliases, alias, c);
        var table := if tables[i].1.Text? then tables[i].1.sql else alias;
        tableAliases := Put(tableAliases, table, alias);
        i := i + 1;
      }
      return None;
    }

    /** `removeAlias($remove)` */
    method RemoveAlias(c: Clause)
      modifies this
      ensures Abs() == Query.RemoveAlias(old(Abs()), c)
    {
      aliases := DropClause(aliases, c);
    }

    // -------------------------------------------------------------------
    // WHERE

    /** `processWhere($expression, $values, $not, $replace)` */
    method ProcessWhere(e: string, values: Value, not: bool, replace: bool) returns (err: Option<Error>)
      modifies this
      ensures Query.Out(Abs(), err) == Query.ProcessWhere(old(Abs()), e, values, not, replace)
    {
      ghost var prepared := Query.Prepare(Abs(), replace);
      possibleValues := [];
      if replace {
        RemoveVars(Query.WhereClause);
        where := [];
      }
      assert Abs() == prepared;
      err := Attach(e, values, not);
    }

    /** processWhere after its reset, by the shape of the values */
    method Attach(e: string, values: Value, not: bool) returns (err: Option<Error>)
      modifies this
      ensures Query.Out(Abs(), err) == Query.Attach(old(Abs()), e, values, not)
    {
      if values.Null? {
        where := where + [Query.Wrap(e, not)];
        return None;
      }
      var entries := if values.Arr? then values.entries else [(IntKey(0), values)];
      if IsAssociative(entries) && |entries| != 0 {
        if !Contains(e, ":") {
          return Some(InvalidArgument(NoBindVariable));
        }
        where := where + [Query.Wrap(e, not)];
        err := BindAll(Query.StringKeyed(entries), Query.WhereClause);
      } else if |entries| == 1 {
        err := AttachSingle(e, entries, not);
      } else if |entries| != 0 {
        err := AttachList(e, entries, not);
      } else if !not {
        where := where + ["(1 = 0)"];
        err := None;
      } else {
        err := None;
      }
    }

    /** one value: an equality on a fresh binder, or an IS NULL test */
    method AttachSingle(e: string, entries: seq<(Key, Value)>, not: bool) returns (err: Option<Error>)
      requires |entries| == 1
      modifies this
      ensures Query.Out(Abs(), err) == Query.AttachSingle(old(Abs()), e, entries, not)
    {
      var b := GenerateBinder();
      if entries[0].1.Null? {
        where := where + [if not then "(" + e + " IS NOT NULL)" else "(" + e + " IS NULL)"];
        return None;
      }
      where := where + [if not then "(" + e + " != :" + b + ")" else "(" + e + " = :" + b + ")"];
      err := BindVar(b, entries[0].1, Query.WhereClause);
      if err.Some? || not {
        return;
      }
      possibleValues := [(e, entries)];
      return None;
    }

    /** several values: an IN list over fresh binders */
    method AttachList(e: string, entries: seq<(Key, Value)>, not: bool) returns (err: Option<Error>)
      modifies this
      ensures Query.Out(Abs(), err) == Query.AttachList(old(Abs()), e, entries, not)
    {
      var text, count, sawNull := InList(e, ValuesOf(entries));
      if text.Err? {
        return Some(text.error);
      }
      var w := (if not then e + " NOT IN (" + text.value + ")" else e + " IN (" + text.value + ")")
               + (if !sawNull then "" else if not then " AND " + e + " IS NOT NULL" else " OR " + e + " IS NULL");
      if !not {
        possibleValues := [(e, entries)];
      }
      where := where + ["(" + w + ")"];
      return None;
    }

    /** the loop of processWhere over a list of two or more values: a fresh binder per
        non-null value, the binder references comma-separated, and whether a null was seen */
    method InList(e: string, vals: seq<Value>) returns (text: Result<string>, count: nat, sawNull: bool)
      modifies this
      ensures var l := Query.WhereList(old(Abs()), vals, "", 0, false);
        && Abs() == l.o.st
        && (l.o.err.Some? <==> text.Err?)
        && (text.Err? ==> l.o.err == Some(text.error))
        && (text.Ok? ==> text.value == l.text && sawNull == l.sawNull && count == l.count)
    {
      var t := "";
      count, sawNull := 0, false;
      var j := 0;
      while j < |vals|
        invariant 0 <= j <= |vals|
        invariant Query.WhereList(Abs(), vals[j..], t, count, sawNull) == Query.WhereList(old(Abs()), vals, "", 0, false)
      {
        Step(vals, j);
        if vals[j].Null? {
          sawNull := true;
        } else {
          ghost var s0 := Abs();
          var b := GenerateBinder();
          var err := BindVar(b, vals[j], Query.WhereClause);
          if err.Some? {
            return Err(err.value), count, sawNull;
          }
          ghost var s1, t1 := WhereListStep(s0, vals[j..], t, count, sawNull);
          t := t + (if count != 0 then "," else "") + (":" + b);
          count := count + 1;
        }
        j := j + 1;
      }
      return Ok(t), count, sawNull;
    }

    /** `where($expression, $values)` */
    method Where(e: string, values: Value) returns (err: Option<Error>)
      modifies this
      ensures Query.Out(Abs(), err) == Query.Where(old(Abs()), e, values)
    {
      if loaded {
        return Some(Loaded);
      }
      err := ProcessWhere(e, values, false, false);
    }

    /** `setWhere($expression, $values)` */
    method SetWhere(e: Option<string>, values: Value) returns (err: Option<Error>)
      modifies this
      ensures Query.Out(Abs(), err) == Query.SetWhere(old(Abs()), e, values)
    {
      if loaded {
        return Some(Loaded);
      }
      if e.None? {
        where := [];
        return None;
      }
      err := ProcessWhere(e.value, values, false, true);
    }

    /** `whereNot($expression, $values)` */
    method WhereNot(e: string, values: Value) returns (err: Option<Error>)
      modifies this
      ensures Query.Out(Abs(), err) == Query.WhereNot(old(Abs()), e, values)
    {
      if loaded {
        return Some(Loaded);
      }
      err := ProcessWhere(e, values, true, false);
    }

    /** `setWhereNot($expression, $values)` */
    method SetWhereNot(e: string, values: Value) returns (err: Option<Error>)
      modifies this
      ensures Query.Out(Abs(), err) == Query.SetWhereNot(old(Abs()), e, values)
    {
      if loaded {
        return Some(Loaded);
      }
      err := ProcessWhere(e, values, true, true);
    }

    /** `whereMatch($conditions, $columnPrefix)` */
    method WhereMatch(conditions: seq<(Key, Value)>, prefix: string) returns (err: Option<Error>)
      modifies this
      ensures Query.Out(Abs(), err) == Query.WhereMatch(old(Abs()), conditions, prefix)
    {
      var i := 0;
      while i < |conditions|
        invariant 0 <= i <= |conditions|
        invariant Query.WhereMatch(Abs(), conditions[i..], prefix) == Query.WhereMatch(old(Abs()), conditions, prefix)
      {
        Step(conditions, i);
        err := Where(prefix + KeyString(conditions[i].0), conditions[i].1);
        if err.Some? {
          return;
        }
        i := i + 1;
      }
      return None;
    }

    /** one bound of whereBetween */
    method BetweenBound(e: string, v: Value, mark: string) returns (err: Option<Error>)
      modifies this
      ensures Query.Out(Abs(), err) == Query.BetweenBound(old(Abs()), e, v, mark)
    {
      var b := GenerateBinder();
      err := ProcessWhere(e + " " + mark + " :" + b, Arr([(StrKey(b), v)]), false, false);
    }

    /** `whereBetween($expression, $from, $to, $fromEquals, $toEquals)` */
    method WhereBetween(e: string, lo: Value, hi: Value, loEquals: bool, hiEquals: bool) returns (err: Option<Error>)
      modifies this
      ensures Query.Out(Abs(), err) == Query.WhereBetween(old(Abs()), e, lo, hi, loEquals, hiEquals)
    {
      if loaded {
        return Some(Loaded);
      }
      ghost var st := Abs();
      err := None;
      if Truthy(lo) {
        err := BetweenBound(e, lo, if loEquals then ">=" else ">");
      }
      ghost var o := Query.Out(Abs(), err);
      assert o == if Truthy(lo) then Query.BetweenBound(st, e, lo, if loEquals then ">=" else ">") else Query.Out(st, None);
      WhereBetweenShape(st, e, lo, hi, loEquals, hiEquals, o);
      if err.Some? || !Truthy(hi) {
        return;
      }
      err := BetweenBound(e, hi, if hiEquals then "<=" else "<");
    }

    // -------------------------------------------------------------------
    // The other modifiers

    /** `from($from, $values)` */
    method From(tables: seq<(Key, Src)>, values: seq<(string, Value)>) returns (err: Option<Error>)
      modifies this
      ensures Query.Out(Abs(), err) == Query.From(old(Abs()), tables, values)
    {
      if loaded {
        return Some(Loaded);
      }
      err := AddAlias(tables, Query.FromClause);
      if err.Some? {
        return;
      }
      from := Merge(from, tables);
      err := BindAll(values, Query.FromClause);
    }

    /** `setFrom($from, $values)` */
    method SetFrom(tables: seq<(Key, Src)>, values: seq<(string, Value)>) returns (err: Option<Error>)
      modifies this
      ensures Query.Out(Abs(), err) == Query.SetFrom(old(Abs()), tables, values)
    {
      if loaded {
        return Some(Loaded);
      }
      RemoveVars(Query.FromClause);
      RemoveAlias(Query.FromClause);
      err := AddAlias(tables, Query.FromClause);
      if err.Some? {
        return;
      }
      from := tables;
      err := BindAll(values, Query.FromClause);
    }

    /** `getPrefix($dot)` */
    method GetPrefix(dot: bool) returns (prefix: Option<string>)
      ensures prefix == Query.GetPrefix(Abs(), dot)
    {
      if from == [] {
        return None;
      }
      var d := if dot then "." else "";
      var k := from[0].0;
      if k == IntKey(0) {
        return Some(Query.Render(from[0].1) + d);
      }
      if Query.KeyTruthy(k) {
        return Some(KeyString(k) + d);
      }
      return Some("");
    }

    /** `setSelect($select, $values, $keepIndex)` */
    method SetSelect(columns: seq<(Key, Src)>, values: seq<(string, Value)>, keepIndex: bool) returns (err: Option<Error>)
      modifies this
      ensures Query.Out(Abs(), err) == Query.SetSelect(old(Abs()), columns, values, keepIndex)
    {
      if loaded {
        return Some(Loaded);
      }
      RemoveVars(Query.SelectClause);
      select := columns;
      err := BindAll(values, Query.SelectClause);
      if err.None? && !keepIndex {
        index := None;
      }
    }

    /** `select($select, $values)` */
    method Select(columns: seq<(Key, Src)>, values: seq<(string, Value)>) returns (err: Option<Error>)
      modifies this
      ensures Query.Out(Abs(), err) == Query.Select(old(Abs()), columns, values)
    {
      if loaded {
        return Some(Loaded);
      }
      select := Merge(select, columns);
      err := BindAll(values, Query.SelectClause);
    }

    /** `setTake($number)` */
    method SetTake(n: Option<int>) returns (err: Option<Error>)
      modifies this
      ensures Query.Out(Abs(), err) == Query.SetTake(old(Abs()), n)
    {
      if loaded {
        return Some(Loaded);
      }
      limit := n;
      return None;
    }

    /** `setSkip($number)` */
    method SetSkip(n: Option<int>) returns (err: Option<Error>)
      modifies this
      ensures Query.Out(Abs(), err) == Query.SetSkip(old(Abs()), n)
    {
      if loaded {
        return Some(Loaded);
      }
      offset := n;
      return None;
    }

    /** `setPage($page, $onPage)` */
    method SetPage(page: int, onPage: int) returns (err: Option<Error>)
      modifies this
      ensures Query.Out(Abs(), err) == Query.SetPage(old(Abs()), page, onPage)
    {
      if loaded {
        return Some(Loaded);
      }
      offset, limit := Some((page - 1) * onPage), Some(onPage);
      return None;
    }

    /** `setOrderBy($order, $values)` */
    method SetOrderBy(order: seq<(Key, Src)>, values: seq<(string, Value)>) returns (err: Option<Error>)
      modifies this
      ensures Query.Out(Abs(), err) == Query.SetOrderBy(old(Abs()), order, values)
    {
      if loaded {
        return Some(Loaded);
      }
      orderBy := order;
      RemoveVars(Query.OrderByClause);
      err := BindAll(values, Query.OrderByClause);
    }

    /** `orderBy($order, $values)` */
    method OrderBy(order: seq<(Key, Src)>, values: seq<(string, Value)>) returns (err: Option<Error>)
      modifies this
      ensures Query.Out(Abs(), err) == Query.OrderBy(old(Abs()), order, values)
    {
      if loaded {
        return Some(Loaded);
      }
      orderBy := Merge(orderBy, order);
      err := BindAll(values, Query.OrderByClause);
    }

    /** `setGroupBy($groups, $having, $values)` */
    method SetGroupBy(groups: seq<(Key, Src)>, having: Option<string>, values: seq<(string, Value)>)
      returns (err: Option<Error>)
      modifies this
      ensures Query.Out(Abs(), err) == Query.SetGroupBy(old(Abs()), groups, having, values)
    {
      if loaded {
        return Some(Loaded);
      }
      groupBy, this.having := groups, having;
      RemoveVars(Query.GroupByClause);
      err := BindAll(values, Query.GroupByClause);
    }

    /** `setFullGroupBy($exceptColumns, $having)`, with GROUP BY listing the selected
        expressions (see Query.SetFullGroupByAsWritten for the code as written) */
    method SetFullGroupBy(except: seq<string>, having: Option<string>) returns (err: Option<Error>)
      modifies this
      ensures Query.Out(Abs(), err) == Query.SetFullGroupBy(old(Abs()), except, having)
    {
      if loaded {
        return Some(Loaded);
      }
      var i := 0;
      while i < |select|
        invariant 0 <= i <= |select|
        invariant forall j :: 0 <= j < i ==> select[j].1 != Query.Text("*")
      {
        if select[i].1 == Query.Text("*") {
          return Some(InvalidState(FullGroupByWithStar));
        }
        i := i + 1;
      }
      groupBy, this.having := Query.AsList(ValuesOf(RemoveKeys(select, Query.ExceptKeys(except)))), having;
      return None;
    }

    /** `setJoin($from, $condition, $values, $type)` */
    method SetJoin(tables: seq<(Key, Src)>, condition: Option<string>, values: seq<(string, Value)>, kind: Option<string>)
      returns (err: Option<Error>)
      modifies this
      ensures Query.Out(Abs(), err) == Query.SetJoin(old(Abs()), tables, condition, values, kind)
    {
      if loaded {
        return Some(Loaded);
      }
      RemoveAlias(Query.JoinClause);
      RemoveVars(Query.JoinClause);
      err := AddAlias(tables, Query.JoinClause);
      if err.Some? {
        return;
      }
      if tables != [] {
        joins := [Query.Join(Query.JoinKind(kind), tables, condition)];
      }
      err := BindAll(values, Query.JoinClause);
    }

    /** `join($from, $condition, $values, $type)` */
    method Join(tables: seq<(Key, Src)>, condition: string, values: seq<(string, Value)>, kind: Option<string>)
      returns (err: Option<Error>)
      modifies this
      ensures Query.Out(Abs(), err) == Query.AddJoin(old(Abs()), tables, condition, values, kind)
    {
      if loaded {
        return Some(Loaded);
      }
      err := AddAlias(tables, Query.JoinClause);
      if err.Some? {
        return;
      }
      joins := joins + [Query.Join(Query.JoinKind(kind), tables, Some(condition))];
      err := BindAll(values, Query.JoinClause);
    }

    /** `setIndex($index, $prefixIndex)` */
    method SetIndex(index: Option<string>, prefixIndex: bool) returns (err: Option<Error>)
      modifies this
      ensures Query.Out(Abs(), err) == Query.SetIndex(old(Abs()), index, prefixIndex)
    {
      if loaded {
        return Some(Loaded);
      }
      this.index, this.prefixIndex := index, prefixIndex;
      return None;
    }

    /** `init()` */
    method Init() returns (err: Option<Error>)
      modifies this
      ensures Query.Out(Abs(), err) == Query.Init(old(Abs()))
    {
      ghost var st := Abs();
      err := SetSelect(baseSelect, [], true);
      ghost var o1 := Query.Out(Abs(), err);
      if err.Some? {
        return;
      }
      from := [];
      ghost var s1 := Abs();
      assert s1 == o1.st.(from := []);
      if baseFrom.Some? {
        err := SetFrom(baseFrom.value, []);
        if err.Some? {
          InitShape(st, o1, Query.Out(Abs(), err));
          return;
        }
      }
      ghost var o2 := Query.Out(Abs(), err);
      InitShape(st, o1, o2);
      ResetModifiers();
    }

    /** the end of init() */
    method ResetModifiers()
      modifies this
      ensures Abs() == Query.ResetModifiers(old(Abs()))
    {
      ClearConditions();
      ClearOrderAndLimit();
      ForgetBinders();
    }

    method ClearConditions()
      modifies this
      ensures Abs() == old(Abs()).(joins := [], where := [], groupBy := [], having := None)
    {
      joins, where, groupBy, having := [], [], [], None;
    }

    method ClearOrderAndLimit()
      modifies this
      ensures Abs() == old(Abs()).(orderBy := [], limit := None, offset := None)
    {
      orderBy, limit, offset := [], None, None;
    }

    method ForgetBinders()
      modifies this
      ensures Abs() == old(Abs()).(binderCounter := 0, vars := [], varsFlags := [], possibleValues := [])
    {
      binderCounter, vars, varsFlags, possibleValues := 0, [], [], [];
    }

    /** `clear($clearModifiers)` */
    method Clear(clearModifiers: bool) returns (err: Option<Error>)
      modifies this
      ensures Query.Out(Abs(), err) == Query.Clear(old(Abs()), clearModifiers)
    {
      loaded := false;
      err := None;
      if clearModifiers {
        err := Init();
      }
    }

    // -------------------------------------------------------------------
    // Binder values and SQL

    /** `getVars($flags)`: the binders whose flags meet the mask, parsed */
    method GetVars(mask: Option<set<Clause>>) returns (r: Result<seq<(string, Value)>>)
      ensures r == Query.GetVars(Abs(), mask)
    {
      ghost var st := Abs();
      var picked: seq<(string, Value)> := [];
      var i := 0;
      while i < |vars|
        invariant 0 <= i <= |vars|
        invariant picked + Query.SelectVars(vars[i..], st, mask) == Query.SelectVars(vars, st, mask)
      {
        var keep := mask.None? || Query.Flags(Abs(), vars[i].0) * mask.value != {};
        SelectVarsStep(vars, i, st, mask, picked);
        if keep {
          picked := picked + [vars[i]];
        }
        i := i + 1;
      }
      assert vars[i..] == [];
      assert picked == Query.SelectVars(st.vars, st, mask);
      r := ParseVars(picked);
    }

    /** `getSql()`: SELECT, FROM, JOIN, WHERE, GROUP BY, HAVING, ORDER BY and LIMIT, with the
        Literal binders written into the text; an index over `SELECT *` prefixes the star */
    method GetSql() returns (sql: Result<string>)
      modifies this
      ensures var c := Query.GetSql(old(Abs()));
        Abs() == c.st && sql == c.sql
    {
      var indexSelect := Query.IndexSelect(Abs());
      var star := indexSelect != [] && Get(select, IntKey(0)) == Some(Query.Text("*"));
      if star {
        if |from| > 1 {
          return Err(InvalidState(IndexAndStarWithoutPrefix));
        }
        var prefix := GetPrefix(true);
        select := Put(select, IntKey(0), Query.Text((if prefix.None? then "" else prefix.value) + "*"));
      }
      var text := Query.SqlPrefix(Abs(), true, true, if prefixIndex then indexSelect else [])
                  + Query.SqlSuffix(Abs(), true, true);
      var r := ReplaceLiterals(text, vars);
      return Ok(r);
    }

    /** `getSqlDelete()` */
    method GetSqlDelete() returns (sql: Result<string>)
      ensures sql == Query.GetSqlDelete(Abs())
    {
      if groupBy != [] {
        return Err(InvalidState(GroupByNotAllowed));
      }
      if orderBy != [] {
        return Err(InvalidState(OrderByNotAllowed));
      }
      var alias := GetPrefix(false);
      var text := "DELETE " + (if alias.None? then "" else alias.value) + " " + Query.SqlPrefix(Abs(), false, true, [])
                  + Query.SqlSuffix(Abs(), false, false);
      var r := ReplaceLiterals(text, vars);
      return Ok(r);
    }

    /** `getSqlUpdate(&$updates, $ignore, $alias)`: the SQL and the values that replace the
        caller's `$updates` */
    method GetSqlUpdate(updates: seq<(string, Value)>, ignore: bool, alias: Option<string>, mutations: seq<(string, string)>)
      returns (r: Result<Query.UpdateSql>)
      ensures r == Query.GetSqlUpdate(Abs(), updates, ignore, alias, mutations)
    {
      if groupBy != [] {
        return Err(InvalidState(GroupByNotAllowed));
      }
      var prefix := if alias.None? then "" else alias.value + ".";
      var bound := BindUpdates(updates, mutations, prefix);
      if bound.Err? {
        return Err(bound.error);
      }
      var b := bound.value;
      var text := ClauseString("UPDATE" + (if ignore then " IGNORE" else ""), Query.RenderAll(from), ",", " AS ", false, false)
                  + Query.SqlPrefix(Abs(), false, false, [])
                  + ClauseString(" SET", NormKeys(b.binds), ",", "=", false, false) + " "
                  + Query.SqlSuffix(Abs(), false, true);
      var replaced := ReplaceLiterals(text, Union(b.values, vars));
      return Ok(Query.UpdateSql(replaced, b.values));
    }
  }

  /** the loop of removeAlias: the aliases whose clause is not c, in order */
  method DropClause(all: seq<(string, Clause)>, c: Clause) returns (kept: seq<(string, Clause)>)
    ensures kept == Query.DropClause(all, c)
  {
    kept := [];
    var i := 0;
    while i < |all|
      invariant 0 <= i <= |all|
      invariant kept == Query.DropClause(all[..i], c)
    {
      assert all[..i + 1] == all[..i] + [all[i]];
      DropClauseSnoc(all[..i], all[i], c);
      if all[i].1 != c {
        kept := kept + [all[i]];
      }
      i := i + 1;
    }
    assert all[..i] == all;
  }

  /** removeAlias over one more entry */
  lemma {:induction false} DropClauseSnoc(s: seq<(string, Clause)>, x: (string, Clause), c: Clause)
    ensures Query.DropClause(s + [x], c) == Query.DropClause(s, c) + (if x.1 == c then [] else [x])
  {
    if s == [] {
      assert [x][1..] == [];
    } else {
      assert (s + [x])[1..] == s[1..] + [x];
      DropClauseSnoc(s[1..], x, c);
      var head := if s[0].1 == c then [] else [s[0]];
      var tail := if x.1 == c then [] else [x];
      assert head + (Query.DropClause(s[1..], c) + tail) == (head + Query.DropClause(s[1..], c)) + tail;
    }
  }

  /** the loop of getSqlUpdate: each update bound in turn under `__` binders */
  method BindUpdates(updates: seq<(string, Value)>, mutations: seq<(string, string)>, prefix: string) returns (r: Result<Bound>)
    ensures r == Query.BindUpdates(updates, Bound([], []), mutations, prefix)
  {
    var b := Bound([], []);
    var i := 0;
    while i < |updates|
      invariant 0 <= i <= |updates|
      invariant Query.BindUpdates(updates[i..], b, mutations, prefix) == Query.BindUpdates(updates, Bound([], []), mutations, prefix)
    {
      Step(updates, i);
      var next := BindVariablesLoop(updates[i].0, updates[i].1, b, "__", "", mutations, prefix);
      if next.Err? {
        return Err(next.error);
      }
      b := next.value;
      i := i + 1;
    }
    return Ok(b);
  }

  /** r with the entries already parsed in front */
  function Prefixed(parsed: seq<(string, Value)>, r: Result<seq<(string, Value)>>): Result<seq<(string, Value)>> {
    if r.Err? then r else Ok(parsed + r.value)
  }

  /** `parseVars($vars)` */
  method ParseVars(vars: seq<(string, Value)>) returns (r: Result<seq<(string, Value)>>)
    ensures r == Query.ParseVars(vars)
  {
    var parsed: seq<(string, Value)> := [];
    var i := 0;
    assert vars[0..] == vars;
    assert Query.ParseVars(vars).Ok? ==> [] + Query.ParseVars(vars).value == Query.ParseVars(vars).value;
    while i < |vars|
      invariant 0 <= i <= |vars|
      invariant Query.ParseVars(vars) == Prefixed(parsed, Query.ParseVars(vars[i..]))
    {
      Step(vars, i);
      var p := Query.Parse(vars[i].1);
      if p.None? {
        return Err(InvalidState(InvalidBinderVar));
      }
      ghost var rest := Query.ParseVars(vars[i + 1..]);
      assert Query.ParseVars(vars[i..]) == Prefixed([(vars[i].0, p.value)], rest);
      assert rest.Ok? ==> parsed + ([(vars[i].0, p.value)] + rest.value) == (parsed + [(vars[i].0, p.value)]) + rest.value;
      parsed := parsed + [(vars[i].0, p.value)];
      i := i + 1;
    }
    assert vars[i..] == [];
    assert parsed + [] == parsed;
    return Ok(parsed);
  }

  /** `replaceLiterals($sql, $vars)` */
  method ReplaceLiterals(sql: string, vars: seq<(string, Value)>) returns (r: string)
    ensures r == Query.ReplaceLiterals(sql, vars)
  {
    r := sql;
    var i := 0;
    while i < |vars|
      invariant 0 <= i <= |vars|
      invariant Query.ReplaceLiterals(r, vars[i..]) == Query.ReplaceLiterals(sql, vars)
    {
      Step(vars, i);
      if vars[i].1.Literal? {
        r := ReplaceAll(r, ":" + vars[i].0, vars[i].1.sql);
      }
      i := i + 1;
    }
  }
}
