/** Properties of the GenericCollection query state: the binder table, the aliases,
    the WHERE compiler and the SQL it assembles. */
module QueryProps {
  import opened Php
  import opened Errors
  import opened Helpers
  import opened Query

  // ---------------------------------------------------------------------
  // bindVar and removeVars

  /** bindVar throws exactly when the name is set to a non-null value, and then changes
      nothing; otherwise it binds the value, adds the clause to the name's flags and
      leaves every other binder as it was. */
  lemma BindVarSpec(st: State, name: string, v: Value, c: Clause)
    ensures BindVar(st, name, v, c).err.Some? <==> !Free(st, name)
    ensures !Free(st, name) ==> BindVar(st, name, v, c) == Out(st, Some(AlreadyExists(BindVarExists, name)))
    ensures Free(st, name) ==> Get(BindVar(st, name, v, c).st.vars, name) == Some(v)
    ensures Free(st, name) ==> Flags(BindVar(st, name, v, c).st, name) == Flags(st, name) + {c}
    ensures BindVar(st, name, v, c).st.(vars := st.vars, varsFlags := st.varsFlags) == st
  {
    if Free(st, name) {
      GetPut(st.vars, name, v, name);
      GetPut(st.varsFlags, name, Flags(st, name) + {c}, name);
    }
  }

  /** bindVar leaves every other binder as it was. */
  lemma BindVarOthers(st: State, name: string, v: Value, c: Clause, other: string)
    requires other != name
    ensures Get(BindVar(st, name, v, c).st.vars, other) == Get(st.vars, other)
    ensures Flags(BindVar(st, name, v, c).st, other) == Flags(st, other)
  {
    if Free(st, name) {
      GetPut(st.vars, name, v, other);
      GetPut(st.varsFlags, name, Flags(st, name) + {c}, other);
    }
  }

  /** bindVar keeps the binder table consistent. */
  lemma BindVarValid(st: State, name: string, v: Value, c: Clause)
    requires Valid(st)
    ensures Valid(BindVar(st, name, v, c).st)
  {
    var o := BindVar(st, name, v, c);
    if o.err.None? {
      PutKeys(st.vars, name, v);
      PutKeys(st.varsFlags, name, Flags(st, name) + {c});
      PutUnique(st.vars, name, v);
      PutUnique(st.varsFlags, name, Flags(st, name) + {c});
      PutEntries(st.varsFlags, name, Flags(st, name) + {c});
    }
  }

  /** Binding the entries of an array keeps the binder table consistent and touches
      nothing but the binder table. */
  lemma {:induction false} BindAllValid(st: State, values: seq<(string, Value)>, c: Clause)
    requires Valid(st)
    decreases |values|
    ensures Valid(BindAll(st, values, c).st)
    ensures BindAll(st, values, c).st.(vars := st.vars, varsFlags := st.varsFlags) == st
  {
    if values != [] {
      var o1 := BindVar(st, values[0].0, values[0].1, c);
      BindVarValid(st, values[0].0, values[0].1, c);
      BindVarSpec(st, values[0].0, values[0].1, c);
      if o1.err.None? {
        BindAllValid(o1.st, values[1..], c);
      }
    }
  }

  /** Binding the entries of an array (whose keys are distinct) fails exactly when one of
      its names is already set to a non-null value. */
  lemma {:induction false} BindAllFails(st: State, values: seq<(string, Value)>, c: Clause)
    requires UniqueKeys(values)
    decreases |values|
    ensures BindAll(st, values, c).err.None? <==> forall n :: n in Keys(values) ==> Free(st, n)
    ensures BindAll(st, values, c).err.Some? ==>
              exists n :: n in Keys(values) && BindAll(st, values, c).err == Some(AlreadyExists(BindVarExists, n))
  {
    if values != [] {
      var n0, v0 := values[0].0, values[0].1;
      var o1 := BindVar(st, n0, v0, c);
      BindVarSpec(st, n0, v0, c);
      DistinctCons(n0, Keys(values[1..]));
      assert Keys(values) == [n0] + Keys(values[1..]);
      if o1.err.None? {
        BindAllFails(o1.st, values[1..], c);
        forall n | n in Keys(values[1..]) ensures Free(o1.st, n) <==> Free(st, n) {
          BindVarOthers(st, n0, v0, c, n);
        }
      }
    }
  }

  /** On success each name of the array holds its entry's value with the clause added to
      its flags, and every other binder is unchanged. */
  lemma {:induction false} BindAllBinds(st: State, values: seq<(string, Value)>, c: Clause, n: string)
    requires UniqueKeys(values)
    requires BindAll(st, values, c).err.None?
    decreases |values|
    ensures Get(BindAll(st, values, c).st.vars, n) == if n in Keys(values) then Get(values, n) else Get(st.vars, n)
    ensures Flags(BindAll(st, values, c).st, n) == if n in Keys(values) then Flags(st, n) + {c} else Flags(st, n)
  {
    if values != [] {
      var n0, v0 := values[0].0, values[0].1;
      var o1 := BindVar(st, n0, v0, c);
      BindVarSpec(st, n0, v0, c);
      DistinctCons(n0, Keys(values[1..]));
      assert Keys(values) == [n0] + Keys(values[1..]);
      BindAllBinds(o1.st, values[1..], c, n);
      if n != n0 {
        BindVarOthers(st, n0, v0, c, n);
      }
    }
  }

  function StripOne(f: Option<set<Clause>>, c: Clause): Option<set<Clause>> {
    if f.None? || f.value - {c} == {} then None else Some(f.value - {c})
  }

  /** Clearing c from every flag mask keeps the names unique, maps each name's mask to
      its mask without c (dropping an emptied one), keeps exactly the names that are not
      dead and keeps no empty mask; the dead names are those whose mask becomes empty. */
  lemma StripFlagSpec(f: seq<(string, set<Clause>)>, c: Clause)
    requires UniqueKeys(f)
    ensures UniqueKeys(StripFlag(f, c))
    ensures forall n :: Get(StripFlag(f, c), n) == StripOne(Get(f, n), c)
    ensures forall n :: n in Keys(StripFlag(f, c)) <==> n in Keys(f) && n !in DeadNames(f, c)
    ensures forall e :: e in StripFlag(f, c) ==> e.1 != {}
    ensures forall n :: n in DeadNames(f, c) <==> Get(f, n).Some? && Get(f, n).value - {c} == {}
  {
    StripFlagUnique(f, c);
    StripFlagNonEmpty(f, c);
    forall n ensures Get(StripFlag(f, c), n) == StripOne(Get(f, n), c)
      ensures n in DeadNames(f, c) <==> Get(f, n).Some? && Get(f, n).value - {c} == {}
    {
      StripFlagGet(f, c, n);
      DeadNamesGet(f, c, n);
    }
  }

  lemma {:induction false} StripFlagKeys(f: seq<(string, set<Clause>)>, c: Clause)
    ensures forall n :: n in Keys(StripFlag(f, c)) ==> n in Keys(f)
  {
    if f != [] {
      StripFlagKeys(f[1..], c);
      assert Keys(f) == [f[0].0] + Keys(f[1..]);
      if f[0].1 - {c} != {} {
        var r := StripFlag(f[1..], c);
        assert Keys([(f[0].0, f[0].1 - {c})] + r) == [f[0].0] + Keys(r);
      }
    }
  }

  lemma {:induction false} StripFlagUnique(f: seq<(string, set<Clause>)>, c: Clause)
    requires UniqueKeys(f)
    ensures UniqueKeys(StripFlag(f, c))
  {
    if f != [] {
      DistinctCons(f[0].0, Keys(f[1..]));
      assert Keys(f) == [f[0].0] + Keys(f[1..]);
      StripFlagUnique(f[1..], c);
      if f[0].1 - {c} != {} {
        var r := StripFlag(f[1..], c);
        StripFlagKeys(f[1..], c);
        assert Keys([(f[0].0, f[0].1 - {c})] + r) == [f[0].0] + Keys(r);
        DistinctCons(f[0].0, Keys(r));
      }
    }
  }

  lemma {:induction false} StripFlagNonEmpty(f: seq<(string, set<Clause>)>, c: Clause)
    ensures forall e :: e in StripFlag(f, c) ==> e.1 != {}
  {
    if f != [] {
      StripFlagNonEmpty(f[1..], c);
    }
  }

  lemma {:induction false} StripFlagGet(f: seq<(string, set<Clause>)>, c: Clause, n: string)
    requires UniqueKeys(f)
    ensures Get(StripFlag(f, c), n) == StripOne(Get(f, n), c)
  {
    if f != [] {
      DistinctCons(f[0].0, Keys(f[1..]));
      assert Keys(f) == [f[0].0] + Keys(f[1..]);
      StripFlagGet(f[1..], c, n);
      if f[0].0 == n {
        StripFlagKeys(f[1..], c);
        assert Get(f[1..], n).None?;
      }
    }
  }

  lemma {:induction false} DeadNamesGet(f: seq<(string, set<Clause>)>, c: Clause, n: string)
    requires UniqueKeys(f)
    ensures n in DeadNames(f, c) <==> Get(f, n).Some? && Get(f, n).value - {c} == {}
  {
    if f != [] {
      DistinctCons(f[0].0, Keys(f[1..]));
      assert Keys(f) == [f[0].0] + Keys(f[1..]);
      DeadNamesGet(f[1..], c, n);
      if n in DeadNames(f, c) {
        var i :| 0 <= i < |f| && f[i].1 - {c} == {} && f[i].0 == n;
        if i > 0 {
          assert f[1..][i - 1] == f[i];
          assert n in DeadNames(f[1..], c);
        }
      }
      if n in DeadNames(f[1..], c) {
        var i :| 0 <= i < |f[1..]| && f[1..][i].1 - {c} == {} && f[1..][i].0 == n;
        assert f[i + 1] == f[1..][i];
        assert n in DeadNames(f, c);
      }
      if f[0].0 == n && f[0].1 - {c} == {} {
        assert n in DeadNames(f, c);
      }
    }
  }

  /** removeVars(c) clears c from every binder's flags and deletes exactly the binders left
      with no flag; the others keep their values. */
  lemma RemoveVarsSpec(st: State, c: Clause)
    requires Valid(st)
    ensures var s := RemoveVars(st, c);
      && Valid(s)
      && (forall n :: Flags(s, n) == Flags(st, n) - {c})
      && (forall n :: Get(s.vars, n) == if Flags(st, n) - {c} == {} then None else Get(st.vars, n))
      && s.(vars := st.vars, varsFlags := st.varsFlags) == st
  {
    var s := RemoveVars(st, c);
    var dead := DeadNames(st.varsFlags, c);
    StripFlagSpec(st.varsFlags, c);
    RemoveKeysUnique(st.vars, dead);
    forall n ensures Get(s.vars, n) == if Flags(st, n) - {c} == {} then None else Get(st.vars, n) {
      if n !in Keys(st.varsFlags) {
        assert n !in Keys(st.vars);
      }
    }
  }

  // ---------------------------------------------------------------------
  // Aliases

  /** the alias names addAlias derives from the entries */
  function AliasNames(quote: string, tables: seq<(Key, Src)>): (r: seq<string>)
    ensures |r| == |tables| && forall i :: 0 <= i < |tables| ==> r[i] == AliasOf(quote, tables[i].0, tables[i].1)
  {
    seq(|tables|, i requires 0 <= i < |tables| => AliasOf(quote, tables[i].0, tables[i].1))
  }

  /** every name is a valid identifier, none is among the registered ones, no two agree */
  ghost predicate AliasesOk(names: seq<string>, registered: seq<string>) {
    && (forall i :: 0 <= i < |names| ==> IsValidIdentifier(names[i]) && names[i] !in registered)
    && Distinct(names)
  }

  lemma AliasesOkCons(a: string, rest: seq<string>, registered: seq<string>)
    ensures AliasesOk([a] + rest, registered) <==>
              IsValidIdentifier(a) && a !in registered && AliasesOk(rest, registered + [a])
  {
    var names := [a] + rest;
    DistinctCons(a, rest);
    if AliasesOk(names, registered) {
      assert IsValidIdentifier(names[0]) && names[0] !in registered;
      forall i | 0 <= i < |rest| ensures IsValidIdentifier(rest[i]) && rest[i] !in registered + [a] {
        assert rest[i] == names[i + 1];
      }
      assert AliasesOk(rest, registered + [a]);
    }
    if IsValidIdentifier(a) && a !in registered && AliasesOk(rest, registered + [a]) {
      forall i | 0 <= i < |names| ensures IsValidIdentifier(names[i]) && names[i] !in registered {
        if i > 0 {
          assert names[i] == rest[i - 1];
        }
      }
      assert a !in rest by {
        forall i | 0 <= i < |rest| ensures rest[i] != a {
          assert rest[i] !in registered + [a];
        }
      }
      assert Distinct(names);
    }
  }

  /** addAlias succeeds exactly when every derived alias is a valid identifier, no two
      entries give the same alias and none is registered yet. */
  lemma {:induction false} AddAliasFails(st: State, tables: seq<(Key, Src)>, c: Clause)
    decreases |tables|
    ensures AddAlias(st, tables, c).err.None? <==> AliasesOk(AliasNames(st.quote, tables), Keys(st.aliases))
  {
    if tables != [] {
      var names := AliasNames(st.quote, tables);
      var a := names[0];
      var rest := AliasNames(st.quote, tables[1..]);
      assert names == [a] + rest;
      AliasesOkCons(a, rest, Keys(st.aliases));
      if IsValidIdentifier(a) && a !in Keys(st.aliases) {
        var table := if tables[0].1.Text? then tables[0].1.sql else a;
        var s1 := st.(aliases := Put(st.aliases, a, c), tableAliases := Put(st.tableAliases, table, a));
        PutKeys(st.aliases, a, c);
        assert Keys(s1.aliases) == Keys(st.aliases) + [a];
        AddAliasFails(s1, tables[1..], c);
      }
    }
  }

  /** On success every derived alias is registered for the clause, the aliases already
      registered keep their clause, and nothing else is registered. */
  lemma {:induction false} AddAliasRegisters(st: State, tables: seq<(Key, Src)>, c: Clause, x: string)
    requires AddAlias(st, tables, c).err.None?
    decreases |tables|
    ensures Get(AddAlias(st, tables, c).st.aliases, x) ==
              if x in AliasNames(st.quote, tables) then Some(c) else Get(st.aliases, x)
    ensures AddAlias(st, tables, c).st.(aliases := st.aliases, tableAliases := st.tableAliases) == st
  {
    if tables != [] {
      var names := AliasNames(st.quote, tables);
      var a := names[0];
      assert names == [a] + AliasNames(st.quote, tables[1..]);
      var table := if tables[0].1.Text? then tables[0].1.sql else a;
      var s1 := st.(aliases := Put(st.aliases, a, c), tableAliases := Put(st.tableAliases, table, a));
      AddAliasRegisters(s1, tables[1..], c, x);
      GetPut(st.aliases, a, c, x);
    }
  }

  lemma {:induction false} AddAliasUnique(st: State, tables: seq<(Key, Src)>, c: Clause)
    requires UniqueKeys(st.aliases)
    decreases |tables|
    ensures UniqueKeys(AddAlias(st, tables, c).st.aliases)
  {
    if tables != [] {
      var a := AliasOf(st.quote, tables[0].0, tables[0].1);
      if IsValidIdentifier(a) && a !in Keys(st.aliases) {
        var table := if tables[0].1.Text? then tables[0].1.sql else a;
        PutUnique(st.aliases, a, c);
        AddAliasUnique(st.(aliases := Put(st.aliases, a, c), tableAliases := Put(st.tableAliases, table, a)), tables[1..], c);
      }
    }
  }

  /** removeAlias(c) drops exactly the aliases registered for c. */
  lemma DropClauseSpec(aliases: seq<(string, Clause)>, c: Clause, x: string)
    requires UniqueKeys(aliases)
    ensures UniqueKeys(DropClause(aliases, c))
    ensures Get(DropClause(aliases, c), x) == if Get(aliases, x) == Some(c) then None else Get(aliases, x)
  {
    DropClauseUnique(aliases, c);
    DropClauseGet(aliases, c, x);
  }

  /** removeAlias keeps no alias that was not registered */
  lemma {:induction false} DropClauseKeys(aliases: seq<(string, Clause)>, c: Clause)
    ensures forall y :: y in Keys(DropClause(aliases, c)) ==> y in Keys(aliases)
  {
    if aliases != [] {
      DropClauseKeys(aliases[1..], c);
      var r := DropClause(aliases[1..], c);
      if aliases[0].1 != c {
        assert Keys([aliases[0]] + r) == [aliases[0].0] + Keys(r);
      }
      assert Keys(aliases) == [aliases[0].0] + Keys(aliases[1..]);
    }
  }

  lemma {:induction false} DropClauseUnique(aliases: seq<(string, Clause)>, c: Clause)
    requires UniqueKeys(aliases)
    ensures UniqueKeys(DropClause(aliases, c))
  {
    if aliases != [] {
      DistinctCons(aliases[0].0, Keys(aliases[1..]));
      assert Keys(aliases) == [aliases[0].0] + Keys(aliases[1..]);
      DropClauseUnique(aliases[1..], c);
      if aliases[0].1 != c {
        var r := DropClause(aliases[1..], c);
        DropClauseKeys(aliases[1..], c);
        assert Keys([aliases[0]] + r) == [aliases[0].0] + Keys(r);
        DistinctCons(aliases[0].0, Keys(r));
      }
    }
  }

  lemma {:induction false} DropClauseGet(aliases: seq<(string, Clause)>, c: Clause, x: string)
    requires UniqueKeys(aliases)
    ensures Get(DropClause(aliases, c), x) == if Get(aliases, x) == Some(c) then None else Get(aliases, x)
  {
    if aliases != [] {
      DistinctCons(aliases[0].0, Keys(aliases[1..]));
      assert Keys(aliases) == [aliases[0].0] + Keys(aliases[1..]);
      DropClauseGet(aliases[1..], c, x);
      if aliases[0].0 == x {
        DropClauseKeys(aliases[1..], c);
        assert Get(aliases[1..], x).None?;
        assert Get(DropClause(aliases[1..], c), x).None?;
      }
    }
  }

  /** setJoin with no tables keeps the JOIN list but forgets the JOIN aliases and the
      binders only JOIN owned. */
  lemma SetJoinEmpty(st: State, condition: Option<string>, kind: Option<string>, x: string)
    requires Valid(st) && !st.loaded
    ensures var o := SetJoin(st, [], condition, [], kind);
      && o.err.None?
      && o.st.joins == st.joins
      && Get(o.st.aliases, x) == (if Get(st.aliases, x) == Some(JoinClause) then None else Get(st.aliases, x))
      && Get(o.st.vars, x) == (if Flags(st, x) - {JoinClause} == {} then None else Get(st.vars, x))
  {
    DropClauseSpec(st.aliases, JoinClause, x);
    RemoveVarsSpec(RemoveAlias(st, JoinClause), JoinClause);
  }

  // ---------------------------------------------------------------------
  // The WHERE compiler

  /** `:binder` for the binders numbered start, start+1, ..., start+k-1 */
  function Refs(prefix: string, start: nat, k: nat): (r: seq<string>)
    ensures |r| == k && forall j :: 0 <= j < k ==> r[j] == ":" + (prefix + NatToString(start + j))
  {
    seq(k, j requires 0 <= j < k => ":" + (prefix + NatToString(start + j)))
  }

  /** the binder list as the IN loop writes it: each reference after a comma but the first */
  function RefList(prefix: string, start: nat, k: nat): string {
    if k == 0 then ""
    else RefList(prefix, start, k - 1) + (if k - 1 != 0 then "," else "") + (":" + NthBinder(prefix, start + (k - 1)))
  }

  lemma RefListSnoc(prefix: string, start: nat, k: nat)
    ensures RefList(prefix, start, k + 1)
            == RefList(prefix, start, k) + (if k != 0 then "," else "") + (":" + NthBinder(prefix, start + k))
  {
  }

  /** the list the loop writes is the implode of the references with "," */
  lemma {:induction false} RefListImplode(prefix: string, start: nat, k: nat)
    ensures RefList(prefix, start, k) == Implode(",", Refs(prefix, start, k))
  {
    if k > 0 {
      RefListImplode(prefix, start, k - 1);
      var refs := Refs(prefix, start, k);
      assert refs[..k - 1] == Refs(prefix, start, k - 1);
      if k - 1 != 0 {
        assert Implode(",", refs) == Implode(",", refs[..k - 1]) + "," + refs[k - 1];
      }
    }
  }

  /** the non-null values, in order */
  function NonNull(vals: seq<Value>): seq<Value> {
    if vals == [] then [] else (if vals[0].Null? then [] else [vals[0]]) + NonNull(vals[1..])
  }

  /** no binder generateBinder will still hand out is set */
  ghost predicate FreeFrom(st: State) {
    forall m: nat :: m >= st.binderCounter ==> Free(st, NthBinder(st.binderName, m))
  }

  /** the name generateBinder hands out when the counter stands at m */
  function NthBinder(prefix: string, m: nat): string {
    prefix + NatToString(m)
  }

  lemma BinderFreeFrom(st: State, name: string, v: Value, c: Clause)
    requires FreeFrom(st) && name == Binder(st)
    ensures BindVar(Advance(st), name, v, c).err.None?
    ensures FreeFrom(BindVar(Advance(st), name, v, c).st)
    ensures BindVar(Advance(st), name, v, c).st.binderCounter == st.binderCounter + 1
    ensures BindVar(Advance(st), name, v, c).st.binderName == st.binderName
  {
    var s := Advance(st);
    BindVarSpec(s, name, v, c);
    assert Free(st, NthBinder(st.binderName, st.binderCounter));
    forall m: nat | m >= s.binderCounter
      ensures Free(BindVar(s, name, v, c).st, NthBinder(s.binderName, m))
    {
      PrefixedCounterInjective(st.binderName, m, st.binderCounter);
      assert Free(st, NthBinder(st.binderName, m));
      BindVarOthers(s, name, v, c, NthBinder(s.binderName, m));
    }
  }

  /** one binding step of the IN loop, when the binder it hands out is free */
  lemma WhereListStep(st: State, vals: seq<Value>, text: string, count: nat, sawNull: bool) returns (st': State, text': string)
    requires vals != [] && !vals[0].Null?
    requires BindVar(Advance(st), Binder(st), vals[0], WhereClause).err.None?
    ensures st' == BindVar(Advance(st), Binder(st), vals[0], WhereClause).st
    ensures st'.binderName == st.binderName && st'.binderCounter == st.binderCounter + 1
    ensures text' == text + (if count != 0 then "," else "") + (":" + NthBinder(st.binderName, st.binderCounter))
    ensures WhereList(st, vals, text, count, sawNull) == WhereList(st', vals[1..], text', count + 1, sawNull)
  {
    st' := BindVar(Advance(st), Binder(st), vals[0], WhereClause).st;
    text' := text + (if count != 0 then "," else "") + (":" + Binder(st));
  }

  /** The IN loop binds every non-null value to the next binder; it never fails while the
      binders it hands out are free. */
  lemma {:induction false} WhereListBinds(st: State, vals: seq<Value>, text: string, count: nat, sawNull: bool)
    requires FreeFrom(st)
    decreases |vals|
    ensures var l := WhereList(st, vals, text, count, sawNull);
      && l.o.err.None?
      && FreeFrom(l.o.st)
      && l.o.st.binderName == st.binderName
      && l.count == count + |NonNull(vals)|
      && l.o.st.binderCounter == st.binderCounter + |NonNull(vals)|
  {
    if vals != [] {
      if vals[0].Null? {
        WhereListBinds(st, vals[1..], text, count, true);
      } else {
        BinderFreeFrom(st, Binder(st), vals[0], WhereClause);
        var st', text' := WhereListStep(st, vals, text, count, sawNull);
        WhereListBinds(st', vals[1..], text', count + 1, sawNull);
      }
    }
  }

  /** binding the handed-out binder keeps the prefix and leaves the counter one further */
  lemma BindVarCounter(st: State, v: Value)
    ensures BindVar(Advance(st), Binder(st), v, WhereClause).st.binderName == st.binderName
    ensures BindVar(Advance(st), Binder(st), v, WhereClause).st.binderCounter == st.binderCounter + 1
  {
  }

  /** one non-null value of the IN loop, when its binding succeeds: the rest of the loop
      runs from the new state with the binder appended */
  lemma WhereListUnfold(st: State, vals: seq<Value>, text: string, count: nat, sawNull: bool)
    requires vals != [] && !vals[0].Null?
    requires BindVar(Advance(st), Binder(st), vals[0], WhereClause).err.None?
    ensures var l := WhereList(st, vals, text, count, sawNull);
      var r := WhereList(BindVar(Advance(st), Binder(st), vals[0], WhereClause).st, vals[1..],
                         text + (if count != 0 then "," else "") + (":" + Binder(st)), count + 1, sawNull);
      l.o.err == r.o.err && l.text == r.text && l.count == r.count
  {
  }

  /** The IN loop lists the binders it hands out comma-separated, in order, from the
      binder that stood at `start` when the loop began. */
  lemma {:induction false} WhereListText(st: State, vals: seq<Value>, text: string, count: nat, sawNull: bool, start: nat)
    requires WhereList(st, vals, text, count, sawNull).o.err.None?
    requires st.binderCounter == start + count
    requires text == RefList(st.binderName, start, count)
    decreases |vals|, 1
    ensures var l := WhereList(st, vals, text, count, sawNull);
      l.text == RefList(st.binderName, start, l.count)
  {
    if vals != [] {
      if vals[0].Null? {
        WhereListText(st, vals[1..], text, count, true, start);
      } else {
        WhereListTextBind(st, vals, text, count, sawNull, start);
      }
    }
  }

  /** the step of WhereListText for a non-null value */
  lemma {:induction false} WhereListTextBind(st: State, vals: seq<Value>, text: string, count: nat, sawNull: bool, start: nat)
    requires vals != [] && !vals[0].Null?
    requires WhereList(st, vals, text, count, sawNull).o.err.None?
    requires st.binderCounter == start + count
    requires text == RefList(st.binderName, start, count)
    decreases |vals|, 0
    ensures var l := WhereList(st, vals, text, count, sawNull);
      l.text == RefList(st.binderName, start, l.count)
  {
    var o := BindVar(Advance(st), Binder(st), vals[0], WhereClause);
    var text' := text + (if count != 0 then "," else "") + (":" + Binder(st));
    assert o.err.None?;
    WhereListUnfold(st, vals, text, count, sawNull);
    BindVarCounter(st, vals[0]);
    RefListSnoc(st.binderName, start, count);
    WhereListText(o.st, vals[1..], text', count + 1, sawNull, start);
  }

  /** The IN loop touches only the binder table and the counter. */
  lemma {:induction false} WhereListFrame(st: State, vals: seq<Value>, text: string, count: nat, sawNull: bool)
    decreases |vals|
    ensures var l := WhereList(st, vals, text, count, sawNull);
      l.o.st.(vars := st.vars, varsFlags := st.varsFlags, binderCounter := st.binderCounter) == st
    ensures WhereList(st, vals, text, count, sawNull).o.st.binderCounter >= st.binderCounter
  {
    if vals != [] {
      if vals[0].Null? {
        WhereListFrame(st, vals[1..], text, count, true);
      } else {
        var b := Binder(st);
        var o := BindVar(Advance(st), b, vals[0], WhereClause);
        BindVarSpec(Advance(st), b, vals[0], WhereClause);
        WhereListFrame(o.st, vals[1..], text + (if count != 0 then "," else "") + (":" + b), count + 1, sawNull);
      }
    }
  }

  /** A completed IN loop reports whether a null was among the values. */
  lemma {:induction false} WhereListNull(st: State, vals: seq<Value>, text: string, count: nat, sawNull: bool)
    requires WhereList(st, vals, text, count, sawNull).o.err.None?
    decreases |vals|
    ensures WhereList(st, vals, text, count, sawNull).sawNull == (sawNull || Null in vals)
  {
    if vals != [] {
      MemberCons(Null, vals);
      if vals[0].Null? {
        WhereListNull(st, vals[1..], text, count, true);
      } else {
        assert BindVar(Advance(st), Binder(st), vals[0], WhereClause).err.None?;
        var st', text' := WhereListStep(st, vals, text, count, sawNull);
        WhereListNull(st', vals[1..], text', count + 1, sawNull);
      }
    }
  }

  /** processWhere on a list of two or more values runs the IN loop after its reset */
  lemma ProcessWhereListShape(st: State, e: string, entries: seq<(Key, Value)>, not: bool, replace: bool)
    requires |entries| >= 2 && !IsAssociative(entries)
    ensures ProcessWhere(st, e, Arr(entries), not, replace) == AttachList(Prepare(st, replace), e, entries, not)
  {
  }

  /** the reset of processWhere leaves every binder free that was free, and when replacing
      a consistent state it empties the WHERE list */
  lemma PrepareFree(st: State, replace: bool)
    requires FreeFrom(st) && (replace ==> Valid(st))
    ensures FreeFrom(Prepare(st, replace))
    ensures Prepare(st, replace).where == if replace then [] else st.where
    ensures Prepare(st, replace).binderCounter == st.binderCounter
    ensures Prepare(st, replace).binderName == st.binderName
    ensures Prepare(st, replace).possibleValues == []
  {
    if replace {
      RemoveVarsSpec(st.(possibleValues := []), WhereClause);
    }
  }

  /** the IN-list branch of processWhere, from the state after its reset */
  lemma AttachListSpec(s1: State, e: string, entries: seq<(Key, Value)>, not: bool)
    requires FreeFrom(s1)
    ensures var o := AttachList(s1, e, entries, not);
      var k := |NonNull(ValuesOf(entries))|;
      var list := Implode(",", Refs(s1.binderName, s1.binderCounter, k));
      var tail := if Null !in ValuesOf(entries) then "" else if not then " AND " + e + " IS NOT NULL" else " OR " + e + " IS NULL";
      && o.err.None?
      && o.st.where == s1.where + ["(" + ((if not then e + " NOT IN (" + list + ")" else e + " IN (" + list + ")") + tail) + ")"]
      && o.st.binderCounter == s1.binderCounter + k
      && o.st.possibleValues == if not then s1.possibleValues else [(e, entries)]
  {
    var l := WhereListOutcome(s1, ValuesOf(entries));
    InConditionSpec(s1, l, e, entries, not);
  }

  /** the IN loop from its start, over values whose binders are all free */
  lemma WhereListOutcome(s1: State, vals: seq<Value>) returns (l: InList)
    requires FreeFrom(s1)
    ensures l == WhereList(s1, vals, "", 0, false)
    ensures l.o.err.None? && l.o.st.where == s1.where && l.o.st.possibleValues == s1.possibleValues
    ensures l.count == |NonNull(vals)| && l.o.st.binderCounter == s1.binderCounter + l.count
    ensures l.text == Implode(",", Refs(s1.binderName, s1.binderCounter, l.count))
    ensures l.sawNull == (Null in vals)
  {
    l := WhereListState(s1, vals);
    WhereListReport(s1, vals, l);
  }

  lemma WhereListState(s1: State, vals: seq<Value>) returns (l: InList)
    requires FreeFrom(s1)
    ensures l == WhereList(s1, vals, "", 0, false)
    ensures l.o.err.None? && l.o.st.where == s1.where && l.o.st.possibleValues == s1.possibleValues
    ensures l.count == |NonNull(vals)| && l.o.st.binderCounter == s1.binderCounter + l.count
  {
    l := WhereList(s1, vals, "", 0, false);
    WhereListBinds(s1, vals, "", 0, false);
    WhereListFrame(s1, vals, "", 0, false);
  }

  lemma WhereListReport(s1: State, vals: seq<Value>, l: InList)
    requires l == WhereList(s1, vals, "", 0, false) && l.o.err.None?
    ensures l.text == Implode(",", Refs(s1.binderName, s1.binderCounter, l.count))
    ensures l.sawNull == (Null in vals)
  {
    WhereListText(s1, vals, "", 0, false, s1.binderCounter);
    assert l.text == RefList(s1.binderName, s1.binderCounter, l.count);
    RefListImplode(s1.binderName, s1.binderCounter, l.count);
    WhereListNull(s1, vals, "", 0, false);
  }

  /** the statement built from a successful IN loop that left the WHERE list alone */
  lemma InConditionSpec(s1: State, l: InList, e: string, entries: seq<(Key, Value)>, not: bool)
    requires l.o.err.None?
    requires l.o.st.where == s1.where && l.o.st.possibleValues == s1.possibleValues
    requires l.text == Implode(",", Refs(s1.binderName, s1.binderCounter, l.count))
    requires l.sawNull == (Null in ValuesOf(entries))
    ensures var o := InCondition(l, e, entries, not);
      var list := Implode(",", Refs(s1.binderName, s1.binderCounter, l.count));
      var tail := if Null !in ValuesOf(entries) then "" else if not then " AND " + e + " IS NOT NULL" else " OR " + e + " IS NULL";
      && o.err.None?
      && o.st.where == s1.where + ["(" + ((if not then e + " NOT IN (" + list + ")" else e + " IN (" + list + ")") + tail) + ")"]
      && o.st.binderCounter == l.o.st.binderCounter
      && o.st.possibleValues == if not then s1.possibleValues else [(e, entries)]
  {
  }

  /** A list of two or more values, while the binders it needs are free, appends
      `(e IN (:b1,...,:bk))` over its k non-null values (NOT IN when negated), followed by
      ` OR e IS NULL` (` AND e IS NOT NULL`) when a null was among them; the counter
      advances by k and the list is recorded as the possible values unless negated. */
  lemma ProcessWhereList(st: State, e: string, entries: seq<(Key, Value)>, not: bool, replace: bool)
    requires |entries| >= 2 && !IsAssociative(entries)
    requires FreeFrom(st) && (replace ==> Valid(st))
    ensures var o := ProcessWhere(st, e, Arr(entries), not, replace);
      var k := |NonNull(ValuesOf(entries))|;
      var list := Implode(",", Refs(st.binderName, st.binderCounter, k));
      var tail := if Null !in ValuesOf(entries) then "" else if not then " AND " + e + " IS NOT NULL" else " OR " + e + " IS NULL";
      && o.err.None?
      && o.st.where == (if replace then [] else st.where)
                       + ["(" + ((if not then e + " NOT IN (" + list + ")" else e + " IN (" + list + ")") + tail) + ")"]
      && o.st.binderCounter == st.binderCounter + k
      && o.st.possibleValues == if not then [] else [(e, entries)]
  {
    PrepareFree(st, replace);
    AttachListSpec(Prepare(st, replace), e, entries, not);
    ProcessWhereListShape(st, e, entries, not, replace);
  }

  /** A single non-null value (a scalar or a one-element list), while the next binder is
      free, appends `(e = :b)` (`(e != :b)` when negated) and binds it under b for WHERE. */
  lemma ProcessWhereSingle(st: State, e: string, v: Value, not: bool, replace: bool)
    requires !v.Null? && !v.Arr?
    requires FreeFrom(st) && (replace ==> Valid(st))
    ensures var o := ProcessWhere(st, e, v, not, replace);
      var b := Binder(st);
      && o.err.None?
      && o.st.where == (if replace then [] else st.where) + [if not then "(" + e + " != :" + b + ")" else "(" + e + " = :" + b + ")"]
      && Get(o.st.vars, b) == Some(v)
      && WhereClause in Flags(o.st, b)
      && o.st.binderCounter == st.binderCounter + 1
      && o.st.possibleValues == if not then [] else [(e, [(IntKey(0), v)])]
  {
    var s1 := Prepare(st, replace);
    PrepareFree(st, replace);
    ProcessWhereSingleShape(st, e, v, not, replace);
    assert Free(s1, NthBinder(s1.binderName, s1.binderCounter));
    assert Binder(s1) == Binder(st);
    AttachSingleSpec(s1, e, v, not);
  }

  /** processWhere on a scalar treats it as the one-element list holding it */
  lemma ProcessWhereSingleShape(st: State, e: string, v: Value, not: bool, replace: bool)
    requires !v.Null? && !v.Arr?
    ensures ProcessWhere(st, e, v, not, replace) == AttachSingle(Prepare(st, replace), e, [(IntKey(0), v)], not)
  {
    assert Keys([(IntKey(0), v)]) == IntKeys(Range(0, 0));
  }

  /** the one-value branch of processWhere, from the state after its reset */
  lemma AttachSingleSpec(s1: State, e: string, v: Value, not: bool)
    requires !v.Null? && Free(s1, Binder(s1))
    ensures var o := AttachSingle(s1, e, [(IntKey(0), v)], not);
      var b := Binder(s1);
      && o.err.None?
      && o.st.where == s1.where + [if not then "(" + e + " != :" + b + ")" else "(" + e + " = :" + b + ")"]
      && Get(o.st.vars, b) == Some(v)
      && WhereClause in Flags(o.st, b)
      && o.st.binderCounter == s1.binderCounter + 1
      && o.st.possibleValues == if not then s1.possibleValues else [(e, [(IntKey(0), v)])]
  {
    var b := Binder(s1);
    var frag := if not then "(" + e + " != :" + b + ")" else "(" + e + " = :" + b + ")";
    BindVarSpec(AddWhere(Advance(s1), frag), b, v, WhereClause);
  }

  /** A null value, or a one-element list holding null, binds nothing: `(e)` / `!(e)` for
      null, `(e IS NULL)` / `(e IS NOT NULL)` for [null], where the counter still moves. */
  lemma ProcessWhereNull(st: State, e: string, not: bool, replace: bool)
    ensures var o := ProcessWhere(st, e, Null, not, replace);
      var base := if replace then RemoveVars(st, WhereClause) else st;
      && o.err.None?
      && o.st.where == (if replace then [] else st.where) + [if not then "!(" + e + ")" else "(" + e + ")"]
      && o.st.vars == base.vars && o.st.binderCounter == st.binderCounter
    ensures var o := ProcessWhere(st, e, Arr([(IntKey(0), Null)]), not, replace);
      var base := if replace then RemoveVars(st, WhereClause) else st;
      && o.err.None?
      && o.st.where == (if replace then [] else st.where) + [if not then "(" + e + " IS NOT NULL)" else "(" + e + " IS NULL)"]
      && o.st.vars == base.vars && o.st.binderCounter == st.binderCounter + 1
  {
    assert Keys([(IntKey(0), Null)]) == IntKeys(Range(0, 0));
  }

  /** An empty list matches nothing: `(1 = 0)`, and the negated form adds no condition. */
  lemma ProcessWhereEmpty(st: State, e: string, not: bool, replace: bool)
    ensures var o := ProcessWhere(st, e, Arr([]), not, replace);
      && o.err.None?
      && o.st.where == (if replace then [] else st.where) + (if not then [] else ["(1 = 0)"])
      && o.st.binderCounter == st.binderCounter
  {
    assert IsAssociative<Value>([]) by { IsAssociativeIff<Value>([]); }
  }

  /** A non-empty associative array needs a ':' placeholder in the expression; then the
      expression is appended as it is and every entry is bound for WHERE. */
  lemma ProcessWhereAssociative(st: State, e: string, entries: seq<(Key, Value)>, not: bool, replace: bool)
    requires entries != [] && IsAssociative(entries)
    ensures var o := ProcessWhere(st, e, Arr(entries), not, replace);
      var s0 := st.(possibleValues := []);
      var s1 := if replace then RemoveVars(s0, WhereClause).(where := []) else s0;
      && (!Contains(e, ":") ==> o == Out(s1, Some(InvalidArgument(NoBindVariable))))
      && (Contains(e, ":") ==> o == BindAll(AddWhere(s1, Wrap(e, not)), StringKeyed(entries), WhereClause))
  {
  }

  // ---------------------------------------------------------------------
  // SQL assembly

  /** a PHP list of strings renders its values, whatever the associative glue */
  lemma FragmentsOfList(parts: seq<string>, assocGlue: string, reverse: bool)
    ensures Fragments(AsList(parts), assocGlue, reverse) == parts
  {
    var f := Fragments(AsList(parts), assocGlue, reverse);
    forall i | 0 <= i < |parts| ensures f[i] == parts[i] {
      assert AsList(parts)[i] == (IntKey(i), parts[i]);
    }
  }

  /** The WHERE conditions are joined by AND after a single WHERE; none gives no clause. */
  lemma WhereSql(st: State)
    ensures ClauseString(" WHERE", AsList(st.where), " AND ", "", false, false)
            == if st.where == [] then "" else " WHERE " + Implode(" AND ", st.where)
  {
    FragmentsOfList(st.where, "", false);
  }

  /** An OFFSET without a LIMIT is preceded by LIMIT MAX_LIMIT, since MySQL accepts no
      OFFSET alone; a LIMIT always precedes the OFFSET. */
  lemma LimitTextOrder(limit: Option<int>, offset: Option<int>)
    ensures limit.None? && offset.None? ==> LimitText(limit, offset) == ""
    ensures limit.None? && offset.Some? ==>
              LimitText(limit, offset) == " LIMIT " + MaxLimit + " OFFSET " + IntToString(offset.value)
    ensures limit.Some? ==>
              LimitText(limit, offset) == " LIMIT " + IntToString(limit.value)
                                          + (if offset.None? then "" else " OFFSET " + IntToString(offset.value))
  {
    var tail := if offset.None? then "" else " OFFSET " + IntToString(offset.value);
    if limit.None? {
      assert LimitText(limit, offset) == "" + (if offset.Some? then " LIMIT " + MaxLimit else "") + tail;
      if offset.Some? {
        assert "" + (" LIMIT " + MaxLimit) + tail == " LIMIT " + MaxLimit + tail;
      }
    } else {
      var head := " LIMIT " + IntToString(limit.value);
      assert LimitText(limit, offset) == head + "" + tail;
      assert head + "" == head;
    }
  }

  /** setPage(p, n) selects the p-th page of n rows: n rows after the first (p-1)*n. */
  lemma SetPageSpec(st: State, page: int, onPage: int)
    requires !st.loaded
    ensures var o := SetPage(st, page, onPage);
      && o.err.None?
      && LimitSql(o.st) == " LIMIT " + IntToString(onPage) + " OFFSET " + IntToString((page - 1) * onPage)
  {
  }

  /** Every modifier setter refuses a loaded collection and then changes nothing. */
  lemma LoadedGuard(st: State, e: string, values: Value, n: Option<int>, page: int, onPage: int,
                    tables: seq<(Key, Src)>, vals: seq<(string, Value)>)
    requires st.loaded
    ensures Where(st, e, values) == Out(st, Some(Loaded))
    ensures WhereNot(st, e, values) == Out(st, Some(Loaded))
    ensures SetWhere(st, Some(e), values) == Out(st, Some(Loaded))
    ensures SetTake(st, n) == Out(st, Some(Loaded)) && SetSkip(st, n) == Out(st, Some(Loaded))
    ensures SetPage(st, page, onPage) == Out(st, Some(Loaded))
    ensures From(st, tables, vals) == Out(st, Some(Loaded)) && SetFrom(st, tables, vals) == Out(st, Some(Loaded))
    ensures Select(st, tables, vals) == Out(st, Some(Loaded)) && SetSelect(st, tables, vals, false) == Out(st, Some(Loaded))
    ensures OrderBy(st, tables, vals) == Out(st, Some(Loaded)) && SetOrderBy(st, tables, vals) == Out(st, Some(Loaded))
    ensures SetGroupBy(st, tables, None, vals) == Out(st, Some(Loaded))
    ensures SetJoin(st, tables, None, vals, None) == Out(st, Some(Loaded))
    ensures FetchGuard(st) == Some(Loaded) && LastValueGuard(st, Some(e)) == Some(Loaded)
  {
  }

  /** A DELETE refuses GROUP BY, then ORDER BY; an UPDATE refuses GROUP BY. */
  lemma DeleteUpdateRejections(st: State, updates: seq<(string, Value)>, ignore: bool, alias: Option<string>,
                               mutations: seq<(string, string)>)
    ensures GetSqlDelete(st).Err? <==> st.groupBy != [] || st.orderBy != []
    ensures st.groupBy != [] ==> GetSqlDelete(st) == Err(InvalidState(GroupByNotAllowed))
    ensures st.groupBy == [] && st.orderBy != [] ==> GetSqlDelete(st) == Err(InvalidState(OrderByNotAllowed))
    ensures st.groupBy != [] ==> GetSqlUpdate(st, updates, ignore, alias, mutations) == Err(InvalidState(GroupByNotAllowed))
    ensures UpdateQuery(st, [], ignore, alias, mutations) == Err(InvalidArgument(NoValueToUpdate))
  {
  }

  /** The alias prefix is the table itself under key 0, the alias under any other
      truthy key, and nothing without a FROM. */
  lemma GetPrefixSpec(st: State, dot: bool)
    ensures GetPrefix(st, dot).None? <==> st.from == []
    ensures st.from != [] && st.from[0].0 == IntKey(0) ==>
              GetPrefix(st, dot) == Some(Render(st.from[0].1) + (if dot then "." else ""))
    ensures st.from != [] && st.from[0].0.StrKey? && st.from[0].0.s != "" && st.from[0].0.s != "0" ==>
              GetPrefix(st, dot) == Some(st.from[0].0.s + (if dot then "." else ""))
  {
  }

  // ---------------------------------------------------------------------
  // setFullGroupBy

  /** As written, a SELECT column kept under its alias renders in GROUP BY as the
      expression glued to the alias. */
  lemma FullGroupByAsWrittenGarbles(st: State)
    requires !st.loaded && st.select == [(StrKey("name"), Text("this.name"))]
    ensures var o := SetFullGroupByAsWritten(st, [], None);
      && o.err.None?
      && ClauseString(" GROUP BY", RenderAll(o.st.groupBy), ",", "", false, false) == " GROUP BY this.namename"
  {
    assert !HasStar(st.select);
    assert ExceptKeys([]) == {};
    assert RemoveKeys(st.select, {}) == st.select;
    assert SetFullGroupByAsWritten(st, [], None).st.groupBy == st.select;
    var f := RenderAll(st.select);
    assert f == [(StrKey("name"), "this.name")];
    assert Fragment(StrKey("name"), "this.name", "", false) == "this.namename";
    assert Fragments(f, "", false) == ["this.namename"];
  }

  /** the expressions of a keyed list, in order */
  function Exprs(a: seq<(Key, Src)>): (r: seq<string>)
    ensures |r| == |a| && forall i :: 0 <= i < |a| ==> r[i] == Render(a[i].1)
  {
    seq(|a|, i requires 0 <= i < |a| => Render(a[i].1))
  }

  /** a GROUP BY made a list renders the expressions alone, comma-separated */
  lemma GroupByOfValues(kept: seq<(Key, Src)>)
    ensures ClauseString(" GROUP BY", RenderAll(AsList(ValuesOf(kept))), ",", "", false, false)
            == if kept == [] then "" else " GROUP BY " + Implode(",", Exprs(kept))
  {
    var g := RenderAll(AsList(ValuesOf(kept)));
    var f := Fragments(g, "", false);
    forall i | 0 <= i < |kept| ensures f[i] == Exprs(kept)[i] {
      assert g[i] == (IntKey(i), Render(kept[i].1));
    }
    assert f == Exprs(kept);
    assert " GROUP BY" + " " == " GROUP BY ";
  }

  /** setFullGroupBy fails on a SELECT holding '*' and then changes nothing. */
  lemma FullGroupByStar(st: State, except: seq<string>, having: Option<string>)
    requires !st.loaded
    ensures HasStar(st.select) <==> SetFullGroupBy(st, except, having).err.Some?
    ensures HasStar(st.select) ==> SetFullGroupBy(st, except, having) == Out(st, Some(InvalidState(FullGroupByWithStar)))
  {
  }

  /** Otherwise GROUP BY lists the selected expressions that are not excepted, in SELECT
      order, and only them. */
  lemma FullGroupByListsExpressions(st: State, except: seq<string>, having: Option<string>)
    requires !st.loaded && !HasStar(st.select)
    ensures var ks := ExceptKeys(except);
      var kept := RemoveKeys(st.select, ks);
      var o := SetFullGroupBy(st, except, having);
      && (forall i :: 0 <= i < |kept| ==> kept[i].0 !in ks && kept[i] in st.select)
      && ClauseString(" GROUP BY", RenderAll(o.st.groupBy), ",", "", false, false)
         == (if kept == [] then "" else " GROUP BY " + Implode(",", Exprs(kept)))
      && o.st.having == having
  {
    var ks := ExceptKeys(except);
    var kept := RemoveKeys(st.select, ks);
    forall i | 0 <= i < |kept| ensures kept[i].0 !in ks && kept[i] in st.select {
      assert kept[i].0 in Keys(kept);
      assert kept[i] in kept;
    }
    assert SetFullGroupBy(st, except, having).st.groupBy == AsList(ValuesOf(kept));
    GroupByOfValues(kept);
  }

  // ---------------------------------------------------------------------
  // Binder values handed to the database

  /** the binder's flags meet the mask (every binder meets no mask) */
  predicate Selected(st: State, name: string, mask: Option<set<Clause>>) {
    mask.None? || Flags(st, name) * mask.value != {}
  }

  lemma {:induction false} SelectVarsSpec(vars: seq<(string, Value)>, st: State, mask: Option<set<Clause>>, n: string)
    requires UniqueKeys(vars)
    ensures UniqueKeys(SelectVars(vars, st, mask))
    ensures Get(SelectVars(vars, st, mask), n) == if Selected(st, n, mask) then Get(vars, n) else None
  {
    if vars != [] {
      DistinctCons(vars[0].0, Keys(vars[1..]));
      SelectVarsSpec(vars[1..], st, mask, n);
      var rest := SelectVars(vars[1..], st, mask);
      assert forall x :: x in Keys(rest) ==> x in Keys(vars[1..]) by {
        forall x | x in Keys(rest) ensures x in Keys(vars[1..]) {
          SelectVarsSpec(vars[1..], st, mask, x);
        }
      }
      if Selected(st, vars[0].0, mask) {
        KeysConcat([vars[0]], rest);
        DistinctCons(vars[0].0, Keys(rest));
      }
    }
  }

  /** parseVars fails exactly when some value is neither scalar, null nor an entity;
      otherwise every name keeps its parsed value. */
  lemma {:induction false} ParseVarsSpec(vars: seq<(string, Value)>, n: string)
    ensures ParseVars(vars).Err? <==> exists i :: 0 <= i < |vars| && Parse(vars[i].1).None?
    ensures ParseVars(vars).Ok? ==> Keys(ParseVars(vars).value) == Keys(vars)
    ensures ParseVars(vars).Ok? && Get(vars, n).Some? ==> Get(ParseVars(vars).value, n) == Parse(Get(vars, n).value)
  {
    if vars != [] {
      ParseVarsSpec(vars[1..], n);
      if Parse(vars[0].1).Some? && ParseVars(vars[1..]).Ok? {
        var r := ParseVars(vars);
        assert Keys(r.value) == [vars[0].0] + Keys(ParseVars(vars[1..]).value);
        assert Keys(vars) == [vars[0].0] + Keys(vars[1..]);
      }
      if exists i :: 1 <= i < |vars| && Parse(vars[i].1).None? {
        var i :| 1 <= i < |vars| && Parse(vars[i].1).None?;
        assert vars[1..][i - 1] == vars[i];
      }
    }
  }

  /** getVars hands on exactly the binders whose flags meet the mask, each parsed; it
      fails when one of those holds an object or an array. */
  lemma GetVarsSpec(st: State, mask: Option<set<Clause>>, n: string)
    requires UniqueKeys(st.vars)
    ensures GetVars(st, mask).Ok? ==>
              Get(GetVars(st, mask).value, n) ==
                if Selected(st, n, mask) && Get(st.vars, n).Some? then Parse(Get(st.vars, n).value) else None
  {
    var sel := SelectVars(st.vars, st, mask);
    SelectVarsSpec(st.vars, st, mask, n);
    ParseVarsSpec(sel, n);
    if GetVars(st, mask).Ok? && Get(sel, n).None? {
      assert n !in Keys(GetVars(st, mask).value);
    }
  }

  /** Without a literal whose placeholder occurs in it, replaceLiterals leaves the SQL as it is. */
  lemma {:induction false} ReplaceLiteralsIdentity(sql: string, vars: seq<(string, Value)>)
    requires forall i :: 0 <= i < |vars| && vars[i].1.Literal? ==> !Contains(sql, ":" + vars[i].0)
    decreases |vars|
    ensures ReplaceLiterals(sql, vars) == sql
  {
    if vars != [] {
      assert forall i :: 0 <= i < |vars[1..]| && vars[1..][i].1.Literal? ==> !Contains(sql, ":" + vars[1..][i].0) by {
        forall i | 0 <= i < |vars[1..]| && vars[1..][i].1.Literal? ensures !Contains(sql, ":" + vars[1..][i].0) {
          assert vars[1..][i] == vars[i + 1];
        }
      }
      ReplaceLiteralsIdentity(sql, vars[1..]);
    }
  }
}
