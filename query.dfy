/** The query state of a StORM\GenericCollection and what every operation of the
    collection does to it, written as functions of the state.

    The state is the collection's modifiers (SELECT, FROM, JOIN, WHERE, GROUP BY,
    HAVING, ORDER BY, LIMIT, OFFSET), its binder table `vars` with the clause flags
    `varsFlags`, the alias registry, the binder counter, the possible values recorded
    by WHERE and the loaded flag. An operation that throws returns the state as it was
    at the throw point together with the error. */
module Query {
  import opened Php
  import opened Errors
  import opened Helpers

  /** MODIFIER_*_FLAG (SELECT 1, FROM 2, JOIN 4, WHERE 8, ORDER BY 16, GROUP BY 32);
      a flag mask is the set of its bits. */
  datatype Clause = SelectClause | FromClause | JoinClause | WhereClause | OrderByClause | GroupByClause

  /** MAX_LIMIT, the largest LIMIT MySQL accepts */
  const MaxLimit := "18446744073709551615"

  /** DEFAULT_JOIN */
  const DefaultJoin := "LEFT"

  /** a fragment of a clause: SQL text (a table, a column, an expression) or a nested
      collection, whose string form is its SELECT in brackets */
  datatype Src = Text(sql: string) | Nested(query: string)

  function Render(s: Src): string {
    match s
    case Text(t) => t
    case Nested(q) => "(" + q + ")"
  }

  function RenderAll(a: seq<(Key, Src)>): (r: seq<(Key, string)>)
    ensures |r| == |a| && forall i :: 0 <= i < |a| ==> r[i] == (a[i].0, Render(a[i].1))
  {
    seq(|a|, i requires 0 <= i < |a| => (a[i].0, Render(a[i].1)))
  }

  /** a PHP list: the keys 0, 1, ..., n-1 */
  function AsList<T>(s: seq<T>): (r: seq<(Key, T)>)
    ensures |r| == |s| && forall i :: 0 <= i < |s| ==> r[i] == (IntKey(i), s[i])
  {
    seq(|s|, i requires 0 <= i < |s| => (IntKey(i), s[i]))
  }

  /** one entry of the JOIN modifier: `[$type, $aliases, $condition]` */
  datatype Join = Join(kind: string, tables: seq<(Key, Src)>, condition: Option<string>)

  datatype State = State(
    select: seq<(Key, Src)>,
    from: seq<(Key, Src)>,
    joins: seq<Join>,
    where: seq<string>,
    groupBy: seq<(Key, Src)>,
    having: Option<string>,
    orderBy: seq<(Key, Src)>,
    limit: Option<int>,
    offset: Option<int>,
    vars: seq<(string, Value)>,
    varsFlags: seq<(string, set<Clause>)>,
    binderCounter: nat,
    aliases: seq<(string, Clause)>,
    tableAliases: seq<(string, string)>,
    possibleValues: seq<(string, seq<(Key, Value)>)>,
    loaded: bool,
    index: Option<string>,
    prefixIndex: bool,
    // fixed by the constructor
    binderName: string,
    quote: string,
    baseFrom: Option<seq<(Key, Src)>>,
    baseSelect: seq<(Key, Src)>)

  /** the state after an operation, and the exception it threw if any */
  datatype Out = Out(st: State, err: Option<Error>)

  /** The binder table is consistent: every bound name has a non-empty flag set and
      every flag set belongs to a bound name. */
  ghost predicate Valid(st: State) {
    && UniqueKeys(st.vars)
    && UniqueKeys(st.varsFlags)
    && UniqueKeys(st.aliases)
    && (forall n :: n in Keys(st.vars) <==> n in Keys(st.varsFlags))
    && (forall e :: e in st.varsFlags ==> e.1 != {})
  }

  /** `$this->varsFlags[$name]`, the empty mask when unset */
  function Flags(st: State, name: string): set<Clause> {
    match Get(st.varsFlags, name)
    case Some(f) => f
    case None => {}
  }

  /** isset($this->vars[$name]) is false: the name is unbound or bound to null */
  predicate Free(st: State, name: string) {
    var cur := Get(st.vars, name);
    cur.None? || cur.value == Null
  }

  /** every modifier setter starts with `if ($this->isLoaded()) throw ...` */
  function Guard(st: State, body: Out): Out {
    if st.loaded then Out(st, Some(Loaded)) else body
  }

  // ---------------------------------------------------------------------
  // Binders

  /** `bindVar($name, $value, $flag)` */
  function BindVar(st: State, name: string, v: Value, c: Clause): Out {
    if !Free(st, name) then Out(st, Some(AlreadyExists(BindVarExists, name)))
    else Out(st.(vars := Put(st.vars, name, v), varsFlags := Put(st.varsFlags, name, Flags(st, name) + {c})), None)
  }

  /** `foreach ($values as $k => $v) $this->bindVar($k, $v, $flag)`, stopping at the first throw */
  function BindAll(st: State, values: seq<(string, Value)>, c: Clause): Out
    decreases |values|
  {
    if values == [] then Out(st, None)
    else
      var o := BindVar(st, values[0].0, values[0].1, c);
      if o.err.Some? then o else BindAll(o.st, values[1..], c)
  }

  /** the flag entries that keep a bit once c is cleared */
  function StripFlag(flags: seq<(string, set<Clause>)>, c: Clause): seq<(string, set<Clause>)> {
    if flags == [] then []
    else if flags[0].1 - {c} == {} then StripFlag(flags[1..], c)
    else [(flags[0].0, flags[0].1 - {c})] + StripFlag(flags[1..], c)
  }

  /** the names whose flags become 0 once c is cleared */
  function DeadNames(flags: seq<(string, set<Clause>)>, c: Clause): set<string> {
    set i | 0 <= i < |flags| && flags[i].1 - {c} == {} :: flags[i].0
  }

  /** `removeVars($flag)` */
  function RemoveVars(st: State, c: Clause): State {
    st.(varsFlags := StripFlag(st.varsFlags, c), vars := RemoveKeys(st.vars, DeadNames(st.varsFlags, c)))
  }

  /** the name generateBinder returns: binderName followed by the counter */
  function Binder(st: State): string {
    st.binderName + NatToString(st.binderCounter)
  }

  /** the state after generateBinder */
  function Advance(st: State): State {
    st.(binderCounter := st.binderCounter + 1)
  }

  // ---------------------------------------------------------------------
  // Aliases

  /** `Strings::substring($s, 0, 1)` */
  function FirstChar(s: string): string {
    if s == [] then "" else s[..1]
  }

  /** `Strings::substring($s, 1, -1)`: without the first and the last character */
  function Unquote(s: string): string {
    if |s| < 2 then "" else s[1..|s| - 1]
  }

  /** the alias addAlias registers for one entry: the table itself for an integer key,
      without the surrounding quote characters */
  function AliasOf(quote: string, k: Key, t: Src): string {
    var a := if k.IntKey? then Render(t) else k.s;
    if FirstChar(a) == quote then Unquote(a) else a
  }

  /** `addAlias($aliases, $modifier)` */
  function AddAlias(st: State, tables: seq<(Key, Src)>, c: Clause): Out
    decreases |tables|
  {
    if tables == [] then Out(st, None)
    else
      var a := AliasOf(st.quote, tables[0].0, tables[0].1);
      if !IsValidIdentifier(a) then Out(st, Some(InvalidState(InvalidIdentifier)))
      else if a in Keys(st.aliases) then Out(st, Some(AlreadyExists(AliasExists, a)))
      else
        var table := if tables[0].1.Text? then tables[0].1.sql else a;
        AddAlias(st.(aliases := Put(st.aliases, a, c), tableAliases := Put(st.tableAliases, table, a)), tables[1..], c)
  }

  function DropClause(aliases: seq<(string, Clause)>, c: Clause): seq<(string, Clause)> {
    if aliases == [] then []
    else if aliases[0].1 == c then DropClause(aliases[1..], c)
    else [aliases[0]] + DropClause(aliases[1..], c)
  }

  /** `removeAlias($modifier)` */
  function RemoveAlias(st: State, c: Clause): State {
    st.(aliases := DropClause(st.aliases, c))
  }

  // ---------------------------------------------------------------------
  // WHERE

  function Wrap(e: string, not: bool): string {
    if not then "!(" + e + ")" else "(" + e + ")"
  }

  function AddWhere(st: State, fragment: string): State {
    st.(where := st.where + [fragment])
  }

  /** `(string) $k` on every key */
  function StringKeyed(a: seq<(Key, Value)>): (r: seq<(string, Value)>)
    ensures |r| == |a| && forall i :: 0 <= i < |a| ==> r[i] == (KeyString(a[i].0), a[i].1)
  {
    seq(|a|, i requires 0 <= i < |a| => (KeyString(a[i].0), a[i].1))
  }

  /** where the IN loop stands: the state, the binder list so far, how many binders it
      holds and whether a null was skipped */
  datatype InList = InList(o: Out, text: string, count: nat, sawNull: bool)

  /** the loop of processWhere over a list of two or more values */
  function WhereList(st: State, vals: seq<Value>, text: string, count: nat, sawNull: bool): InList
    decreases |vals|
  {
    if vals == [] then InList(Out(st, None), text, count, sawNull)
    else if vals[0].Null? then WhereList(st, vals[1..], text, count, true)
    else
      var b := Binder(st);
      var o := BindVar(Advance(st), b, vals[0], WhereClause);
      if o.err.Some? then InList(o, text, count, sawNull)
      else WhereList(o.st, vals[1..], text + (if count != 0 then "," else "") + (":" + b), count + 1, sawNull)
  }

  /** `processWhere($expression, $values, $not, $replace)`; a non-array value stands for
      the one-element list holding it */
  function ProcessWhere(st: State, e: string, values: Value, not: bool, replace: bool): Out {
    Attach(Prepare(st, replace), e, values, not)
  }

  /** the start of processWhere: forget the possible values, and on replace drop the WHERE
      binders and conditions */
  function Prepare(st: State, replace: bool): State {
    var s0 := st.(possibleValues := []);
    if replace then RemoveVars(s0, WhereClause).(where := []) else s0
  }

  /** the rest of processWhere, by the shape of the values */
  function Attach(s1: State, e: string, values: Value, not: bool): Out {
    if values.Null? then Out(AddWhere(s1, Wrap(e, not)), None)
    else
      var entries := if values.Arr? then values.entries else [(IntKey(0), values)];
      if IsAssociative(entries) && |entries| != 0 then
        if !Contains(e, ":") then Out(s1, Some(InvalidArgument(NoBindVariable)))
        else BindAll(AddWhere(s1, Wrap(e, not)), StringKeyed(entries), WhereClause)
      else if |entries| == 1 then AttachSingle(s1, e, entries, not)
      else if |entries| != 0 then AttachList(s1, e, entries, not)
      else if not then Out(s1, None)
      else Out(AddWhere(s1, "(1 = 0)"), None)
  }

  /** one value: `e = :binder`, or `e IS NULL` for null */
  function AttachSingle(s1: State, e: string, entries: seq<(Key, Value)>, not: bool): Out
    requires |entries| == 1
  {
    var b := Binder(s1);
    var s2 := Advance(s1);
    if entries[0].1.Null? then
      Out(AddWhere(s2, if not then "(" + e + " IS NOT NULL)" else "(" + e + " IS NULL)"), None)
    else
      var o := BindVar(AddWhere(s2, if not then "(" + e + " != :" + b + ")" else "(" + e + " = :" + b + ")"),
                       b, entries[0].1, WhereClause);
      if o.err.Some? || not then o else Out(o.st.(possibleValues := [(e, entries)]), None)
  }

  /** several values: `e IN (:b1,:b2,...)`, with `OR e IS NULL` when one of them is null */
  function AttachList(s1: State, e: string, entries: seq<(Key, Value)>, not: bool): Out {
    InCondition(WhereList(s1, ValuesOf(entries), "", 0, false), e, entries, not)
  }

  /** what processWhere does once the IN loop has finished */
  function InCondition(l: InList, e: string, entries: seq<(Key, Value)>, not: bool): Out {
    if l.o.err.Some? then l.o
    else
      var w := (if not then e + " NOT IN (" + l.text + ")" else e + " IN (" + l.text + ")")
               + (if !l.sawNull then "" else if not then " AND " + e + " IS NOT NULL" else " OR " + e + " IS NULL");
      var s3 := if not then l.o.st else l.o.st.(possibleValues := [(e, entries)]);
      Out(AddWhere(s3, "(" + w + ")"), None)
  }

  /** `setWhere($expression, $values)`: a null expression clears the WHERE list only */
  function SetWhere(st: State, e: Option<string>, values: Value): Out {
    Guard(st, if e.None? then Out(st.(where := []), None) else ProcessWhere(st, e.value, values, false, true))
  }

  /** `where($expression, $values)` */
  function Where(st: State, e: string, values: Value): Out {
    Guard(st, ProcessWhere(st, e, values, false, false))
  }

  /** `setWhereNot($expression, $values)` */
  function SetWhereNot(st: State, e: string, values: Value): Out {
    Guard(st, ProcessWhere(st, e, values, true, true))
  }

  /** `whereNot($expression, $values)` */
  function WhereNot(st: State, e: string, values: Value): Out {
    Guard(st, ProcessWhere(st, e, values, true, false))
  }

  /** `whereMatch($conditions, $columnPrefix)`: one where() per condition */
  function WhereMatch(st: State, conditions: seq<(Key, Value)>, prefix: string): Out
    decreases |conditions|
  {
    if conditions == [] then Out(st, None)
    else
      var o := Where(st, prefix + KeyString(conditions[0].0), conditions[0].1);
      if o.err.Some? then o else WhereMatch(o.st, conditions[1..], prefix)
  }

  /** one bound of whereBetween: `expression mark :binder` with the value bound to a fresh binder */
  function BetweenBound(st: State, e: string, v: Value, mark: string): Out {
    var b := Binder(st);
    ProcessWhere(Advance(st), e + " " + mark + " :" + b, Arr([(StrKey(b), v)]), false, false)
  }

  /** `whereBetween($expression, $from, $to, $fromEquals, $toEquals)`: only truthy bounds count */
  function WhereBetween(st: State, e: string, lo: Value, hi: Value, loEquals: bool, hiEquals: bool): Out {
    Guard(st,
      var o := if Truthy(lo) then BetweenBound(st, e, lo, if loEquals then ">=" else ">") else Out(st, None);
      if o.err.Some? || !Truthy(hi) then o
      else BetweenBound(o.st, e, hi, if hiEquals then "<=" else "<"))
  }

  // ---------------------------------------------------------------------
  // The other modifiers

  /** `from($from, $values)` */
  function From(st: State, from: seq<(Key, Src)>, values: seq<(string, Value)>): Out {
    Guard(st,
      var o := AddAlias(st, from, FromClause);
      if o.err.Some? then o
      else BindAll(o.st.(from := Merge(o.st.from, from)), values, FromClause))
  }

  /** `setFrom($from, $values)` */
  function SetFrom(st: State, from: seq<(Key, Src)>, values: seq<(string, Value)>): Out {
    Guard(st,
      var o := AddAlias(RemoveAlias(RemoveVars(st, FromClause), FromClause), from, FromClause);
      if o.err.Some? then o
      else BindAll(o.st.(from := from), values, FromClause))
  }

  function KeyTruthy(k: Key): bool {
    match k
    case IntKey(i) => i != 0
    case StrKey(s) => s != "" && s != "0"
  }

  /** `getPrefix($dot)`: the first FROM alias (the table itself under key 0), null without FROM */
  function GetPrefix(st: State, dot: bool): Option<string> {
    if st.from == [] then None
    else
      var d := if dot then "." else "";
      var k := st.from[0].0;
      if k == IntKey(0) then Some(Render(st.from[0].1) + d)
      else if KeyTruthy(k) then Some(KeyString(k) + d)
      else Some("")
  }

  /** `setSelect($select, $values, $keepIndex)` */
  function SetSelect(st: State, select: seq<(Key, Src)>, values: seq<(string, Value)>, keepIndex: bool): Out {
    Guard(st,
      var o := BindAll(RemoveVars(st, SelectClause).(select := select), values, SelectClause);
      if o.err.Some? || keepIndex then o else Out(o.st.(index := None), None))
  }

  /** `select($select, $values)` */
  function Select(st: State, select: seq<(Key, Src)>, values: seq<(string, Value)>): Out {
    Guard(st, BindAll(st.(select := Merge(st.select, select)), values, SelectClause))
  }

  /** `setTake($number)` */
  function SetTake(st: State, n: Option<int>): Out {
    Guard(st, Out(st.(limit := n), None))
  }

  /** `setSkip($number)` */
  function SetSkip(st: State, n: Option<int>): Out {
    Guard(st, Out(st.(offset := n), None))
  }

  /** `setPage($page, $onPage)` */
  function SetPage(st: State, page: int, onPage: int): Out {
    Guard(st, Out(st.(offset := Some((page - 1) * onPage), limit := Some(onPage)), None))
  }

  /** `setOrderBy($order, $values)` */
  function SetOrderBy(st: State, order: seq<(Key, Src)>, values: seq<(string, Value)>): Out {
    Guard(st, BindAll(RemoveVars(st.(orderBy := order), OrderByClause), values, OrderByClause))
  }

  /** `orderBy($order, $values)` */
  function OrderBy(st: State, order: seq<(Key, Src)>, values: seq<(string, Value)>): Out {
    Guard(st, BindAll(st.(orderBy := Merge(st.orderBy, order)), values, OrderByClause))
  }

  /** `setGroupBy($groups, $having, $values)` */
  function SetGroupBy(st: State, groups: seq<(Key, Src)>, having: Option<string>, values: seq<(string, Value)>): Out {
    Guard(st, BindAll(RemoveVars(st.(groupBy := groups, having := having), GroupByClause), values, GroupByClause))
  }

  /** `Arrays::contains($select, '*')`, a strict comparison */
  predicate HasStar(select: seq<(Key, Src)>) {
    exists i :: 0 <= i < |select| && select[i].1 == Text("*")
  }

  /** the array keys the excepted column names stand for */
  function ExceptKeys(except: seq<string>): set<Key> {
    set s | s in except :: NormKey(s)
  }

  /** `setFullGroupBy($exceptColumns, $having)` as written: GROUP BY becomes the SELECT
      array, keys included, without the excepted keys */
  function SetFullGroupByAsWritten(st: State, except: seq<string>, having: Option<string>): Out {
    Guard(st,
      if HasStar(st.select) then Out(st, Some(InvalidState(FullGroupByWithStar)))
      else
        var ks := ExceptKeys(except);
        Out(st.(groupBy := RemoveKeys(st.select, ks), having := having), None))
  }

  /** `setFullGroupBy` as intended: GROUP BY lists the selected expressions, without the
      aliases that render them unusable (see SetFullGroupByAsWritten) */
  function SetFullGroupBy(st: State, except: seq<string>, having: Option<string>): (o: Out)
    ensures o.err.None? ==> IsList(o.st.groupBy)
  {
    Guard(st,
      if HasStar(st.select) then Out(st, Some(InvalidState(FullGroupByWithStar)))
      else
        var ks := ExceptKeys(except);
        Out(st.(groupBy := AsList(ValuesOf(RemoveKeys(st.select, ks))), having := having), None))
  }

  /** `$type ?: DEFAULT_JOIN` */
  function JoinKind(kind: Option<string>): string {
    if kind.None? || kind.value == "" || kind.value == "0" then DefaultJoin else kind.value
  }

  /** `setJoin($from, $condition, $values, $type)`: with no tables the old JOIN list stays */
  function SetJoin(st: State, from: seq<(Key, Src)>, condition: Option<string>, values: seq<(string, Value)>,
                   kind: Option<string>): Out
  {
    Guard(st,
      var o := AddAlias(RemoveVars(RemoveAlias(st, JoinClause), JoinClause), from, JoinClause);
      if o.err.Some? then o
      else
        var s := if from != [] then o.st.(joins := [Join(JoinKind(kind), from, condition)]) else o.st;
        BindAll(s, values, JoinClause))
  }

  /** `join($from, $condition, $values, $type)` */
  function AddJoin(st: State, from: seq<(Key, Src)>, condition: string, values: seq<(string, Value)>,
                   kind: Option<string>): Out
  {
    Guard(st,
      var o := AddAlias(st, from, JoinClause);
      if o.err.Some? then o
      else BindAll(o.st.(joins := o.st.joins + [Join(JoinKind(kind), from, Some(condition))]), values, JoinClause))
  }

  /** `setIndex($index, $prefixIndex)` */
  function SetIndex(st: State, index: Option<string>, prefixIndex: bool): Out {
    Guard(st, Out(st.(index := index, prefixIndex := prefixIndex), None))
  }

  /** `init()`: SELECT back to the base select, FROM to the base from, everything else
      emptied; the aliases are not reset */
  function Init(st: State): Out {
    var o1 := SetSelect(st, st.baseSelect, [], true);
    if o1.err.Some? then o1
    else
      var s1 := o1.st.(from := []);
      var o2 := if s1.baseFrom.Some? then SetFrom(s1, s1.baseFrom.value, []) else Out(s1, None);
      if o2.err.Some? then o2
      else Out(ResetModifiers(o2.st), None)
  }

  /** the end of init(): every modifier but SELECT and FROM emptied, the binders and the
      possible values forgotten */
  function ResetModifiers(st: State): State {
    st.(joins := [], where := [], groupBy := [], having := None, orderBy := [], limit := None,
        offset := None, binderCounter := 0, vars := [], varsFlags := [], possibleValues := [])
  }

  /** `clear($clearModifiers)` */
  function Clear(st: State, clearModifiers: bool): Out {
    var s := st.(loaded := false);
    if clearModifiers then Init(s) else Out(s, None)
  }

  /** the state a new collection starts from, before its constructor calls init() */
  function Pristine(objectId: nat, quote: string, baseFrom: Option<seq<(Key, Src)>>, baseSelect: seq<(Key, Src)>,
                    index: Option<string>): State
  {
    State([], [], [], [], [], None, [], None, None, [], [], 0, [], [], [], false, index, true,
          "__var" + NatToString(objectId), quote, baseFrom, baseSelect)
  }

  /** `__construct`: the binder name is BINDER_NAME followed by spl_object_id */
  function Construct(objectId: nat, quote: string, baseFrom: Option<seq<(Key, Src)>>, baseSelect: seq<(Key, Src)>,
                     index: Option<string>): Out
  {
    Init(Pristine(objectId, quote, baseFrom, baseSelect, index))
  }

  /** `getPossibleValues($column)` */
  function GetPossibleValues(st: State, column: string): seq<(Key, Value)> {
    match Get(st.possibleValues, column)
    case Some(v) => v
    case None => []
  }

  /** the guard of fetch() and firstValue() */
  function FetchGuard(st: State): Option<Error> {
    if st.loaded then Some(Loaded) else None
  }

  /** the guards of lastValue(): loaded, then an empty column name */
  function LastValueGuard(st: State, column: Option<string>): Option<Error> {
    if st.loaded then Some(Loaded)
    else if column.None? || column.value == "" || column.value == "0" then Some(InvalidArgument(EmptyColumn))
    else None
  }

  // ---------------------------------------------------------------------
  // Binder values handed to the database

  /** the binders whose flags meet the mask; all of them for no mask */
  function SelectVars(vars: seq<(string, Value)>, st: State, mask: Option<set<Clause>>): seq<(string, Value)> {
    if vars == [] then []
    else
      var rest := SelectVars(vars[1..], st, mask);
      if mask.None? || Flags(st, vars[0].0) * mask.value != {} then [vars[0]] + rest else rest
  }

  /** one binder value as parseVars hands it on: booleans become 0/1, entities their
      primary key, and any other object or array is refused */
  function Parse(v: Value): Option<Value> {
    if IsScalarOrNull(v) then Some(BoolAsInt(v)) else if v.EntityRef? then Some(Str(v.pk)) else None
  }

  /** `parseVars($vars)` */
  function ParseVars(vars: seq<(string, Value)>): Result<seq<(string, Value)>> {
    if vars == [] then Ok([])
    else
      var parsed := Parse(vars[0].1);
      if parsed.None? then Err(InvalidState(InvalidBinderVar))
      else
        var rest := ParseVars(vars[1..]);
        if rest.Err? then rest else Ok([(vars[0].0, parsed.value)] + rest.value)
  }

  /** `getVars($flags)` */
  function GetVars(st: State, mask: Option<set<Clause>>): Result<seq<(string, Value)>> {
    ParseVars(SelectVars(st.vars, st, mask))
  }

  /** `replaceLiterals($sql, $vars)`: each Literal replaces `:name` in the text */
  function ReplaceLiterals(sql: string, vars: seq<(string, Value)>): string
    decreases |vars|
  {
    if vars == [] then sql
    else
      var s := if vars[0].1.Literal? then ReplaceAll(sql, ":" + vars[0].0, vars[0].1.sql) else sql;
      ReplaceLiterals(s, vars[1..])
  }

  // ---------------------------------------------------------------------
  // SQL assembly

  function ConditionText(c: Option<string>): string {
    if c.None? then "" else c.value
  }

  function JoinSql(j: Join): string {
    ClauseString(" " + j.kind + " JOIN", RenderAll(j.tables), ",", " AS ", false, false)
      + " ON (" + ConditionText(j.condition) + ")"
  }

  function JoinsSql(joins: seq<Join>): string {
    if joins == [] then "" else JoinsSql(joins[..|joins| - 1]) + JoinSql(joins[|joins| - 1])
  }

  /** `createSqlPrefix($select, $from, $indexSelect)` */
  function SqlPrefix(st: State, select: bool, from: bool, indexSelect: seq<(Key, Src)>): string {
    (if select then ClauseString("SELECT", RenderAll(Merge(indexSelect, st.select)), ",", " AS ", false, false) else "")
    + (if from then ClauseString((if select then " " else "") + "FROM", RenderAll(st.from), ",", " AS ", false, false) else "")
    + JoinsSql(st.joins)
  }

  /** the LIMIT and OFFSET part of createSqlSuffix: an OFFSET without a LIMIT gets the
      largest MySQL limit */
  function LimitText(limit: Option<int>, offset: Option<int>): string {
    (if limit.None? then "" else " LIMIT " + IntToString(limit.value))
    + (if limit.None? && offset.Some? then " LIMIT " + MaxLimit else "")
    + (if offset.None? then "" else " OFFSET " + IntToString(offset.value))
  }

  function LimitSql(st: State): string {
    LimitText(st.limit, st.offset)
  }

  /** `createSqlSuffix($having, $orderBy)` */
  function SqlSuffix(st: State, having: bool, orderBy: bool): string {
    ClauseString(" WHERE", AsList(st.where), " AND ", "", false, false)
    + (if having then
         ClauseString(" GROUP BY", RenderAll(st.groupBy), ",", "", false, false)
         + (if st.having.None? then "" else " HAVING " + st.having.value)
       else "")
    + (if orderBy then ClauseString(" ORDER BY", RenderAll(st.orderBy), ",", " ", false, true) else "")
    + LimitSql(st)
  }

  /** the result of getSql(): it may rewrite `SELECT[0] = '*'` to the prefixed star */
  datatype Compiled = Compiled(st: State, sql: Result<string>)

  function IndexTruthy(index: Option<string>): bool {
    index.Some? && index.value != "" && index.value != "0"
  }

  /** `$index ? [$select[$index] ?? $index] : []` */
  function IndexSelect(st: State): seq<(Key, Src)> {
    if !IndexTruthy(st.index) then []
    else
      match Get(st.select, NormKey(st.index.value))
      case Some(s) => [(IntKey(0), s)]
      case None => [(IntKey(0), Text(st.index.value))]
  }

  /** `getSql()` */
  function GetSql(st: State): Compiled {
    var indexSelect := IndexSelect(st);
    var star := indexSelect != [] && Get(st.select, IntKey(0)) == Some(Text("*"));
    if star && |st.from| > 1 then Compiled(st, Err(InvalidState(IndexAndStarWithoutPrefix)))
    else
      var prefix := GetPrefix(st, true);
      var s := if star then st.(select := Put(st.select, IntKey(0), Text((if prefix.None? then "" else prefix.value) + "*")))
               else st;
      var sql := SqlPrefix(s, true, true, if s.prefixIndex then indexSelect else []) + SqlSuffix(s, true, true);
      Compiled(s, Ok(ReplaceLiterals(sql, s.vars)))
  }

  /** `getSqlDelete()` */
  function GetSqlDelete(st: State): Result<string> {
    if st.groupBy != [] then Err(InvalidState(GroupByNotAllowed))
    else if st.orderBy != [] then Err(InvalidState(OrderByNotAllowed))
    else
      var alias := GetPrefix(st, false);
      var sql := "DELETE " + (if alias.None? then "" else alias.value) + " " + SqlPrefix(st, false, true, [])
                 + SqlSuffix(st, false, false);
      Ok(ReplaceLiterals(sql, st.vars))
  }

  /** the binders of the SET list */
  function BindUpdates(updates: seq<(string, Value)>, b: Bound, mutations: seq<(string, string)>, prefix: string): Result<Bound>
    decreases |updates|
  {
    if updates == [] then Ok(b)
    else
      var r := BindVariables(updates[0].0, updates[0].1, b, "__", "", mutations, prefix);
      if r.Err? then r else BindUpdates(updates[1..], r.value, mutations, prefix)
  }

  /** the SQL of an UPDATE and the values that replace the caller's `$updates` */
  datatype UpdateSql = UpdateSql(sql: string, values: seq<(string, Value)>)

  /** `getSqlUpdate($updates, $ignore, $alias)`; mutations are the connection's available
      mutations, empty for a plain Connection */
  function GetSqlUpdate(st: State, updates: seq<(string, Value)>, ignore: bool, alias: Option<string>,
                        mutations: seq<(string, string)>): Result<UpdateSql>
  {
    if st.groupBy != [] then Err(InvalidState(GroupByNotAllowed))
    else
      var r := BindUpdates(updates, Bound([], []), mutations, if alias.None? then "" else alias.value + ".");
      if r.Err? then Err(r.error)
      else
        var values := r.value.values;
        var sql := ClauseString("UPDATE" + (if ignore then " IGNORE" else ""), RenderAll(st.from), ",", " AS ", false, false)
                   + SqlPrefix(st, false, false, [])
                   + ClauseString(" SET", NormKeys(r.value.binds), ",", "=", false, false) + " "
                   + SqlSuffix(st, false, true);
        Ok(UpdateSql(ReplaceLiterals(sql, Union(values, st.vars)), values))
  }

  /** what delete() sends to the connection: the DELETE and the FROM, JOIN and WHERE binders */
  function DeleteQuery(st: State): Result<(string, seq<(string, Value)>)> {
    var sql := GetSqlDelete(st);
    if sql.Err? then Err(sql.error)
    else
      var vars := GetVars(st, Some({FromClause, JoinClause, WhereClause}));
      if vars.Err? then Err(vars.error) else Ok((sql.value, vars.value))
  }

  /** what update() sends to the connection: the UPDATE, and the FROM, JOIN, WHERE and
      ORDER BY binders followed by the SET values */
  function UpdateQuery(st: State, values: seq<(string, Value)>, ignore: bool, alias: Option<string>,
                       mutations: seq<(string, string)>): Result<(string, seq<(string, Value)>)>
  {
    if values == [] then Err(InvalidArgument(NoValueToUpdate))
    else
      var u := GetSqlUpdate(st, values, ignore, alias, mutations);
      if u.Err? then Err(u.error)
      else
        var vars := GetVars(st, Some({FromClause, JoinClause, WhereClause, OrderByClause}));
        if vars.Err? then Err(vars.error) else Ok((u.value.sql, Union(vars.value, u.value.values)))
  }
}
