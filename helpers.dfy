/** StORM\Helpers: the static helpers the query builder and the repositories share. */
module Helpers {
  import opened Php
  import opened Errors

  // ---------------------------------------------------------------------
  // isAssociative

  function IntKeys(r: seq<int>): (ks: seq<Key>)
    ensures |ks| == |r| && forall i :: 0 <= i < |r| ==> ks[i] == IntKey(r[i])
  {
    seq(|r|, i requires 0 <= i < |r| => IntKey(r[i]))
  }

  /** `array_keys($array) !== range(0, count($array) - 1)` */
  function IsAssociative<V>(a: seq<(Key, V)>): bool {
    Keys(a) != IntKeys(Range(0, |a| - 1))
  }

  /** An array is associative exactly when it is empty (range(0, -1) is [0, -1])
      or its keys are not 0, 1, ..., n-1 in order. */
  lemma IsAssociativeIff<V>(a: seq<(Key, V)>)
    ensures IsAssociative(a) <==> a == [] || !IsList(a)
  {
    var r := IntKeys(Range(0, |a| - 1));
    if a == [] {
      assert |r| == 2;
    } else if IsList(a) {
      assert Keys(a) == r;
    } else {
      var i :| 0 <= i < |a| && a[i].0 != IntKey(i);
      assert Keys(a)[i] != r[i];
    }
  }

  // ---------------------------------------------------------------------
  // isValidIdentifier: preg_match('/[a-z_\-0-9]/i', $name)

  predicate IdentChar(c: char) {
    'a' <= c <= 'z' || 'A' <= c <= 'Z' || '0' <= c <= '9' || c == '_' || c == '-'
  }

  /** The regular expression scans the name for one character of the class. */
  function IsValidIdentifier(name: string): (r: bool)
    ensures r <==> exists i :: 0 <= i < |name| && IdentChar(name[i])
  {
    if name == [] then false
    else if IdentChar(name[0]) then true
    else
      var r := IsValidIdentifier(name[1..]);
      assert r ==> exists i :: 0 <= i < |name| && IdentChar(name[i]) by {
        if r {
          var i :| 0 <= i < |name[1..]| && IdentChar(name[1..][i]);
          assert IdentChar(name[i + 1]);
        }
      }
      assert (exists i :: 0 <= i < |name| && IdentChar(name[i])) ==> r by {
        if exists i :: 0 <= i < |name| && IdentChar(name[i]) {
          var i :| 0 <= i < |name| && IdentChar(name[i]);
          assert i > 0 && IdentChar(name[1..][i - 1]);
        }
      }
      r
  }

  // ---------------------------------------------------------------------
  // createSqlClauseString

  /** one rendered fragment: the value for an integer key, otherwise value, glue, key
      (key first when reversed) */
  function Fragment(k: Key, v: string, assocGlue: string, reverse: bool): string {
    match k
    case IntKey(_) => v
    case StrKey(s) => if !reverse then v + assocGlue + s else s + assocGlue + v
  }

  function Fragments(f: seq<(Key, string)>, assocGlue: string, reverse: bool): (r: seq<string>)
    ensures |r| == |f| && forall i :: 0 <= i < |f| ==> r[i] == Fragment(f[i].0, f[i].1, assocGlue, reverse)
  {
    seq(|f|, i requires 0 <= i < |f| => Fragment(f[i].0, f[i].1, assocGlue, reverse))
  }

  /** The reference rendering of a clause: nothing for no fragments, otherwise the prefix,
      a space and the fragments joined by glue, in brackets on request. */
  function ClauseString(prefix: string, fragments: seq<(Key, string)>, glue: string,
                        assocGlue: string, brackets: bool, reverse: bool): string
  {
    if fragments == [] then ""
    else
      var body := Implode(glue, Fragments(fragments, assocGlue, reverse));
      if brackets then prefix + " (" + body + ")" else prefix + " " + body
  }

  lemma FragmentsSnoc(f: seq<(Key, string)>, i: nat, assocGlue: string, reverse: bool)
    requires i < |f|
    ensures Fragments(f[..i + 1], assocGlue, reverse)
            == Fragments(f[..i], assocGlue, reverse) + [Fragment(f[i].0, f[i].1, assocGlue, reverse)]
  {
    assert f[..i + 1][i] == f[i];
  }

  /** one loop step: the glue (unless first) and the next fragment extend the joined prefix */
  lemma ClauseStep(f: seq<(Key, string)>, i: nat, glue: string, assocGlue: string, reverse: bool, s: string)
    requires i < |f| && s == Implode(glue, Fragments(f[..i], assocGlue, reverse))
    ensures (if i != 0 then s + glue else s) + Fragment(f[i].0, f[i].1, assocGlue, reverse)
            == Implode(glue, Fragments(f[..i + 1], assocGlue, reverse))
  {
    FragmentsSnoc(f, i, assocGlue, reverse);
    ImplodeSnoc(glue, Fragments(f[..i], assocGlue, reverse), Fragment(f[i].0, f[i].1, assocGlue, reverse));
  }

  /** `Helpers::createSqlClauseString`, with its loop over the fragments. */
  method CreateSqlClauseString(prefix: string, fragments: seq<(Key, string)>, glue: string,
                               assocGlue: string, brackets: bool, reverse: bool) returns (sql: string)
    ensures sql == ClauseString(prefix, fragments, glue, assocGlue, brackets, reverse)
    ensures fragments == [] <==> sql == ""
  {
    if |fragments| == 0 {
      return "";
    }
    var i := 0;
    var s := "";
    while i < |fragments|
      invariant 0 <= i <= |fragments|
      invariant s == Implode(glue, Fragments(fragments[..i], assocGlue, reverse))
    {
      var piece := Fragment(fragments[i].0, fragments[i].1, assocGlue, reverse);
      ClauseStep(fragments, i, glue, assocGlue, reverse, s);
      if i != 0 {
        s := s + glue;
      }
      s := s + piece;
      i := i + 1;
    }
    assert fragments[..i] == fragments;
    sql := if brackets then prefix + " (" + s + ")" else prefix + " " + s;
    assert |sql| > 0;
  }

  // ---------------------------------------------------------------------
  // bindVariables

  /** the by-reference arrays bindVariables fills: binder name => value, binder => column */
  datatype Bound = Bound(values: seq<(string, Value)>, binds: seq<(string, string)>)

  /** the binder name: the column is the property with every '.' replaced by '_' */
  function BinderColumn(property: string): string {
    ReplaceAll(property, ".", "_")
  }

  /** one entry of an array value: a mutation code and its value */
  function BindMutations(entries: seq<(Key, Value)>, column: string, b: Bound, varPrefix: string,
                         varPostfix: string, mutations: seq<(string, string)>, prefix: string): Result<Bound>
  {
    if entries == [] then Ok(b)
    else
      var code := KeyString(entries[0].0);
      match Get(mutations, code)
      case None => Err(InvalidArgument(UnknownMutation(code)))
      case Some(suffix) =>
        var realProp := column + suffix;
        var name := varPrefix + realProp + varPostfix;
        var b' := Bound(Put(b.values, name, BoolAsInt(entries[0].1)), Put(b.binds, ":" + name, prefix + realProp));
        BindMutations(entries[1..], column, b', varPrefix, varPostfix, mutations, prefix)
  }

  /** An array value fails exactly when one of its keys is not an available mutation. */
  lemma {:induction false} BindMutationsFails(entries: seq<(Key, Value)>, column: string, b: Bound, varPrefix: string,
                                              varPostfix: string, mutations: seq<(string, string)>, prefix: string)
    ensures BindMutations(entries, column, b, varPrefix, varPostfix, mutations, prefix).Err? <==>
            exists i :: 0 <= i < |entries| && KeyString(entries[i].0) !in Keys(mutations)
  {
    if entries != [] {
      var code := KeyString(entries[0].0);
      if Get(mutations, code).Some? {
        var suffix := Get(mutations, code).value;
        var realProp := column + suffix;
        var name := varPrefix + realProp + varPostfix;
        var b' := Bound(Put(b.values, name, BoolAsInt(entries[0].1)), Put(b.binds, ":" + name, prefix + realProp));
        BindMutationsFails(entries[1..], column, b', varPrefix, varPostfix, mutations, prefix);
        if exists i :: 0 <= i < |entries| && KeyString(entries[i].0) !in Keys(mutations) {
          var i :| 0 <= i < |entries| && KeyString(entries[i].0) !in Keys(mutations);
          assert entries[1..][i - 1] == entries[i];
        }
        if exists i :: 0 <= i < |entries[1..]| && KeyString(entries[1..][i].0) !in Keys(mutations) {
          var i :| 0 <= i < |entries[1..]| && KeyString(entries[1..][i].0) !in Keys(mutations);
          assert entries[i + 1] == entries[1..][i];
        }
      }
    }
  }

  /** `Helpers::bindVariables($property, $rawValue, $values, $binds, $varPrefix, $varPostfix, $mutations, $prefix)` */
  function BindVariables(property: string, raw: Value, b: Bound, varPrefix: string, varPostfix: string,
                         mutations: seq<(string, string)>, prefix: string): Result<Bound>
  {
    var column := BinderColumn(property);
    var name := varPrefix + column + varPostfix;
    match raw
    case Arr(entries) => BindMutations(entries, column, b, varPrefix, varPostfix, mutations, prefix)
    case Null => Ok(Bound(Put(b.values, name, raw), Put(b.binds, ":" + name, prefix + property)))
    case Bool(_) => Ok(Bound(Put(b.values, name, BoolAsInt(raw)), Put(b.binds, ":" + name, prefix + property)))
    case Int(_) => Ok(Bound(Put(b.values, name, raw), Put(b.binds, ":" + name, prefix + property)))
    case Str(_) => Ok(Bound(Put(b.values, name, raw), Put(b.binds, ":" + name, prefix + property)))
    case Literal(sql) => Ok(Bound(b.values, Put(b.binds, sql, prefix + property)))
    case Sub(text, vars) => Ok(Bound(Union(b.values, vars), Put(b.binds, text, prefix + property)))
    case EntityRef(pk) => Ok(Bound(Put(b.values, name, Str(pk)), Put(b.binds, ":" + name, prefix + property)))
    case Obj(_, t) =>
      if t.None? then Err(InvalidState(InvalidBinderVar))
      else Ok(Bound(Put(b.values, name, Str(t.value)), Put(b.binds, ":" + name, prefix + property)))
  }

  /** A scalar or null is bound under `varPrefix.column.varPostfix` (booleans as 0/1), its binder
      `:name` points at `prefix.property`, and no other binder changes. */
  lemma BindScalar(property: string, raw: Value, b: Bound, varPrefix: string, varPostfix: string,
                   mutations: seq<(string, string)>, prefix: string, other: string)
    requires IsScalarOrNull(raw)
    ensures var name := varPrefix + BinderColumn(property) + varPostfix;
            var r := BindVariables(property, raw, b, varPrefix, varPostfix, mutations, prefix);
            && r.Ok?
            && Get(r.value.values, name) == Some(BoolAsInt(raw))
            && Get(r.value.binds, ":" + name) == Some(prefix + property)
            && (other != name ==> Get(r.value.values, other) == Get(b.values, other))
            && (other != ":" + name ==> Get(r.value.binds, other) == Get(b.binds, other))
  {
    var name := varPrefix + BinderColumn(property) + varPostfix;
    GetPut(b.values, name, BoolAsInt(raw), name);
    GetPut(b.values, name, BoolAsInt(raw), other);
    GetPut(b.binds, ":" + name, prefix + property, ":" + name);
    GetPut(b.binds, ":" + name, prefix + property, other);
  }

  /** The source's loop over the entries of an array value. */
  method BindMutationsLoop(entries: seq<(Key, Value)>, column: string, b: Bound, varPrefix: string,
                           varPostfix: string, mutations: seq<(string, string)>, prefix: string) returns (r: Result<Bound>)
    ensures r == BindMutations(entries, column, b, varPrefix, varPostfix, mutations, prefix)
  {
    var values, binds := b.values, b.binds;
    var i := 0;
    while i < |entries|
      invariant 0 <= i <= |entries|
      invariant BindMutations(entries, column, b, varPrefix, varPostfix, mutations, prefix)
             == BindMutations(entries[i..], column, Bound(values, binds), varPrefix, varPostfix, mutations, prefix)
    {
      var code := KeyString(entries[i].0);
      var suffix := Get(mutations, code);
      if suffix.None? {
        return Err(InvalidArgument(UnknownMutation(code)));
      }
      var realProp := column + suffix.value;
      var name := varPrefix + realProp + varPostfix;
      ghost var before := Bound(values, binds);
      values := Put(values, name, BoolAsInt(entries[i].1));
      binds := Put(binds, ":" + name, prefix + realProp);
      assert entries[i..][0] == entries[i] && entries[i..][1..] == entries[i + 1..];
      assert BindMutations(entries[i..], column, before, varPrefix, varPostfix, mutations, prefix)
          == BindMutations(entries[i + 1..], column, Bound(values, binds), varPrefix, varPostfix, mutations, prefix);
      i := i + 1;
    }
    return Ok(Bound(values, binds));
  }

  /** `Helpers::bindVariables` as the source runs it, looping over an array value's entries. */
  method BindVariablesLoop(property: string, raw: Value, b: Bound, varPrefix: string, varPostfix: string,
                           mutations: seq<(string, string)>, prefix: string) returns (r: Result<Bound>)
    ensures r == BindVariables(property, raw, b, varPrefix, varPostfix, mutations, prefix)
  {
    if raw.Arr? {
      r := BindMutationsLoop(raw.entries, BinderColumn(property), b, varPrefix, varPostfix, mutations, prefix);
    } else {
      r := BindVariables(property, raw, b, varPrefix, varPostfix, mutations, prefix);
    }
  }

  // ---------------------------------------------------------------------
  // filterInputArray

  predicate IsColumnKey(k: Key, columns: seq<string>) {
    k.StrKey? && k.s in columns
  }

  /** the entries whose key is one of the columns, in order */
  function KeptEntries(values: seq<(Key, Value)>, columns: seq<string>): seq<(Key, Value)> {
    if values == [] then []
    else (if IsColumnKey(values[0].0, columns) then [values[0]] else []) + KeptEntries(values[1..], columns)
  }

  /** the keys of the entries that are not columns, in order */
  function ExtraKeys(values: seq<(Key, Value)>, columns: seq<string>): seq<Key> {
    if values == [] then []
    else (if IsColumnKey(values[0].0, columns) then [] else [values[0].0]) + ExtraKeys(values[1..], columns)
  }

  /** After filtering, a key reads its old value when it names a column and is absent otherwise. */
  lemma {:induction false} KeptEntriesGet(values: seq<(Key, Value)>, columns: seq<string>, k: Key)
    ensures Get(KeptEntries(values, columns), k) == if IsColumnKey(k, columns) then Get(values, k) else None
  {
    if values != [] {
      KeptEntriesGet(values[1..], columns, k);
      var head := if IsColumnKey(values[0].0, columns) then [values[0]] else [];
      GetConcat(head, KeptEntries(values[1..], columns), k);
    }
  }

  /** `Helpers::filterInputArray`: NotExists for the first extra key when not silent */
  function FilterInputArray(values: seq<(Key, Value)>, columns: seq<string>, silent: bool): Result<seq<(Key, Value)>> {
    var extra := ExtraKeys(values, columns);
    if !silent && extra != [] then Err(NotExists(Property, KeyString(extra[0])))
    else Ok(KeptEntries(values, columns))
  }

  method FilterInputArrayLoop(values: seq<(Key, Value)>, columns: seq<string>, silent: bool)
    returns (r: Result<seq<(Key, Value)>>)
    ensures r == FilterInputArray(values, columns, silent)
  {
    var kept: seq<(Key, Value)> := [];
    var mess: seq<Key> := [];
    var i := 0;
    while i < |values|
      invariant 0 <= i <= |values|
      invariant kept + KeptEntries(values[i..], columns) == KeptEntries(values, columns)
      invariant mess + ExtraKeys(values[i..], columns) == ExtraKeys(values, columns)
    {
      assert values[i..][1..] == values[i + 1..];
      if IsColumnKey(values[i].0, columns) {
        kept := kept + [values[i]];
      } else {
        mess := mess + [values[i].0];
      }
      i := i + 1;
    }
    assert values[i..] == [];
    assert KeptEntries(values[i..], columns) == [] && ExtraKeys(values[i..], columns) == [];
    assert kept == KeptEntries(values, columns) && mess == ExtraKeys(values, columns);
    if !silent && mess != [] {
      return Err(NotExists(Property, KeyString(mess[0])));
    }
    return Ok(kept);
  }

  // ---------------------------------------------------------------------
  // getBestSimilarString

  function Min3(a: nat, b: nat, c: nat): nat {
    if a <= b && a <= c then a else if b <= c then b else c
  }

  /** `levenshtein($a, $b, 10, 11, 10)`: insertion 10, replacement 11, deletion 10 */
  function Lev(a: string, b: string): nat
    decreases |a| + |b|
  {
    if a == [] then 10 * |b|
    else if b == [] then 10 * |a|
    else Min3(Lev(a[..|a| - 1], b) + 10,
              Lev(a, b[..|b| - 1]) + 10,
              Lev(a[..|a| - 1], b[..|b| - 1]) + (if a[|a| - 1] == b[|b| - 1] then 0 else 11))
  }

  /** `Strings::length($value) / 4 + 1) * 10 + .1` compared with an integer distance d:
      d < 2.5 * len + 10.1 exactly when 10 * d <= 25 * len + 100 */
  predicate UnderThreshold(d: nat, value: string) {
    10 * d <= 25 * |value| + 100
  }

  /** array_unique: the first occurrence of each string, in order */
  function Dedupe(s: seq<string>): (r: seq<string>)
    ensures forall x :: x in r <==> x in s
    ensures Distinct(r)
  {
    if s == [] then []
    else
      var t := Dedupe(s[..|s| - 1]);
      var r := if s[|s| - 1] in t then t else t + [s[|s| - 1]];
      assert forall x :: x in s <==> x in s[..|s| - 1] || x == s[|s| - 1] by {
        assert s == s[..|s| - 1] + [s[|s| - 1]];
      }
      r
  }

  /** the weighted Levenshtein distance to `value`, as a function of the candidate */
  function DistanceTo(value: string): string -> nat {
    x => Lev(x, value)
  }

  /** a candidate is considered when it differs from the value and is under the threshold */
  predicate Qualifies(item: string, value: string, dist: string -> nat) {
    item != value && UnderThreshold(dist(item), value)
  }

  predicate NoneQualifies(u: seq<string>, value: string, dist: string -> nat) {
    forall i :: 0 <= i < |u| ==> !Qualifies(u[i], value, dist)
  }

  /** u[j] is best and no earlier candidate is as close, no later one closer */
  predicate FirstBest(u: seq<string>, j: int, best: string, value: string, dist: string -> nat) {
    && 0 <= j < |u| && u[j] == best
    && (forall i :: 0 <= i < j && Qualifies(u[i], value, dist) ==> dist(u[i]) > dist(best))
    && (forall i :: j < i < |u| && Qualifies(u[i], value, dist) ==> dist(u[i]) >= dist(best))
  }

  /** `Helpers::getBestSimilarString`: the first candidate with the strictly smallest distance
      under the threshold, never the value itself. */
  method GetBestSimilarString(value: string, possibilities: seq<string>) returns (best: Option<string>)
    ensures best.None? <==> NoneQualifies(Dedupe(possibilities), value, DistanceTo(value))
    ensures best.Some? ==> best.value in possibilities && Qualifies(best.value, value, DistanceTo(value))
    ensures best.Some? ==> exists j :: FirstBest(Dedupe(possibilities), j, best.value, value, DistanceTo(value))
  {
    var u := Dedupe(possibilities);
    var at;
    best, at := BestOf(value, u, DistanceTo(value));
    if best.Some? {
      assert u[at] in u;
    }
  }

  /** the loop over the de-duplicated candidates; `min10` is ten times `$min`, which starts
      at the threshold `(length / 4 + 1) * 10 + .1` and then holds the best distance */
  method BestOf(value: string, u: seq<string>, dist: string -> nat) returns (best: Option<string>, bestAt: int)
    ensures best.None? <==> NoneQualifies(u, value, dist)
    ensures best.Some? ==> Qualifies(best.value, value, dist) && FirstBest(u, bestAt, best.value, value, dist)
  {
    best := None;
    bestAt := 0;
    var min10 := 25 * |value| + 101;
    var i := 0;
    while i < |u|
      invariant 0 <= i <= |u|
      invariant best.None? ==> min10 == 25 * |value| + 101
      invariant best.Some? ==> min10 == 10 * dist(best.value)
      invariant best.None? <==> forall t :: 0 <= t < i ==> !Qualifies(u[t], value, dist)
      invariant best.Some? ==> 0 <= bestAt < i && u[bestAt] == best.value && Qualifies(best.value, value, dist)
      invariant best.Some? ==> forall t :: 0 <= t < bestAt && Qualifies(u[t], value, dist) ==> dist(u[t]) > dist(best.value)
      invariant best.Some? ==> forall t :: bestAt < t < i && Qualifies(u[t], value, dist) ==> dist(u[t]) >= dist(best.value)
    {
      var item := u[i];
      if item != value {
        var len := dist(item);
        if 10 * len < min10 {
          forall t | 0 <= t < i && Qualifies(u[t], value, dist) ensures dist(u[t]) > len {
            if best.Some? && t == bestAt {
              assert u[t] == best.value;
            }
          }
          min10 := 10 * len;
          best := Some(item);
          bestAt := i;
        }
      }
      i := i + 1;
    }
  }

  // ---------------------------------------------------------------------
  // castScalar

  predicate IsDigit(c: char) { '0' <= c <= '9' }

  predicate IsSpace(c: char) { c == ' ' || c == '\t' || c == '\n' || c == '\r' || c == '\U{C}' || c == '\U{B}' }

  /** the longest prefix of decimal digits */
  function LeadingDigits(s: string): (r: string)
    ensures |r| <= |s| && r == s[..|r|]
  {
    if s == [] || !IsDigit(s[0]) then [] else [s[0]] + LeadingDigits(s[1..])
  }

  function DigitsValue(ds: string): nat
    requires forall i :: 0 <= i < |ds| ==> IsDigit(ds[i])
  {
    if ds == [] then 0
    else
      assert IsDigit(ds[|ds| - 1]);
      DigitsValue(ds[..|ds| - 1]) * 10 + (ds[|ds| - 1] as int - '0' as int)
  }

  function SkipSpaces(s: string): (r: string)
    ensures |r| <= |s|
  {
    if s != [] && IsSpace(s[0]) then SkipSpaces(s[1..]) else s
  }

  lemma LeadingDigitsAreDigits(s: string)
    ensures forall i :: 0 <= i < |LeadingDigits(s)| ==> IsDigit(LeadingDigits(s)[i])
  {
  }

  /** `intval` of a string: leading whitespace, an optional sign, then the leading digits */
  function StringIntVal(s: string): int {
    var t := SkipSpaces(s);
    var neg := t != [] && t[0] == '-';
    var body := if t != [] && (t[0] == '-' || t[0] == '+') then t[1..] else t;
    LeadingDigitsAreDigits(body);
    var n := DigitsValue(LeadingDigits(body));
    if neg then 0 - n as int else n
  }

  /** the key PHP stores for a string key: a canonical decimal integer becomes an integer key */
  function NormKey(s: string): (k: Key)
    ensures k.StrKey? ==> k.s == s
    ensures k.IntKey? ==> IntToString(k.i) == s
  {
    var i := StringIntVal(s);
    if IntToString(i) == s then IntKey(i) else StrKey(s)
  }

  function NormKeys<V>(a: seq<(string, V)>): (r: seq<(Key, V)>)
    ensures |r| == |a| && forall i :: 0 <= i < |a| ==> r[i] == (NormKey(a[i].0), a[i].1)
  {
    seq(|a|, i requires 0 <= i < |a| => (NormKey(a[i].0), a[i].1))
  }

  /** `intval($v)` on the modelled values; None for an object, where PHP gives 1 with a warning */
  function IntVal(v: Value): Option<int> {
    match v
    case Null => Some(0)
    case Bool(b) => Some(if b then 1 else 0)
    case Int(i) => Some(i)
    case Str(s) => Some(StringIntVal(s))
    case Arr(e) => Some(if e == [] then 0 else 1)
    case _ => None
  }

  /** `Helpers::castScalar`; None where the result is a float, which the model does not represent */
  function CastScalar(v: Value, kind: string): Option<Value> {
    if kind == "boolean" then Some(Bool(Truthy(v)))
    else if kind == "integer" then (match IntVal(v) case Some(i) => Some(Int(i)) case None => Some(v))
    else if kind == "double" then None
    else Some(v)
  }

  lemma DigitsOfNat(n: nat)
    ensures LeadingDigits(NatToString(n)) == NatToString(n)
    ensures DigitsValue(NatToString(n)) == n
  {
    AllDigitsLeading(NatToString(n));
    DigitsValueOfNat(n);
  }

  lemma {:induction false} DigitsValueOfNat(n: nat)
    ensures DigitsValue(NatToString(n)) == n
  {
    var s := NatToString(n);
    if n >= 10 {
      var q, d := n / 10, n % 10;
      DigitsValueOfNat(q);
      assert s == NatToString(q) + [DigitChar(d)];
      assert s[..|s| - 1] == NatToString(q);
      assert DigitsValue(s) == DigitsValue(NatToString(q)) * 10 + d;
      assert q * 10 + d == n;
    }
  }

  lemma {:induction false} AllDigitsLeading(s: string)
    requires forall i :: 0 <= i < |s| ==> IsDigit(s[i])
    ensures LeadingDigits(s) == s
  {
    if s != [] { AllDigitsLeading(s[1..]); }
  }

  lemma StringIntValNat(i: int)
    requires i >= 0
    ensures StringIntVal(IntToString(i)) == i
  {
    var s := NatToString(i);
    assert IntToString(i) == s;
    assert SkipSpaces(s) == s;
    DigitsOfNat(i);
  }

  lemma StringIntValNeg(i: int)
    requires i < 0
    ensures StringIntVal(IntToString(i)) == i
  {
    var n: nat := -i;
    var d := NatToString(n);
    NegativeString(i, n);
    DigitsOfNat(n);
    StringIntValMinus(d);
  }

  lemma NegativeString(i: int, n: nat)
    requires i < 0 && n == -i
    ensures IntToString(i) == "-" + NatToString(n)
  {
  }

  lemma StringIntValMinus(d: string)
    requires forall j :: 0 <= j < |d| ==> IsDigit(d[j])
    requires LeadingDigits(d) == d
    ensures StringIntVal("-" + d) == 0 - DigitsValue(d)
  {
    var s := "-" + d;
    assert SkipSpaces(s) == s;
    assert s[1..] == d;
  }

  /** `intval((string) $i) === $i` */
  lemma IntToStringRoundTrip(i: int)
    ensures StringIntVal(IntToString(i)) == i
  {
    if i < 0 {
      StringIntValNeg(i);
    } else {
      StringIntValNat(i);
    }
  }

  /** Casting the string form of an integer back with castScalar(..., 'integer') gives the integer. */
  lemma CastIntegerRoundTrip(i: int)
    ensures CastScalar(Str(IntToString(i)), "integer") == Some(Int(i))
  {
    IntToStringRoundTrip(i);
    assert "integer"[0] != "boolean"[0];
    assert IntVal(Str(IntToString(i))) == Some(i);
  }
}
