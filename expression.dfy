/** StORM\Expression: a condition assembled from parenthesised parts, each part's values
    bound under fresh binder names that are written into the part with vsprintf. */
module Expressions {
  import opened Php
  import opened Errors
  import opened Helpers

  // ---------------------------------------------------------------------
  // vsprintf, for the `%s` and `%%` conversions

  /** `vsprintf($format, $args)` where `%s` takes the next argument and `%%` is a percent
      sign; None where PHP raises a ValueError (too few arguments, a lone `%` at the end)
      and also for any other conversion, which this model does not format */
  function Format(f: string, args: seq<string>): Option<string>
    decreases |f|
  {
    if f == [] then Some("")
    else if f[0] != '%' then
      var rest := Format(f[1..], args);
      if rest.None? then None else Some([f[0]] + rest.value)
    else if |f| >= 2 && f[1] == '%' then
      var rest := Format(f[2..], args);
      if rest.None? then None else Some("%" + rest.value)
    else if |f| >= 2 && f[1] == 's' && args != [] then
      var rest := Format(f[2..], args[1..]);
      if rest.None? then None else Some(args[0] + rest.value)
    else None
  }

  /** A text without `%` is its own format. */
  lemma {:induction false} FormatPlain(f: string, args: seq<string>)
    requires '%' !in f
    ensures Format(f, args) == Some(f)
    decreases |f|
  {
    if f != [] {
      assert f[0] in f;
      assert forall c :: c in f[1..] ==> c in f;
      FormatPlain(f[1..], args);
      assert f == [f[0]] + f[1..];
    }
  }

  /** `%s` placeholders take the arguments in order: `p %s rest` with arguments
      `[a] + more` is `p a` followed by the rest formatted with the remaining ones. */
  lemma {:induction false} FormatPositional(p: string, rest: string, a: string, more: seq<string>)
    requires '%' !in p
    ensures Format(p + "%s" + rest, [a] + more)
            == (var r := Format(rest, more); if r.None? then None else Some(p + a + r.value))
    decreases |p|
  {
    if p == [] {
      var whole := "%s" + rest;
      assert p + "%s" + rest == whole;
      assert whole[0] == '%' && whole[1] == 's' && whole[2..] == rest;
      assert ([a] + more)[1..] == more;
      var r := Format(rest, more);
      if r.Some? {
        assert p + a + r.value == a + r.value;
      }
    } else {
      assert p[0] in p;
      assert forall c :: c in p[1..] ==> c in p;
      var whole := p + "%s" + rest;
      assert whole[0] == p[0] && whole[0] != '%';
      assert whole[1..] == p[1..] + "%s" + rest;
      FormatPositional(p[1..], rest, a, more);
      var r := Format(rest, more);
      if r.Some? {
        assert p + a + r.value == [p[0]] + (p[1..] + a + r.value);
      }
    }
  }

  // ---------------------------------------------------------------------
  // Binder names

  /** `":$binderName$i" . "_$iterator"` */
  function BinderOf(binderName: string, i: Key, iteration: nat): string {
    ":" + binderName + KeyString(i) + "_" + NatToString(iteration)
  }

  predicate AllDigits(s: string) {
    forall j :: 0 <= j < |s| ==> '0' <= s[j] <= '9'
  }

  /** Two names that end in `_` and a decimal number end in the same number. */
  lemma {:induction false} SameSuffix(a: string, m: nat, b: string, n: nat)
    requires a + "_" + NatToString(m) == b + "_" + NatToString(n)
    ensures m == n
  {
    DigitsAfterUnderscore(a, NatToString(m), b, NatToString(n));
    NatToStringInjective(m, n);
  }

  /** the digits after the last underscore are determined by the whole name */
  lemma DigitsAfterUnderscore(a: string, x: string, b: string, y: string)
    requires AllDigits(x) && AllDigits(y) && a + "_" + x == b + "_" + y
    ensures x == y
  {
    TrailingDigitsAfter(a, x);
    TrailingDigitsAfter(b, y);
  }

  /** the longest run of decimal digits that ends a string */
  function TrailingDigits(s: string): string {
    if s == [] || !('0' <= s[|s| - 1] <= '9') then []
    else TrailingDigits(s[..|s| - 1]) + [s[|s| - 1]]
  }

  lemma {:induction false} TrailingDigitsAfter(a: string, x: string)
    requires AllDigits(x)
    ensures TrailingDigits(a + "_" + x) == x
  {
    var s := a + "_" + x;
    if x == [] {
      assert s[|s| - 1] == '_';
    } else {
      var x' := x[..|x| - 1];
      assert s[..|s| - 1] == a + "_" + x';
      TrailingDigitsAfter(a, x');
      assert x == x' + [x[|x| - 1]];
    }
  }

  /** Binder names made on different calls never coincide, whatever the keys and the
      binder name prefixes: the iteration after the last `_` tells them apart. */
  lemma DistinctAcrossCalls(b1: string, i1: Key, m: nat, b2: string, i2: Key, n: nat)
    requires m != n
    ensures BinderOf(b1, i1, m) != BinderOf(b2, i2, n)
  {
    if BinderOf(b1, i1, m) == BinderOf(b2, i2, n) {
      assert BinderOf(b1, i1, m) == (":" + b1 + KeyString(i1)) + "_" + NatToString(m);
      assert BinderOf(b2, i2, n) == (":" + b2 + KeyString(i2)) + "_" + NatToString(n);
      SameSuffix(":" + b1 + KeyString(i1), m, ":" + b2 + KeyString(i2), n);
    }
  }

  /** the binder array one call builds: each value under its fresh name */
  function StmVars(vars: seq<(Key, Value)>, binderName: string, iteration: nat): (r: seq<(string, Value)>)
    ensures |r| == |vars|
    ensures forall j :: 0 <= j < |vars| ==> r[j] == (BinderOf(binderName, vars[j].0, iteration), vars[j].1)
  {
    if vars == [] then []
    else [(BinderOf(binderName, vars[0].0, iteration), vars[0].1)] + StmVars(vars[1..], binderName, iteration)
  }

  /** `$this->sql && $glue`: the separator is written only between parts */
  function Separator(sql: string, glue: Option<string>): string {
    if sql != "" && sql != "0" && glue.Some? && glue.value != "" && glue.value != "0" then " " + glue.value + " " else ""
  }

  // ---------------------------------------------------------------------
  // The object

  class Expression {
    var iteration: nat
    var vars: seq<(string, Value)>
    var sql: string

    /** a new expression: no text, no binders, iteration 0 */
    constructor ()
      ensures iteration == 0 && vars == [] && sql == ""
    {
      iteration, vars, sql := 0, [], "";
    }

    /** `add($glue, $expression, $vars, $binderName)`: the part's values get fresh binder
        names, the names are formatted into the part, and the part is appended in brackets */
    method Add(glue: Option<string>, expression: string, values: seq<(Key, Value)>, binderName: string)
      returns (err: Option<Error>)
      modifies this
      ensures var stm := StmVars(values, binderName, old(iteration));
        var f := Format(expression, Keys(stm));
        && (err.Some? <==> f.None?)
        && (f.None? ==> sql == old(sql) && vars == old(vars) && iteration == old(iteration))
        && (f.Some? ==> sql == old(sql) + Separator(old(sql), glue) + "(" + f.value + ")"
                        && vars == Union(old(vars), stm)
                        && iteration == old(iteration) + 1)
    {
      var stm := BindValues(values, binderName, iteration);
      var f := Format(expression, Keys(stm));
      if f.None? {
        return Some(FormatError);
      }
      sql := sql + Separator(sql, glue) + "(" + f.value + ")";
      vars := Union(vars, stm);
      iteration := iteration + 1;
      return None;
    }
  }

  /** the loop of add() that names the values */
  method BindValues(values: seq<(Key, Value)>, binderName: string, iteration: nat) returns (stm: seq<(string, Value)>)
    ensures stm == StmVars(values, binderName, iteration)
  {
    stm := [];
    var i := 0;
    while i < |values|
      invariant 0 <= i <= |values|
      invariant stm == StmVars(values[..i], binderName, iteration)
    {
      StmVarsSnoc(values, binderName, iteration, i);
      stm := stm + [(BinderOf(binderName, values[i].0, iteration), values[i].1)];
      i := i + 1;
    }
    assert values[..i] == values;
  }

  lemma StmVarsSnoc(values: seq<(Key, Value)>, binderName: string, iteration: nat, i: int)
    requires 0 <= i < |values|
    ensures StmVars(values[..i + 1], binderName, iteration)
            == StmVars(values[..i], binderName, iteration) + [(BinderOf(binderName, values[i].0, iteration), values[i].1)]
  {
    var a := StmVars(values[..i + 1], binderName, iteration);
    var b := StmVars(values[..i], binderName, iteration) + [(BinderOf(binderName, values[i].0, iteration), values[i].1)];
    assert |a| == |b|;
    forall j | 0 <= j < |a|
      ensures a[j] == b[j]
    {
    }
  }

  /** The names of one call are pairwise distinct when the keys are. */
  lemma StmVarsDistinct(values: seq<(Key, Value)>, binderName: string, iteration: nat, j: int, k: int)
    requires 0 <= j < |values| && 0 <= k < |values| && values[j].0 != values[k].0
    requires StoredKey(values[j].0) && StoredKey(values[k].0)
    ensures StmVars(values, binderName, iteration)[j].0 != StmVars(values, binderName, iteration)[k].0
  {
    var r := StmVars(values, binderName, iteration);
    assert r[j].0 == BinderOf(binderName, values[j].0, iteration);
    assert r[k].0 == BinderOf(binderName, values[k].0, iteration);
    if r[j].0 == r[k].0 {
      BinderOfCancel(binderName, values[j].0, values[k].0, iteration);
      KeyStringInjective(values[j].0, values[k].0);
    }
  }

  /** Two names of one call are equal only when the keys read the same. */
  lemma BinderOfCancel(binderName: string, a: Key, b: Key, iteration: nat)
    requires BinderOf(binderName, a, iteration) == BinderOf(binderName, b, iteration)
    ensures KeyString(a) == KeyString(b)
  {
    var p, x, y := ":" + binderName, KeyString(a), KeyString(b);
    var u, v := BinderOf(binderName, a, iteration), BinderOf(binderName, b, iteration);
    assert |x| == |y|;
    assert x == u[|p|..|p| + |x|];
    assert y == v[|p|..|p| + |y|];
  }

  /** a key as PHP stores it: a string key is never the decimal form of an integer */
  predicate StoredKey(k: Key) {
    k.StrKey? ==> NormKey(k.s) == k
  }

  /** `(string) $key` tells stored keys apart. */
  lemma KeyStringInjective(a: Key, b: Key)
    requires KeyString(a) == KeyString(b) && StoredKey(a) && StoredKey(b)
    ensures a == b
  {
    if a.IntKey? {
      IntToStringRoundTrip(a.i);
    }
    if b.IntKey? {
      IntToStringRoundTrip(b.i);
    }
  }
}
