/** The pieces of PHP's value semantics the ORM relies on: ordered arrays
    with integer or string keys, the `+` union and `array_merge`, `range`,
    casts to string, truthiness and a few string functions. */
module Php {

  datatype Option<T> = None | Some(value: T)

  /** An array key: PHP keys are integers or strings. */
  datatype Key = IntKey(i: int) | StrKey(s: string)

  /** A PHP value as the query builder sees it. Floats are not modelled. */
  datatype Value =
    | Null
    | Bool(b: bool)
    | Int(i: int)
    | Str(s: string)
      /** StORM\Literal: raw SQL inlined in place of its binder */
    | Literal(sql: string)
      /** an Entity; its string form is its primary key */
    | EntityRef(pk: string)
      /** an ICollection used as a value: its string form `(SELECT ...)` and its binders */
    | Sub(text: string, vars: seq<(string, Value)>)
      /** any other object, with the result of `__toString` when it has one */
    | Obj(cls: string, toStr: Option<string>)
    | Arr(entries: seq<(Key, Value)>)

  /** `is_scalar($v) || is_null($v)` */
  predicate IsScalarOrNull(v: Value) {
    v.Null? || v.Bool? || v.Int? || v.Str?
  }

  /** `is_bool($v) ? (int) $v : $v`, as the binders store values */
  function BoolAsInt(v: Value): (r: Value)
    ensures !r.Bool?
    ensures !v.Bool? ==> r == v
  {
    if v.Bool? then Int(if v.b then 1 else 0) else v
  }

  /** PHP truthiness: null, false, 0, "", "0" and [] are false. */
  predicate Truthy(v: Value) {
    match v
    case Null => false
    case Bool(b) => b
    case Int(i) => i != 0
    case Str(s) => s != "" && s != "0"
    case Arr(e) => e != []
    case _ => true
  }

  // ---------------------------------------------------------------------
  // Decimal rendering of integers, `(string) $int`

  function DigitChar(d: nat): (c: char)
    requires d < 10
    ensures '0' <= c <= '9' && c as int - '0' as int == d
  {
    "0123456789"[d]
  }

  function NatToString(n: nat): (r: string)
    ensures |r| >= 1
    ensures n >= 10 <==> |r| >= 2
    ensures forall i :: 0 <= i < |r| ==> '0' <= r[i] <= '9'
    ensures r[|r| - 1] == DigitChar(n % 10)
  {
    if n < 10 then [DigitChar(n)] else NatToString(n / 10) + [DigitChar(n % 10)]
  }

  /** Two different numbers never render alike: the basis of binder-name freshness. */
  lemma {:induction false} NatToStringInjective(m: nat, n: nat)
    requires NatToString(m) == NatToString(n)
    ensures m == n
  {
    SameLastDigit(m, n);
    if m >= 10 && n >= 10 {
      SameLeadingDigits(m, n);
      NatToStringInjective(m / 10, n / 10);
      DivMod10(m, n);
    }
  }

  lemma SameLastDigit(m: nat, n: nat)
    requires NatToString(m) == NatToString(n)
    ensures m % 10 == n % 10 && (m >= 10 <==> n >= 10)
  {
    assert DigitChar(m % 10) == DigitChar(n % 10);
  }

  lemma SameLeadingDigits(m: nat, n: nat)
    requires m >= 10 && n >= 10 && NatToString(m) == NatToString(n)
    ensures NatToString(m / 10) == NatToString(n / 10)
  {
    var sm, sn := NatToString(m), NatToString(n);
    assert NatToString(m / 10) == sm[..|sm| - 1];
    assert NatToString(n / 10) == sn[..|sn| - 1];
  }

  lemma DivMod10(m: nat, n: nat)
    requires m / 10 == n / 10 && m % 10 == n % 10
    ensures m == n
  {
  }

  function IntToString(i: int): (r: string)
    ensures |r| >= 1
  {
    if i < 0 then "-" + NatToString(-i) else NatToString(i)
  }

  /** A fixed prefix followed by two counters gives the same name exactly when the
      counters agree. */
  lemma PrefixedCounterInjective(prefix: string, m: nat, n: nat)
    ensures prefix + NatToString(m) == prefix + NatToString(n) <==> m == n
  {
    var a, b := prefix + NatToString(m), prefix + NatToString(n);
    if a == b {
      assert a[|prefix|..] == NatToString(m);
      assert b[|prefix|..] == NatToString(n);
      NatToStringInjective(m, n);
    }
  }

  /** `(string) $v`; an array gives "Array" (PHP 8 only warns), and None stands for the
      \Error an object without __toString raises. */
  function StringOf(v: Value): (r: Option<string>)
    ensures r.None? <==> v.Obj? && v.toStr.None?
    ensures v.Arr? ==> r == Some("Array")
  {
    match v
    case Null => Some("")
    case Bool(b) => Some(if b then "1" else "")
    case Int(i) => Some(IntToString(i))
    case Str(s) => Some(s)
    case Literal(sql) => Some(sql)
    case EntityRef(pk) => Some(pk)
    case Sub(text, _) => Some(text)
    case Obj(_, t) => t
    case Arr(_) => Some("Array")
  }

  /** `(string) $key` */
  function KeyString(k: Key): string {
    match k
    case IntKey(i) => IntToString(i)
    case StrKey(s) => s
  }

  // ---------------------------------------------------------------------
  // PHP `range($a, $b)` on integers: counts down when $a > $b

  function Range(a: int, b: int): (r: seq<int>)
    ensures |r| == (if a <= b then b - a + 1 else a - b + 1)
    ensures forall i :: 0 <= i < |r| ==> r[i] == (if a <= b then a + i else a - i)
    decreases if a <= b then b - a else a - b
  {
    if a == b then [a]
    else if a < b then [a] + Range(a + 1, b)
    else [a] + Range(a - 1, b)
  }

  // ---------------------------------------------------------------------
  // Ordered maps: a PHP array is a sequence of (key, value) entries

  function Keys<K, V>(a: seq<(K, V)>): (r: seq<K>)
    ensures |r| == |a| && forall i :: 0 <= i < |a| ==> r[i] == a[i].0
  {
    if a == [] then [] else [a[0].0] + Keys(a[1..])
  }

  /** `array_values` */
  function ValuesOf<K, V>(a: seq<(K, V)>): (r: seq<V>)
    ensures |r| == |a| && forall i :: 0 <= i < |a| ==> r[i] == a[i].1
  {
    if a == [] then [] else [a[0].1] + ValuesOf(a[1..])
  }

  ghost predicate Distinct<T>(s: seq<T>) {
    forall i, j :: 0 <= i < j < |s| ==> s[i] != s[j]
  }

  /** What every PHP array satisfies: no key occurs twice. */
  ghost predicate UniqueKeys<K, V>(a: seq<(K, V)>) {
    Distinct(Keys(a))
  }

  lemma KeysConcat<K, V>(a: seq<(K, V)>, b: seq<(K, V)>)
    ensures Keys(a + b) == Keys(a) + Keys(b)
  {
  }

  lemma MemberCons<T>(x: T, s: seq<T>)
    requires s != []
    ensures x in s <==> x == s[0] || x in s[1..]
  {
    assert s == [s[0]] + s[1..];
  }

  lemma DistinctCons<T>(x: T, s: seq<T>)
    ensures Distinct([x] + s) <==> x !in s && Distinct(s)
  {
    var t := [x] + s;
    if x !in s && Distinct(s) {
      forall i, j | 0 <= i < j < |t| ensures t[i] != t[j] {
        if i == 0 { assert t[j] == s[j - 1]; } else { assert t[i] == s[i - 1] && t[j] == s[j - 1]; }
      }
    }
    if Distinct(t) {
      forall i, j | 0 <= i < j < |s| ensures s[i] != s[j] {
        assert s[i] == t[i + 1] && s[j] == t[j + 1];
      }
      forall j | 0 <= j < |s| ensures s[j] != x {
        assert t[j + 1] == s[j] && t[0] == x;
      }
    }
  }

  /** `$a[$k] ?? null`, without the coalescing: the entry with key k */
  function Get<K(==), V>(a: seq<(K, V)>, k: K): (r: Option<V>)
    ensures r.Some? <==> k in Keys(a)
    ensures r.Some? ==> (k, r.value) in a
  {
    if a == [] then None
    else if a[0].0 == k then Some(a[0].1)
    else Get(a[1..], k)
  }

  lemma {:induction false} GetUnique<K, V>(a: seq<(K, V)>, i: int)
    requires UniqueKeys(a) && 0 <= i < |a|
    ensures Get(a, a[i].0) == Some(a[i].1)
  {
    if i > 0 {
      DistinctCons(a[0].0, Keys(a[1..]));
      assert a[1..][i - 1] == a[i];
      GetUnique(a[1..], i - 1);
    }
  }

  /** `$a[$k] = $v`: overwrite in place when k is present, append otherwise */
  function Put<K(==), V>(a: seq<(K, V)>, k: K, v: V): seq<(K, V)> {
    if a == [] then [(k, v)]
    else if a[0].0 == k then [(k, v)] + a[1..]
    else [a[0]] + Put(a[1..], k, v)
  }

  /** Put keeps the key order, appending a new key at the end. */
  lemma {:induction false} PutKeys<K, V>(a: seq<(K, V)>, k: K, v: V)
    ensures Keys(Put(a, k, v)) == if k in Keys(a) then Keys(a) else Keys(a) + [k]
    ensures k !in Keys(a) ==> Put(a, k, v) == a + [(k, v)]
  {
    if a != [] {
      assert Keys(a) == [a[0].0] + Keys(a[1..]);
      if a[0].0 == k {
        var r := [(k, v)] + a[1..];
        assert r[1..] == a[1..];
        assert Keys(r) == [k] + Keys(a[1..]);
      } else {
        PutKeys(a[1..], k, v);
        var t := Put(a[1..], k, v);
        var r := [a[0]] + t;
        assert r[0] == a[0] && r[1..] == t;
        assert Keys(r) == [a[0].0] + Keys(t);
        assert k !in Keys(a[1..]) ==> a + [(k, v)] == [a[0]] + (a[1..] + [(k, v)]);
      }
    }
  }

  lemma {:induction false} GetPut<K, V>(a: seq<(K, V)>, k: K, v: V, k': K)
    ensures Get(Put(a, k, v), k') == if k' == k then Some(v) else Get(a, k')
  {
    if a != [] && a[0].0 != k {
      var r := Put(a, k, v);
      assert r[0] == a[0] && r[1..] == Put(a[1..], k, v);
      GetPut(a[1..], k, v, k');
    } else if a != [] {
      assert Put(a, k, v)[1..] == a[1..];
    }
  }

  /** Put adds the entry (k, v) and keeps the others. */
  lemma {:induction false} PutEntries<K, V>(a: seq<(K, V)>, k: K, v: V)
    ensures (k, v) in Put(a, k, v)
    ensures forall e :: e in Put(a, k, v) ==> e == (k, v) || e in a
  {
    if a != [] && a[0].0 != k {
      PutEntries(a[1..], k, v);
      assert Put(a, k, v) == [a[0]] + Put(a[1..], k, v);
    }
  }

  lemma PutUnique<K(!new), V>(a: seq<(K, V)>, k: K, v: V)
    requires UniqueKeys(a)
    ensures UniqueKeys(Put(a, k, v))
  {
    PutKeys(a, k, v);
    var s := Keys(a);
    if k !in s {
      var t := s + [k];
      forall i, j | 0 <= i < j < |t| ensures t[i] != t[j] {
        if j == |s| { assert t[i] == s[i] && s[i] in s; }
      }
    }
  }

  /** `unset($a[$k])` */
  function Remove<K(==,!new), V>(a: seq<(K, V)>, k: K): (r: seq<(K, V)>)
    ensures k !in Keys(r)
    ensures forall k' :: k' in Keys(r) <==> k' in Keys(a) && k' != k
    ensures forall k' :: k' != k ==> Get(r, k') == Get(a, k')
    ensures k !in Keys(a) ==> r == a
  {
    if a == [] then []
    else if a[0].0 == k then Remove(a[1..], k)
    else
      var r := [a[0]] + Remove(a[1..], k);
      assert r[1..] == Remove(a[1..], k);
      assert k !in Keys(a[1..]) ==> a == [a[0]] + a[1..];
      r
  }

  lemma {:induction false} RemoveUnique<K(!new), V>(a: seq<(K, V)>, k: K)
    requires UniqueKeys(a)
    ensures UniqueKeys(Remove(a, k))
  {
    if a != [] {
      DistinctCons(a[0].0, Keys(a[1..]));
      RemoveUnique(a[1..], k);
      if a[0].0 != k {
        var r := Remove(a, k);
        assert r == [a[0]] + Remove(a[1..], k);
        assert Keys(r) == [a[0].0] + Keys(Remove(a[1..], k));
        DistinctCons(a[0].0, Keys(Remove(a[1..], k)));
      }
    }
  }

  /** `unset($a[$k])` for every k in ks */
  function RemoveKeys<K(==,!new), V>(a: seq<(K, V)>, ks: set<K>): (r: seq<(K, V)>)
    ensures forall k :: k in Keys(r) <==> k in Keys(a) && k !in ks
    ensures forall k :: k !in ks ==> Get(r, k) == Get(a, k)
    ensures forall e :: e in r ==> e in a
  {
    if a == [] then []
    else if a[0].0 in ks then RemoveKeys(a[1..], ks)
    else
      var r := [a[0]] + RemoveKeys(a[1..], ks);
      assert r[1..] == RemoveKeys(a[1..], ks);
      r
  }

  lemma {:induction false} RemoveKeysUnique<K(!new), V>(a: seq<(K, V)>, ks: set<K>)
    requires UniqueKeys(a)
    ensures UniqueKeys(RemoveKeys(a, ks))
  {
    if a != [] {
      DistinctCons(a[0].0, Keys(a[1..]));
      RemoveKeysUnique(a[1..], ks);
      if a[0].0 !in ks {
        var r := RemoveKeys(a, ks);
        assert Keys(r) == [a[0].0] + Keys(RemoveKeys(a[1..], ks));
        DistinctCons(a[0].0, Keys(RemoveKeys(a[1..], ks)));
      }
    }
  }

  /** the entries of b whose keys a lacks, in b's order */
  function Missing<K(==,!new), V>(b: seq<(K, V)>, a: seq<(K, V)>): (r: seq<(K, V)>)
    ensures forall k :: k in Keys(r) <==> k in Keys(b) && k !in Keys(a)
    ensures forall k :: k !in Keys(a) ==> Get(r, k) == Get(b, k)
  {
    if b == [] then []
    else if b[0].0 in Keys(a) then Missing(b[1..], a)
    else
      var r := [b[0]] + Missing(b[1..], a);
      assert r[1..] == Missing(b[1..], a);
      r
  }

  lemma {:induction false} MissingUnique<K(!new), V>(b: seq<(K, V)>, a: seq<(K, V)>)
    requires UniqueKeys(b)
    ensures UniqueKeys(Missing(b, a))
  {
    if b != [] {
      DistinctCons(b[0].0, Keys(b[1..]));
      MissingUnique(b[1..], a);
      if b[0].0 !in Keys(a) {
        var r := Missing(b, a);
        assert Keys(r) == [b[0].0] + Keys(Missing(b[1..], a));
        DistinctCons(b[0].0, Keys(Missing(b[1..], a)));
      }
    }
  }

  lemma {:induction false} GetConcat<K, V>(x: seq<(K, V)>, y: seq<(K, V)>, k: K)
    ensures Get(x + y, k) == if k in Keys(x) then Get(x, k) else Get(y, k)
  {
    if x == [] {
      assert x + y == y;
    } else {
      assert (x + y)[1..] == x[1..] + y;
      GetConcat(x[1..], y, k);
    }
  }

  /** `$a + $b`: the left operand wins on shared keys */
  function Union<K(==,!new), V>(a: seq<(K, V)>, b: seq<(K, V)>): (r: seq<(K, V)>)
    ensures forall k :: Get(r, k) == if k in Keys(a) then Get(a, k) else Get(b, k)
    ensures forall k :: k in Keys(r) <==> k in Keys(a) || k in Keys(b)
    ensures |a| <= |r| && r[..|a|] == a
  {
    var m := Missing(b, a);
    var r := a + m;
    assert forall k :: Get(r, k) == if k in Keys(a) then Get(a, k) else Get(b, k) by {
      forall k ensures Get(r, k) == if k in Keys(a) then Get(a, k) else Get(b, k) {
        GetConcat(a, m, k);
      }
    }
    KeysConcat(a, m);
    r
  }

  lemma UnionUnique<K(!new), V>(a: seq<(K, V)>, b: seq<(K, V)>)
    requires UniqueKeys(a) && UniqueKeys(b)
    ensures UniqueKeys(Union(a, b))
  {
    var m := Missing(b, a);
    assert Union(a, b) == a + m;
    MissingUnique(b, a);
    KeysConcat(a, m);
    DistinctConcat(Keys(a), Keys(m));
  }

  lemma DistinctConcat<T>(s: seq<T>, t: seq<T>)
    requires Distinct(s) && Distinct(t) && forall x :: x in t ==> x !in s
    ensures Distinct(s + t)
  {
    var u := s + t;
    forall i, j | 0 <= i < j < |u| ensures u[i] != u[j] {
      if i < |s| && j >= |s| {
        assert u[j] == t[j - |s|] && t[j - |s|] in t;
        assert u[i] == s[i] && s[i] in s;
      } else if i >= |s| {
        assert u[i] == t[i - |s|] && u[j] == t[j - |s|];
      }
    }
  }

  // ---------------------------------------------------------------------
  // array_merge: integer keys are renumbered from 0, string keys overwrite

  function CountIntKeys<V>(a: seq<(Key, V)>): nat {
    if a == [] then 0 else CountIntKeys(a[..|a| - 1]) + (if a[|a| - 1].0.IntKey? then 1 else 0)
  }

  function MergeStep<V>(acc: seq<(Key, V)>, e: (Key, V)): seq<(Key, V)> {
    if e.0.IntKey? then acc + [(IntKey(CountIntKeys(acc)), e.1)] else Put(acc, e.0, e.1)
  }

  function MergeAll<V>(s: seq<(Key, V)>): seq<(Key, V)> {
    if s == [] then [] else MergeStep(MergeAll(s[..|s| - 1]), s[|s| - 1])
  }

  /** `array_merge($a, $b)` */
  function Merge<V>(a: seq<(Key, V)>, b: seq<(Key, V)>): seq<(Key, V)> {
    MergeAll(a + b)
  }

  /** keys 0, 1, ..., n-1 in order */
  predicate IsList<V>(a: seq<(Key, V)>) {
    forall i :: 0 <= i < |a| ==> a[i].0 == IntKey(i)
  }

  lemma {:induction false} ListCount<V>(a: seq<(Key, V)>)
    requires forall i :: 0 <= i < |a| ==> a[i].0.IntKey?
    ensures CountIntKeys(a) == |a|
  {
    if a != [] { ListCount(a[..|a| - 1]); }
  }

  lemma {:induction false} MergeAllList<V>(s: seq<(Key, V)>)
    requires forall i :: 0 <= i < |s| ==> s[i].0.IntKey?
    ensures IsList(MergeAll(s)) && ValuesOf(MergeAll(s)) == ValuesOf(s)
  {
    if s != [] {
      var p, e := s[..|s| - 1], s[|s| - 1];
      MergeAllList(p);
      var m := MergeAll(p);
      ListCount(m);
      assert MergeAll(s) == MergeStep(m, e) == m + [(IntKey(|m|), e.1)];
      ListSnoc(m, e.1);
      ValuesSnoc(m, (IntKey(|m|), e.1));
      assert s == p + [e];
      ValuesSnoc(p, e);
    }
  }

  lemma ListSnoc<V>(a: seq<(Key, V)>, v: V)
    requires IsList(a)
    ensures IsList(a + [(IntKey(|a|), v)])
  {
    var r := a + [(IntKey(|a|), v)];
    forall i | 0 <= i < |r| ensures r[i].0 == IntKey(i) {
      if i < |a| { assert r[i] == a[i]; }
    }
  }

  lemma ValuesSnoc<K, V>(a: seq<(K, V)>, e: (K, V))
    ensures ValuesOf(a + [e]) == ValuesOf(a) + [e.1]
  {
    ValuesConcat(a, [e]);
  }

  lemma {:induction false} ValuesConcat<K, V>(a: seq<(K, V)>, b: seq<(K, V)>)
    ensures ValuesOf(a + b) == ValuesOf(a) + ValuesOf(b)
  {
    if a == [] {
      assert a + b == b;
    } else {
      assert (a + b)[1..] == a[1..] + b;
      ValuesConcat(a[1..], b);
    }
  }

  /** Merging two lists concatenates their values and renumbers the keys. */
  lemma MergeLists<V>(a: seq<(Key, V)>, b: seq<(Key, V)>)
    requires IsList(a) && IsList(b)
    ensures IsList(Merge(a, b)) && ValuesOf(Merge(a, b)) == ValuesOf(a) + ValuesOf(b)
  {
    var s := a + b;
    forall i | 0 <= i < |s| ensures s[i].0.IntKey? {
      if i >= |a| { assert s[i] == b[i - |a|]; }
    }
    MergeAllList(s);
    ValuesConcat(a, b);
  }

  /** the last entry with key k */
  function GetLast<K(==), V>(a: seq<(K, V)>, k: K): Option<V> {
    if a == [] then None
    else if a[|a| - 1].0 == k then Some(a[|a| - 1].1)
    else GetLast(a[..|a| - 1], k)
  }

  /** Under a string key array_merge keeps the value of the last entry that has it. */
  lemma {:induction false} MergeAllStringKey<V>(s: seq<(Key, V)>, k: string)
    ensures Get(MergeAll(s), StrKey(k)) == GetLast(s, StrKey(k))
  {
    if s != [] {
      var p, e := s[..|s| - 1], s[|s| - 1];
      MergeAllStringKey(p, k);
      var m := MergeAll(p);
      assert MergeAll(s) == MergeStep(m, e);
      if e.0.IntKey? {
        GetConcat(m, [(IntKey(CountIntKeys(m)), e.1)], StrKey(k));
      } else {
        GetPut(m, e.0, e.1, StrKey(k));
      }
    }
  }

  lemma {:induction false} GetLastConcat<K, V>(a: seq<(K, V)>, b: seq<(K, V)>, k: K)
    ensures GetLast(a + b, k) == if k in Keys(b) then GetLast(b, k) else GetLast(a, k)
  {
    if b != [] {
      var p, e := b[..|b| - 1], b[|b| - 1];
      assert a + b == (a + p) + [e];
      assert (a + b)[..|a + b| - 1] == a + p;
      GetLastConcat(a, p, k);
      assert b == p + [e];
      KeysConcat(p, [e]);
      assert Keys(b) == Keys(p) + [e.0];
    } else {
      assert a + b == a;
    }
  }

  lemma {:induction false} GetLastUnique<K, V>(a: seq<(K, V)>, k: K)
    requires UniqueKeys(a)
    ensures GetLast(a, k) == Get(a, k)
  {
    if a != [] {
      var p, e := a[..|a| - 1], a[|a| - 1];
      assert a == p + [e];
      KeysConcat(p, [e]);
      assert UniqueKeys(p) by {
        forall i, j | 0 <= i < j < |p| ensures Keys(p)[i] != Keys(p)[j] {
          assert Keys(p)[i] == Keys(a)[i] && Keys(p)[j] == Keys(a)[j];
        }
      }
      GetLastUnique(p, k);
      GetConcat(p, [e], k);
    }
  }

  /** `array_merge($a, $b)[$k]` for a string key: b's entry when b has k, else a's. */
  lemma MergeStringKey<V>(a: seq<(Key, V)>, b: seq<(Key, V)>, k: string)
    requires UniqueKeys(a) && UniqueKeys(b)
    ensures Get(Merge(a, b), StrKey(k)) == if StrKey(k) in Keys(b) then Get(b, StrKey(k)) else Get(a, StrKey(k))
  {
    MergeAllStringKey(a + b, k);
    GetLastConcat(a, b, StrKey(k));
    GetLastUnique(a, StrKey(k));
    GetLastUnique(b, StrKey(k));
  }

  /** `foreach ($entries as $k => $v) $a[$k] = $v;` */
  function PutAll<K(==), V>(a: seq<(K, V)>, es: seq<(K, V)>): seq<(K, V)>
    decreases |es|
  {
    if es == [] then a else Put(PutAll(a, es[..|es| - 1]), es[|es| - 1].0, es[|es| - 1].1)
  }

  /** After a run of writes a key holds the last value written to it, or its old value. */
  lemma {:induction false} GetPutAll<K, V>(a: seq<(K, V)>, es: seq<(K, V)>, k: K)
    ensures Get(PutAll(a, es), k) == if k in Keys(es) then GetLast(es, k) else Get(a, k)
    decreases |es|
  {
    if es != [] {
      var p, e := es[..|es| - 1], es[|es| - 1];
      assert es == p + [e];
      KeysConcat(p, [e]);
      assert Keys(es) == Keys(p) + [e.0];
      assert k in Keys(es) <==> k in Keys(p) || k == e.0;
      GetPutAll(a, p, k);
      GetPut(PutAll(a, p), e.0, e.1, k);
    }
  }

  /** Writes never move the first key. */
  lemma {:induction false} PutAllFirst<K, V>(a: seq<(K, V)>, es: seq<(K, V)>)
    requires a != []
    ensures PutAll(a, es) != [] && PutAll(a, es)[0].0 == a[0].0
    decreases |es|
  {
    if es != [] {
      PutAllFirst(a, es[..|es| - 1]);
    }
  }

  lemma {:induction false} PutAllConcat<K, V>(a: seq<(K, V)>, x: seq<(K, V)>, y: seq<(K, V)>)
    ensures PutAll(a, x + y) == PutAll(PutAll(a, x), y)
    decreases |y|
  {
    if y == [] {
      assert x + y == x;
    } else {
      assert (x + y)[..|x + y| - 1] == x + y[..|y| - 1];
      PutAllConcat(a, x, y[..|y| - 1]);
    }
  }

  lemma PutAllSnoc<K, V>(a: seq<(K, V)>, es: seq<(K, V)>, e: (K, V))
    ensures PutAll(a, es + [e]) == Put(PutAll(a, es), e.0, e.1)
  {
    assert (es + [e])[..|es|] == es;
  }

  lemma {:induction false} PutAllUnique<K(!new), V>(a: seq<(K, V)>, es: seq<(K, V)>)
    requires UniqueKeys(a)
    ensures UniqueKeys(PutAll(a, es))
    decreases |es|
  {
    if es != [] {
      PutAllUnique(a, es[..|es| - 1]);
      PutUnique(PutAll(a, es[..|es| - 1]), es[|es| - 1].0, es[|es| - 1].1);
    }
  }

  // ---------------------------------------------------------------------
  // Strings

  predicate OccursAt(s: string, sub: string, i: int) {
    0 <= i && i + |sub| <= |s| && s[i..i + |sub|] == sub
  }

  /** `Strings::contains` / `str_contains` */
  predicate Contains(s: string, sub: string) {
    exists i :: 0 <= i <= |s| - |sub| && OccursAt(s, sub, i)
  }

  lemma ContainsTail(s: string, sub: string)
    requires |s| > 0 && Contains(s[1..], sub)
    ensures Contains(s, sub)
  {
    var i :| 0 <= i <= |s[1..]| - |sub| && OccursAt(s[1..], sub, i);
    assert s[i + 1..i + 1 + |sub|] == s[1..][i..i + |sub|];
    assert OccursAt(s, sub, i + 1);
  }

  /** Replacement of every non-overlapping occurrence, scanning left to right */
  function ReplaceAll(s: string, pat: string, rep: string): (r: string)
    requires |pat| > 0
    ensures !Contains(s, pat) ==> r == s
    decreases |s|
  {
    if |s| < |pat| then s
    else if s[..|pat|] == pat then
      assert OccursAt(s, pat, 0);
      rep + ReplaceAll(s[|pat|..], pat, rep)
    else
      if Contains(s[1..], pat) then
        ContainsTail(s, pat);
        [s[0]] + ReplaceAll(s[1..], pat, rep)
      else
        [s[0]] + ReplaceAll(s[1..], pat, rep)
  }

  function LowerChar(c: char): char {
    if 'A' <= c <= 'Z' then (c as int + 32) as char else c
  }

  /** lower-casing of the ASCII letters A-Z only; the multibyte case mapping of
      `mb_strtolower` is not modelled */
  function Lower(s: string): (r: string)
    ensures |r| == |s| && forall i :: 0 <= i < |s| ==> r[i] == LowerChar(s[i])
  {
    seq(|s|, i requires 0 <= i < |s| => LowerChar(s[i]))
  }

  /** `implode($glue, $parts)` */
  function Implode(glue: string, parts: seq<string>): string {
    if parts == [] then ""
    else if |parts| == 1 then parts[0]
    else Implode(glue, parts[..|parts| - 1]) + glue + parts[|parts| - 1]
  }

  /** Appending a part appends it, after the glue unless it is the first. */
  lemma ImplodeSnoc(glue: string, parts: seq<string>, p: string)
    ensures Implode(glue, parts + [p]) == if parts == [] then p else Implode(glue, parts) + glue + p
  {
    assert (parts + [p])[..|parts|] == parts;
  }
}
