/** StORM\Entity: a row object. Besides the public fields its class declares, an entity
    keeps three ordered maps: the property bag (columns without a declared field), the
    foreign-key shadows of its key-holder relations, and the cache of loaded relations. */
module Entities {
  import opened Php
  import opened Errors
  import opened Helpers
  import Meta

  /** the class of the objects RelationCollection values are */
  const RelationCollectionClass := "StORM\\RelationCollection"

  predicate IsRelationCollection(v: Value) {
    v.Obj? && v.cls == RelationCollectionClass
  }

  /** what the relation cache holds: a value assigned or loaded (an Entity, a
      RelationCollection or null), or an entity of class `target` built from `data` */
  datatype Related = Held(v: Value) | Built(target: string, data: seq<(string, Value)>)

  /** `gettype($v)`; floats are not modelled, so never "double" */
  function TypeName(v: Value): (r: string)
    ensures r != "double"
  {
    match v
    case Null => "NULL"
    case Bool(_) => "boolean"
    case Int(_) => "integer"
    case Str(_) => "string"
    case Arr(_) => "array"
    case _ => "object"
  }

  /** a `?string` in boolean context: null, "" and "0" are false */
  predicate TruthyCode(m: Option<string>) {
    m.Some? && Truthy(Str(m.value))
  }

  /** `$available[$mutation ?: $active] ?? ''`, a null key reading the key "" */
  function MutationSuffixOf(available: seq<(string, string)>, mutation: Option<string>, active: Option<string>): string {
    var code := if TruthyCode(mutation) then mutation.value else if active.Some? then active.value else "";
    match Get(available, code)
    case Some(suffix) => suffix
    case None => ""
  }

  /** a mutation is switched to when both the requested and the active code are truthy */
  predicate Switched(mutation: Option<string>, active: Option<string>) {
    TruthyCode(mutation) && TruthyCode(active)
  }

  /** the bag key under which setValue stores, and getValue reads, a property for a mutation */
  function ValueKey(property: string, mutation: Option<string>, active: Option<string>,
                    available: seq<(string, string)>): string {
    if Switched(mutation, active) then property + MutationSuffixOf(available, mutation, active) else property
  }

  /** the entry under k, when it is not null (`isset($a[$k])`) */
  predicate NonNull(a: seq<(string, Value)>, k: string) {
    match Get(a, k)
    case Some(v) => v != Null
    case None => false
  }

  /** `(string) $value` for the values `__set` puts into a foreign-key shadow */
  predicate Shadowable(v: Value) {
    v.Bool? || v.Int? || v.Str? || v.EntityRef?
  }

  function ShadowValue(v: Value): (r: Value)
    requires v.Null? || Shadowable(v)
    ensures r.Null? <==> v.Null?
  {
    if v.Null? then Null else Str(StringOf(v).value)
  }

  /** the names of the schema's relations */
  function Names(rels: seq<(string, Meta.RelationMeta)>): set<string> {
    set e | e in rels :: e.0
  }

  lemma NamesSnoc(rels: seq<(string, Meta.RelationMeta)>, i: int)
    requires 0 <= i < |rels|
    ensures Names(rels[..i + 1]) == Names(rels[..i]) + {rels[i].0}
  {
    assert rels[..i + 1] == rels[..i] + [rels[i]];
  }

  /** `unset($this->$name)` for every relation name in turn */
  function UnsetAll(fields: seq<(string, Value)>, rels: seq<(string, Meta.RelationMeta)>): seq<(string, Value)>
    decreases |rels|
  {
    if rels == [] then fields else UnsetAll(Remove(fields, rels[0].0), rels[1..])
  }

  lemma NamesCons(rels: seq<(string, Meta.RelationMeta)>)
    requires rels != []
    ensures Names(rels) == {rels[0].0} + Names(rels[1..])
  {
    assert rels == [rels[0]] + rels[1..];
  }

  /** Unsetting the names in turn removes exactly those names and keeps the other fields. */
  lemma {:induction false} UnsetAllGet(fields: seq<(string, Value)>, rels: seq<(string, Meta.RelationMeta)>, k: string)
    ensures Get(UnsetAll(fields, rels), k) == if k in Names(rels) then None else Get(fields, k)
    decreases |rels|
  {
    if rels != [] {
      NamesCons(rels);
      UnsetAllGet(Remove(fields, rels[0].0), rels[1..], k);
    }
  }

  /** Fields left after the unsets are declared fields whose name is no relation's. */
  lemma UnsetKeepsDeclared(fields: seq<(string, Value)>, rels: seq<(string, Meta.RelationMeta)>, declared: set<string>)
    requires forall k :: k in Keys(fields) ==> k in declared
    ensures forall k :: k in Keys(UnsetAll(fields, rels)) ==> k in declared - Names(rels)
  {
    forall k | k in Keys(UnsetAll(fields, rels)) ensures k in declared - Names(rels) {
      UnsetAllGet(fields, rels, k);
    }
  }

  lemma {:induction false} UnsetAllUnique(fields: seq<(string, Value)>, rels: seq<(string, Meta.RelationMeta)>)
    requires UniqueKeys(fields)
    ensures UniqueKeys(UnsetAll(fields, rels))
    decreases |rels|
  {
    if rels != [] {
      RemoveUnique(fields, rels[0].0);
      UnsetAllUnique(Remove(fields, rels[0].0), rels[1..]);
    }
  }

  // ---------------------------------------------------------------------
  // setParent: the shadows seeded from the property bag

  /** `$props[$key] ?? null` */
  function SourceValue(props: seq<(string, Value)>, key: string): Value {
    match Get(props, key)
    case Some(v) => v
    case None => Null
  }

  /** one relation's turn in setParent: a key-holder with no shadow yet moves its source
      column out of the property bag into a shadow under the relation's name */
  function Seed(fk: seq<(string, Value)>, props: seq<(string, Value)>, name: string, r: Meta.RelationMeta)
    : (seq<(string, Value)>, seq<(string, Value)>)
  {
    if r.kind.KeyHolder? && name !in Keys(fk) then
      (Put(fk, name, SourceValue(props, r.sourceKey)), Remove(props, r.sourceKey))
    else (fk, props)
  }

  function SeedAll(fk: seq<(string, Value)>, props: seq<(string, Value)>, rels: seq<(string, Meta.RelationMeta)>)
    : (seq<(string, Value)>, seq<(string, Value)>)
    decreases |rels|
  {
    if rels == [] then (fk, props)
    else
      var s := Seed(fk, props, rels[0].0, rels[0].1);
      SeedAll(s.0, s.1, rels[1..])
  }

  /** One step keeps the existing shadows and only removes from the bag. */
  lemma SeedStep(fk: seq<(string, Value)>, props: seq<(string, Value)>, name: string, r: Meta.RelationMeta, k: string)
    ensures k in Keys(fk) ==> k in Keys(Seed(fk, props, name, r).0) && Get(Seed(fk, props, name, r).0, k) == Get(fk, k)
    ensures k != name && k !in Keys(fk) ==> k !in Keys(Seed(fk, props, name, r).0)
    ensures k != r.sourceKey ==> Get(Seed(fk, props, name, r).1, k) == Get(props, k)
    ensures k !in Keys(props) ==> k !in Keys(Seed(fk, props, name, r).1)
  {
    if r.kind.KeyHolder? && name !in Keys(fk) {
      PutKeys(fk, name, SourceValue(props, r.sourceKey));
      GetPut(fk, name, SourceValue(props, r.sourceKey), k);
    }
  }

  lemma {:induction false} SeedAllUnique(fk: seq<(string, Value)>, props: seq<(string, Value)>,
                                         rels: seq<(string, Meta.RelationMeta)>)
    requires UniqueKeys(fk) && UniqueKeys(props)
    ensures UniqueKeys(SeedAll(fk, props, rels).0) && UniqueKeys(SeedAll(fk, props, rels).1)
    decreases |rels|
  {
    if rels != [] {
      var (name, r) := rels[0];
      if r.kind.KeyHolder? && name !in Keys(fk) {
        PutUnique(fk, name, SourceValue(props, r.sourceKey));
        RemoveUnique(props, r.sourceKey);
      }
      var s := Seed(fk, props, name, r);
      SeedAllUnique(s.0, s.1, rels[1..]);
    }
  }

  /** Existing shadows are kept as they are. */
  lemma {:induction false} SeedKeepsShadows(fk: seq<(string, Value)>, props: seq<(string, Value)>,
                                            rels: seq<(string, Meta.RelationMeta)>, k: string)
    requires k in Keys(fk)
    ensures k in Keys(SeedAll(fk, props, rels).0)
    ensures Get(SeedAll(fk, props, rels).0, k) == Get(fk, k)
    decreases |rels|
  {
    if rels != [] {
      var s := Seed(fk, props, rels[0].0, rels[0].1);
      SeedStep(fk, props, rels[0].0, rels[0].1, k);
      SeedKeepsShadows(s.0, s.1, rels[1..], k);
    }
  }

  /** The property bag only loses keys. */
  lemma {:induction false} SeedShrinks(fk: seq<(string, Value)>, props: seq<(string, Value)>,
                                       rels: seq<(string, Meta.RelationMeta)>, k: string)
    requires k !in Keys(props)
    ensures k !in Keys(SeedAll(fk, props, rels).1)
    decreases |rels|
  {
    if rels != [] {
      var s := Seed(fk, props, rels[0].0, rels[0].1);
      SeedStep(fk, props, rels[0].0, rels[0].1, k);
      SeedShrinks(s.0, s.1, rels[1..], k);
    }
  }

  /** Every key-holder relation ends up with a shadow. */
  lemma {:induction false} SeedShadowsKeyHolders(fk: seq<(string, Value)>, props: seq<(string, Value)>,
                                                 rels: seq<(string, Meta.RelationMeta)>, i: int)
    requires 0 <= i < |rels| && rels[i].1.kind.KeyHolder?
    ensures rels[i].0 in Keys(SeedAll(fk, props, rels).0)
    decreases |rels|
  {
    var s := Seed(fk, props, rels[0].0, rels[0].1);
    if i == 0 {
      if rels[0].0 !in Keys(fk) {
        PutKeys(fk, rels[0].0, SourceValue(props, rels[0].1.sourceKey));
      }
      SeedKeepsShadows(s.0, s.1, rels[1..], rels[0].0);
    } else {
      assert rels[1..][i - 1] == rels[i];
      SeedShadowsKeyHolders(s.0, s.1, rels[1..], i - 1);
    }
  }

  /** no relation other than the i-th has its name or its source column */
  ghost predicate Alone(rels: seq<(string, Meta.RelationMeta)>, i: int)
    requires 0 <= i < |rels|
  {
    forall j :: 0 <= j < |rels| && j != i ==> rels[j].0 != rels[i].0 && rels[j].1.sourceKey != rels[i].1.sourceKey
  }

  lemma AloneTail(rels: seq<(string, Meta.RelationMeta)>, i: int)
    requires 0 < i < |rels| && Alone(rels, i)
    ensures Alone(rels[1..], i - 1)
    ensures rels[0].0 != rels[i].0 && rels[0].1.sourceKey != rels[i].1.sourceKey
  {
    forall j | 0 <= j < |rels[1..]| && j != i - 1
      ensures rels[1..][j].0 != rels[1..][i - 1].0 && rels[1..][j].1.sourceKey != rels[1..][i - 1].1.sourceKey
    {
      assert rels[1..][j] == rels[j + 1];
    }
  }

  /** A key-holder with no shadow before, whose name and source column no other relation
      shares, is shadowed by its source column's value (null when absent), and the column
      leaves the property bag. */
  lemma {:induction false} SeedMovesSourceColumn(fk: seq<(string, Value)>, props: seq<(string, Value)>,
                                                 rels: seq<(string, Meta.RelationMeta)>, i: int)
    requires 0 <= i < |rels| && rels[i].1.kind.KeyHolder? && rels[i].0 !in Keys(fk) && Alone(rels, i)
    ensures Get(SeedAll(fk, props, rels).0, rels[i].0) == Some(SourceValue(props, rels[i].1.sourceKey))
    ensures rels[i].1.sourceKey !in Keys(SeedAll(fk, props, rels).1)
    decreases |rels|, 1
  {
    if i == 0 {
      SeedMovesFirst(fk, props, rels);
    } else {
      SeedMovesLater(fk, props, rels, i);
    }
  }

  /** SeedMovesSourceColumn past the first relation, which leaves the i-th's name and
      column alone */
  lemma {:induction false} SeedMovesLater(fk: seq<(string, Value)>, props: seq<(string, Value)>,
                                          rels: seq<(string, Meta.RelationMeta)>, i: int)
    requires 0 < i < |rels| && rels[i].1.kind.KeyHolder? && rels[i].0 !in Keys(fk) && Alone(rels, i)
    ensures Get(SeedAll(fk, props, rels).0, rels[i].0) == Some(SourceValue(props, rels[i].1.sourceKey))
    ensures rels[i].1.sourceKey !in Keys(SeedAll(fk, props, rels).1)
    decreases |rels|, 0
  {
    var s := Seed(fk, props, rels[0].0, rels[0].1);
    var name, key := rels[i].0, rels[i].1.sourceKey;
    AloneTail(rels, i);
    assert rels[1..][i - 1] == rels[i];
    SeedStep(fk, props, rels[0].0, rels[0].1, name);
    SeedStep(fk, props, rels[0].0, rels[0].1, key);
    SeedMovesSourceColumn(s.0, s.1, rels[1..], i - 1);
  }

  /** SeedMovesSourceColumn for the first relation */
  lemma SeedMovesFirst(fk: seq<(string, Value)>, props: seq<(string, Value)>, rels: seq<(string, Meta.RelationMeta)>)
    requires 0 < |rels| && rels[0].1.kind.KeyHolder? && rels[0].0 !in Keys(fk)
    ensures Get(SeedAll(fk, props, rels).0, rels[0].0) == Some(SourceValue(props, rels[0].1.sourceKey))
    ensures rels[0].1.sourceKey !in Keys(SeedAll(fk, props, rels).1)
  {
    var s := Seed(fk, props, rels[0].0, rels[0].1);
    var name, key := rels[0].0, rels[0].1.sourceKey;
    var v := SourceValue(props, key);
    PutKeys(fk, name, v);
    GetPut(fk, name, v, name);
    SeedKeepsShadows(s.0, s.1, rels[1..], name);
    SeedShrinks(s.0, s.1, rels[1..], key);
  }

  /** the loop of setParent over the schema's relations, on the four maps it changes */
  method SeedAndUnset(fk0: seq<(string, Value)>, props0: seq<(string, Value)>, fields0: seq<(string, Value)>,
                      declared0: set<string>, rels: seq<(string, Meta.RelationMeta)>)
    returns (fk: seq<(string, Value)>, props: seq<(string, Value)>, fields: seq<(string, Value)>, declared: set<string>)
    requires UniqueKeys(fk0) && UniqueKeys(props0) && UniqueKeys(fields0)
    requires forall k :: k in Keys(fields0) ==> k in declared0
    ensures (fk, props) == SeedAll(fk0, props0, rels)
    ensures fields == UnsetAll(fields0, rels) && declared == declared0 - Names(rels)
    ensures UniqueKeys(fk) && UniqueKeys(props) && UniqueKeys(fields)
    ensures forall k :: k in Keys(fields) ==> k in declared
  {
    fk, props, fields, declared := fk0, props0, fields0, declared0;
    SeedAllUnique(fk, props, rels);
    UnsetAllUnique(fields, rels);
    UnsetKeepsDeclared(fields, rels, declared);
    var i := 0;
    assert Names(rels[..0]) == {};
    while i < |rels|
      invariant 0 <= i <= |rels|
      invariant SeedAll(fk, props, rels[i..]) == SeedAll(fk0, props0, rels)
      invariant UnsetAll(fields, rels[i..]) == UnsetAll(fields0, rels)
      invariant declared == declared0 - Names(rels[..i])
    {
      var (name, r) := rels[i];
      ghost var fk1, props1 := fk, props;
      if r.kind.KeyHolder? && name !in Keys(fk) {
        fk := Put(fk, name, SourceValue(props, r.sourceKey));
        props := Remove(props, r.sourceKey);
      }
      assert (fk, props) == Seed(fk1, props1, name, r);
      assert rels[i..][1..] == rels[i + 1..];
      declared := declared - {name};
      fields := Remove(fields, name);
      NamesSnoc(rels, i);
      i := i + 1;
    }
    assert rels[i..] == [] && rels[..i] == rels;
  }

  // ---------------------------------------------------------------------
  // getRelationFromProperties

  /** The columns `prefix.rest`, renamed `rest`, in the order of the property bag. */
  function PrefixedData(props: seq<(string, Value)>, prefix: string): seq<(string, Value)>
    decreases |props|
  {
    if props == [] then []
    else
      var acc := PrefixedData(props[..|props| - 1], prefix);
      var (p, v) := props[|props| - 1];
      if OccursAt(p, prefix, 0) then Put(acc, p[|prefix|..], v) else acc
  }

  lemma UniqueSnoc(a: seq<(string, Value)>, e: (string, Value))
    requires UniqueKeys(a + [e])
    ensures UniqueKeys(a) && e.0 !in Keys(a)
  {
    KeysConcat(a, [e]);
    var ks := Keys(a + [e]);
    assert Keys(a) == ks[..|a|] && ks[|a|] == e.0;
  }

  lemma StripPrefix(p: string, prefix: string, k: string)
    ensures OccursAt(p, prefix, 0) ==> (prefix + k == p <==> k == p[|prefix|..])
    ensures !OccursAt(p, prefix, 0) ==> prefix + k != p
  {
    if OccursAt(p, prefix, 0) {
      assert p == prefix + p[|prefix|..];
    } else {
      assert (prefix + k)[..|prefix|] == prefix;
    }
  }

  lemma GetSnoc(a: seq<(string, Value)>, e: (string, Value), x: string)
    ensures Get(a + [e], x) == if x in Keys(a) then Get(a, x) else if x == e.0 then Some(e.1) else None
  {
    GetConcat(a, [e], x);
  }

  /** the step of PrefixedDataGet for one appended column */
  lemma PrefixedDataSnoc(a: seq<(string, Value)>, e: (string, Value), prefix: string, k: string)
    requires e.0 !in Keys(a)
    requires Get(PrefixedData(a, prefix), k) == Get(a, prefix + k)
    ensures Get(PrefixedData(a + [e], prefix), k) == Get(a + [e], prefix + k)
  {
    var props := a + [e];
    assert props[..|props| - 1] == a && props[|props| - 1] == e;
    var acc := PrefixedData(a, prefix);
    GetSnoc(a, e, prefix + k);
    StripPrefix(e.0, prefix, k);
    if OccursAt(e.0, prefix, 0) {
      assert PrefixedData(props, prefix) == Put(acc, e.0[|prefix|..], e.1);
      GetPut(acc, e.0[|prefix|..], e.1, k);
    } else {
      assert PrefixedData(props, prefix) == acc;
    }
  }

  /** The built data holds exactly the prefixed columns, under their names without the prefix. */
  lemma {:induction false} PrefixedDataGet(props: seq<(string, Value)>, prefix: string, k: string)
    requires UniqueKeys(props)
    ensures Get(PrefixedData(props, prefix), k) == Get(props, prefix + k)
    decreases |props|
  {
    if props != [] {
      var a, e := props[..|props| - 1], props[|props| - 1];
      assert props == a + [e];
      UniqueSnoc(a, e);
      PrefixedDataGet(a, prefix, k);
      PrefixedDataSnoc(a, e, prefix, k);
    }
  }

  /** getRelationFromProperties as written: a column is taken when the relation's name
      and separator occur anywhere in it, and its first |name| + 1 characters are cut */
  function ContainingData(props: seq<(string, Value)>, name: string): seq<(string, Value)>
    decreases |props|
  {
    if props == [] then []
    else
      var acc := ContainingData(props[..|props| - 1], name);
      var (p, v) := props[|props| - 1];
      var length := |name| + |Meta.Separator|;
      if Contains(p, name + Meta.Separator) then Put(acc, if length <= |p| then p[length..] else "", v) else acc
  }

  /** For the relation `type`, the column `subtype_id` of another relation is taken as
      written, under the key "pe_id". */
  lemma ContainingDataTakesInnerMatch()
    ensures ContainingData([("subtype_id", Str("7"))], "type") == [("pe_id", Str("7"))]
  {
    var props := [("subtype_id", Str("7"))];
    assert props[..0] == [];
    assert "type" + Meta.Separator == "type_";
    assert 0 <= 3 <= |"subtype_id"| - |"type_"| && OccursAt("subtype_id", "type_", 3);
    assert Contains("subtype_id", "type_");
    assert "subtype_id"[5..] == "pe_id";
  }

  /** With the prefix test, `subtype_id` is not a column of `type`. */
  lemma PrefixedDataSkipsInnerMatch()
    ensures PrefixedData([("subtype_id", Str("7"))], "type" + Meta.Separator) == []
  {
    var props := [("subtype_id", Str("7"))];
    assert props[..0] == [];
    assert "subtype_id"[0] != "type_"[0];
  }

  /** the shadow map after `__set($name, $value)` on a foreign-key name: null, a scalar
      or an entity is written as its string form; anything else leaves it */
  function ShadowSet(fk: seq<(string, Value)>, name: string, value: Value): seq<(string, Value)> {
    if value.Null? || Shadowable(value) then Put(fk, name, ShadowValue(value)) else fk
  }

  /** the relation cache after `__set($name, $value)` on a foreign-key name: a shadowed
      value drops the cached relation, and an entity (appended anew) or a relation
      collection (in place) becomes the cached relation */
  function CacheSet(rels: seq<(string, Related)>, name: string, value: Value): seq<(string, Related)> {
    var dropped := if value.Null? || Shadowable(value) then Remove(rels, name) else rels;
    if value.EntityRef? || IsRelationCollection(value) then Put(dropped, name, Held(value)) else dropped
  }

  /** The shadow keeps its place; it holds the string form when one is written. */
  lemma ShadowSetSpec(fk: seq<(string, Value)>, name: string, value: Value)
    requires UniqueKeys(fk) && name in Keys(fk)
    ensures UniqueKeys(ShadowSet(fk, name, value)) && Keys(ShadowSet(fk, name, value)) == Keys(fk)
    ensures Get(ShadowSet(fk, name, value), name)
            == if value.Null? || Shadowable(value) then Some(ShadowValue(value)) else Get(fk, name)
  {
    if value.Null? || Shadowable(value) {
      PutUnique(fk, name, ShadowValue(value));
      PutKeys(fk, name, ShadowValue(value));
      GetPut(fk, name, ShadowValue(value), name);
    }
  }

  /** The cache then holds the entity or collection assigned, and nothing for a scalar or null. */
  lemma CacheSetUnique(rels: seq<(string, Related)>, name: string, value: Value)
    requires UniqueKeys(rels)
    ensures UniqueKeys(CacheSet(rels, name, value))
    ensures Get(CacheSet(rels, name, value), name)
            == if value.EntityRef? || IsRelationCollection(value) then Some(Held(value))
               else if value.Null? || Shadowable(value) then None
               else Get(rels, name)
  {
    var dropped := if value.Null? || Shadowable(value) then Remove(rels, name) else rels;
    RemoveUnique(rels, name);
    PutUnique(dropped, name, Held(value));
    GetPut(dropped, name, Held(value), name);
  }

  // ---------------------------------------------------------------------
  // reading and writing values

  /** `getValue($property, $mutation)` over the shadow `fk`, the set fields, the bag and
      the mutation settings: the shadow first, then a field read for the active
      mutation, then the bag under the property's key (cast to the field's type when
      the field is declared) */
  function ValueOf(fk: seq<(string, Value)>, fields: seq<(string, Value)>, props: seq<(string, Value)>,
                   active: Option<string>, available: seq<(string, string)>,
                   property: string, mutation: Option<string>): (r: Result<Value>)
    ensures property in Keys(fk) ==> r == Ok(Get(fk, property).value)
    ensures r.Err? ==> r.error.NotExists?
    ensures r.Err? && r.error.notWhat == Mutation ==> r.error.name !in Keys(available)
    ensures r.Err? && r.error.notWhat == ValueCode ==> r.error.name !in Keys(props)
    ensures mutation.None? && property !in Keys(fk) && property !in Keys(fields)
            ==> (r.Ok? <==> property in Keys(props))
  {
    if property in Keys(fk) then Ok(Get(fk, property).value)
    else
      var hasField := property in Keys(fields);
      if hasField && (mutation.None? || mutation == active) then Ok(Get(fields, property).value)
      else if Switched(mutation, active) && mutation.value !in Keys(available) then
        Err(NotExists(Mutation, mutation.value))
      else
        var key := ValueKey(property, mutation, active, available);
        match Get(props, key)
        case None => Err(NotExists(ValueCode, key))
        case Some(v) => Ok(if hasField then CastScalar(v, TypeName(Get(fields, property).value)).value else v)
  }

  /** `__isset($name)`: a bag entry, or a shadow that is not null */
  predicate IssetOf(fk: seq<(string, Value)>, props: seq<(string, Value)>, name: string) {
    name in Keys(props) || NonNull(fk, name)
  }

  /** What isset admits can be read. */
  lemma IssetReadable(fk: seq<(string, Value)>, fields: seq<(string, Value)>, props: seq<(string, Value)>,
                      active: Option<string>, available: seq<(string, string)>, name: string)
    requires IssetOf(fk, props, name)
    ensures ValueOf(fk, fields, props, active, available, name, None).Ok?
  {
  }

  /** After `__set` on a foreign-key name with null or a scalar or an entity, the name
      reads as the string form written, and it is set unless null was written to a
      name the bag lacks. */
  lemma ShadowSetThenGet(fk: seq<(string, Value)>, fields: seq<(string, Value)>, props: seq<(string, Value)>,
                         active: Option<string>, available: seq<(string, string)>, name: string, value: Value)
    requires UniqueKeys(fk) && name in Keys(fk) && (value.Null? || Shadowable(value))
    ensures ValueOf(ShadowSet(fk, name, value), fields, props, active, available, name, None) == Ok(ShadowValue(value))
    ensures IssetOf(ShadowSet(fk, name, value), props, name) <==> !value.Null? || name in Keys(props)
  {
    ShadowSetSpec(fk, name, value);
  }

  /** After `__set` on any other name the name is set, and an undeclared one reads back
      as the value written. */
  lemma BagSetThenGet(fk: seq<(string, Value)>, fields: seq<(string, Value)>, props: seq<(string, Value)>,
                      active: Option<string>, available: seq<(string, string)>, name: string, value: Value)
    requires name !in Keys(fk)
    ensures IssetOf(fk, Put(props, name, value), name)
    ensures name !in Keys(fields) ==> ValueOf(fk, fields, Put(props, name, value), active, available, name, None) == Ok(value)
  {
    GetPut(props, name, value, name);
  }

  /** the shadow, the set fields, the bag and the error after setValue */
  datatype Written = Written(shadow: seq<(string, Value)>, values: seq<(string, Value)>,
                             bag: seq<(string, Value)>, err: Option<Error>)

  /** `setValue($property, $value, $mutation)`: the shadow is written when it holds the
      name; a set declared field read for the active mutation is written and mirrored
      into the bag when the bag has its key; otherwise the bag is written under the
      property's key, unless the requested mutation is unknown */
  function SetValueOf(fk: seq<(string, Value)>, fields: seq<(string, Value)>, props: seq<(string, Value)>,
                      active: Option<string>, available: seq<(string, string)>,
                      property: string, value: Value, mutation: Option<string>): Written
  {
    var shadow := if property in Keys(fk) then Put(fk, property, value) else fk;
    if NonNull(fields, property) && (mutation.None? || mutation == active) then
      var mirror := property + MutationSuffixOf(available, None, active);
      Written(shadow, Put(fields, property, value), if mirror in Keys(props) then Put(props, mirror, value) else props, None)
    else if Switched(mutation, active) && mutation.value !in Keys(available) then
      Written(shadow, fields, props, Some(NotExists(Mutation, mutation.value)))
    else
      Written(shadow, fields, Put(props, ValueKey(property, mutation, active, available), value), None)
  }

  /** setValue fails exactly on an unknown mutation code when it switches mutation and
      the property is not a set field read for the active mutation; a failure leaves the
      fields and the bag as they were. */
  lemma SetValueFails(fk: seq<(string, Value)>, fields: seq<(string, Value)>, props: seq<(string, Value)>,
                      active: Option<string>, available: seq<(string, string)>,
                      property: string, value: Value, mutation: Option<string>)
    ensures var w := SetValueOf(fk, fields, props, active, available, property, value, mutation);
            (w.err.Some? <==> !(NonNull(fields, property) && (mutation.None? || mutation == active))
                              && Switched(mutation, active) && mutation.value !in Keys(available))
            && (w.err.Some? ==> w.err == Some(NotExists(Mutation, mutation.value)) && w.values == fields && w.bag == props)
  {
  }

  /** setValue keeps every array free of repeated keys, and sets only fields that are set. */
  lemma SetValueUnique(fk: seq<(string, Value)>, fields: seq<(string, Value)>, props: seq<(string, Value)>,
                       active: Option<string>, available: seq<(string, string)>,
                       property: string, value: Value, mutation: Option<string>)
    requires UniqueKeys(fk) && UniqueKeys(fields) && UniqueKeys(props)
    ensures var w := SetValueOf(fk, fields, props, active, available, property, value, mutation);
            UniqueKeys(w.shadow) && UniqueKeys(w.values) && UniqueKeys(w.bag) && Keys(w.values) == Keys(fields)
  {
    var w := SetValueOf(fk, fields, props, active, available, property, value, mutation);
    PutUnique(fk, property, value);
    assert UniqueKeys(w.shadow);
    if NonNull(fields, property) && (mutation.None? || mutation == active) {
      var mirror := property + MutationSuffixOf(available, None, active);
      PutUnique(fields, property, value);
      PutKeys(fields, property, value);
      PutUnique(props, mirror, value);
    } else if !(Switched(mutation, active) && mutation.value !in Keys(available)) {
      PutUnique(props, ValueKey(property, mutation, active, available), value);
    }
  }

  /** getValue then reads what setValue wrote: for a foreign-key name always (the shadow
      is written before the mutation code is checked), and for a name that is neither a
      foreign key nor a field when the mutation code is known. */
  lemma SetValueThenGet(fk: seq<(string, Value)>, fields: seq<(string, Value)>, props: seq<(string, Value)>,
                        active: Option<string>, available: seq<(string, string)>,
                        property: string, value: Value, mutation: Option<string>)
    requires property in Keys(fk) || (property !in Keys(fields)
               && !(Switched(mutation, active) && mutation.value !in Keys(available)))
    ensures var w := SetValueOf(fk, fields, props, active, available, property, value, mutation);
            (property !in Keys(fk) ==> w.err.None?)
            && ValueOf(w.shadow, w.values, w.bag, active, available, property, mutation) == Ok(value)
  {
    var w := SetValueOf(fk, fields, props, active, available, property, value, mutation);
    if property in Keys(fk) {
      GetPut(fk, property, value, property);
      assert w.shadow == Put(fk, property, value);
    } else {
      var key := ValueKey(property, mutation, active, available);
      GetPut(props, key, value, key);
      assert !NonNull(fields, property);
      assert w == Written(fk, fields, Put(props, key, value), None);
    }
  }

  // ---------------------------------------------------------------------
  // reading a relation

  /** `__get($name)` over the bag, the relation cache and the schema's relations `rels`:
      a bag entry, else the cached relation, else a declared relation, built from the
      bag's columns when the entity holds its key and fetched (`load`) otherwise */
  function RelatedOf(props: seq<(string, Value)>, cache: seq<(string, Related)>,
                     rels: seq<(string, Meta.RelationMeta)>, name: string, load: Result<Value>): Result<Related>
  {
    if name in Keys(props) then Ok(Held(Get(props, name).value))
    else if name in Keys(cache) then Ok(Get(cache, name).value)
    else match Get(rels, name)
      case None => Err(NotExists(ValueCode, name))
      case Some(rel) =>
        if rel.kind.KeyHolder? && NonNull(props, name + Meta.Separator + rel.targetKey) then
          Ok(Built(rel.target, PrefixedData(props, name + Meta.Separator)))
        else if load.Err? then Err(load.error)
        else Ok(Held(load.value))
  }

  /** the relation cache after `__get($name)`: a relation newly read is appended */
  function CachedOf(props: seq<(string, Value)>, cache: seq<(string, Related)>,
                    rels: seq<(string, Meta.RelationMeta)>, name: string, load: Result<Value>): seq<(string, Related)>
  {
    var r := RelatedOf(props, cache, rels, name, load);
    if name in Keys(props) || name in Keys(cache) || r.Err? then cache else cache + [(name, r.value)]
  }

  /** A relation read once is cached: reading it again gives the same result whatever
      the repository would now return, and does not touch the cache. */
  lemma RelatedOfCached(props: seq<(string, Value)>, cache: seq<(string, Related)>,
                        rels: seq<(string, Meta.RelationMeta)>, name: string, load: Result<Value>, load': Result<Value>)
    requires RelatedOf(props, cache, rels, name, load).Ok?
    ensures UniqueKeys(cache) ==> UniqueKeys(CachedOf(props, cache, rels, name, load))
    ensures RelatedOf(props, CachedOf(props, cache, rels, name, load), rels, name, load')
            == RelatedOf(props, cache, rels, name, load)
    ensures CachedOf(props, CachedOf(props, cache, rels, name, load), rels, name, load')
            == CachedOf(props, cache, rels, name, load)
  {
    var r := RelatedOf(props, cache, rels, name, load);
    if name !in Keys(props) && name !in Keys(cache) {
      PutKeys(cache, name, r.value);
      if UniqueKeys(cache) {
        PutUnique(cache, name, r.value);
      }
      GetPut(cache, name, r.value, name);
      assert Put(cache, name, r.value) == CachedOf(props, cache, rels, name, load);
    }
  }

  /** Only a missing relation or a failed fetch is an error; the cache stays as it was. */
  lemma RelatedOfFails(props: seq<(string, Value)>, cache: seq<(string, Related)>,
                       rels: seq<(string, Meta.RelationMeta)>, name: string, load: Result<Value>)
    requires RelatedOf(props, cache, rels, name, load).Err?
    ensures name !in Keys(props) && name !in Keys(cache)
    ensures RelatedOf(props, cache, rels, name, load)
            == if Get(rels, name).None? then Err(NotExists(ValueCode, name)) else Err(load.error)
    ensures CachedOf(props, cache, rels, name, load) == cache
  {
  }

  /** A relation whose key the entity holds is built from the bag: the built entity's
      `k` is the bag's `name_k`. */
  lemma RelatedOfBuilt(props: seq<(string, Value)>, cache: seq<(string, Related)>,
                       rels: seq<(string, Meta.RelationMeta)>, name: string, load: Result<Value>, k: string)
    requires UniqueKeys(props) && name !in Keys(props) && name !in Keys(cache)
    requires Get(rels, name).Some? && Get(rels, name).value.kind.KeyHolder?
    requires NonNull(props, name + Meta.Separator + Get(rels, name).value.targetKey)
    ensures var r := RelatedOf(props, cache, rels, name, load);
            r.Ok? && r.value.Built? && r.value.target == Get(rels, name).value.target
            && Get(r.value.data, k) == Get(props, name + Meta.Separator + k)
  {
    PrefixedDataGet(props, name + Meta.Separator, k);
  }

  /** the return type `string|int` of getPK under strict types: anything else is a TypeError */
  function PkValue(v: Value): (r: Result<Value>)
    ensures r.Ok? <==> v.Int? || v.Str?
    ensures r.Ok? ==> r.value == v
    ensures r.Err? ==> r.error == TypeError
  {
    if v.Int? || v.Str? then Ok(v) else Err(TypeError)
  }

  // ---------------------------------------------------------------------
  // the entity

  class Entity {
    /** the public fields the class declares and that are not unset */
    var declared: set<string>
    /** `get_object_vars`: the declared fields that hold a value */
    var fields: seq<(string, Value)>
    var properties: seq<(string, Value)>
    var foreignKeys: seq<(string, Value)>
    var relations: seq<(string, Related)>
    /** the identity of the parent repository or collection */
    var parent: Option<nat>
    var activeMutation: Option<string>
    var availableMutations: seq<(string, string)>

    /** PHP arrays never repeat a key, and only declared fields hold values. */
    ghost predicate Valid()
      reads this
    {
      UniqueKeys(properties) && UniqueKeys(foreignKeys) && UniqueKeys(relations) && UniqueKeys(fields)
      && forall k :: k in Keys(fields) ==> k in declared
    }

    /** an entity without parent or values, of a class declaring `declared` with the
        defaults `defaults` */
    constructor (declared: set<string>, defaults: seq<(string, Value)>,
                 mutations: seq<(string, string)>, mutation: Option<string>)
      requires UniqueKeys(defaults) && forall k :: k in Keys(defaults) ==> k in declared
      ensures Valid()
      ensures this.declared == declared && fields == defaults && availableMutations == mutations
      ensures activeMutation == mutation && parent == None
      ensures properties == [] && foreignKeys == [] && relations == []
    {
      this.declared := declared;
      fields := defaults;
      properties, foreignKeys, relations := [], [], [];
      parent := None;
      activeMutation := mutation;
      availableMutations := mutations;
    }

    /** `getMutationSuffix($mutation)`: the suffix of the given code, or of the active one
        when the code is falsy, or "" */
    function MutationSuffix(mutation: Option<string>): (r: string)
      reads this
      ensures r == "" || r in ValuesOf(availableMutations)
      ensures TruthyCode(mutation) && mutation.value in Keys(availableMutations)
              ==> (mutation.value, r) in availableMutations
      ensures !TruthyCode(mutation) ==> r == MutationSuffixOf(availableMutations, None, activeMutation)
    {
      var code := if TruthyCode(mutation) then mutation.value else if activeMutation.Some? then activeMutation.value else "";
      var r := MutationSuffixOf(availableMutations, mutation, activeMutation);
      if Get(availableMutations, code).Some? then
        var i :| 0 <= i < |availableMutations| && availableMutations[i] == (code, r);
        assert ValuesOf(availableMutations)[i] == r;
        r
      else r
    }

    /** `getValue($property, $mutation)` */
    function GetValue(property: string, mutation: Option<string>): Result<Value>
      reads this
    {
      ValueOf(foreignKeys, fields, properties, activeMutation, availableMutations, property, mutation)
    }

    /** `__isset($name)` */
    predicate Isset(name: string)
      reads this
    {
      IssetOf(foreignKeys, properties, name)
    }

    /** `getPK()`, with the parent's primary-key property, or None without a parent. An
        undeclared name that `__isset` admits is read through `__get` (`rels` and `load`
        as for MagicGet), so a set foreign key yields its related entity; the return type
        `string|int` refuses every other value. */
    function GetPK(pkName: Option<string>, rels: seq<(string, Meta.RelationMeta)>, load: Result<Value>): (r: Result<Value>)
      reads this
      ensures r.Ok? ==> r.value.Int? || r.value.Str?
      ensures pkName.None? ==> (r.Ok? <==> properties != [] && Truthy(properties[0].1)
                                            && (properties[0].1.Int? || properties[0].1.Str?))
      ensures pkName.None? && r.Ok? ==> r.value == properties[0].1
      ensures pkName.Some? && NonNull(fields, pkName.value) ==>
                (r.Ok? <==> Get(fields, pkName.value).value.Int? || Get(fields, pkName.value).value.Str?)
      ensures pkName.Some? && NonNull(fields, pkName.value) && r.Ok? ==> Get(fields, pkName.value) == Some(r.value)
      ensures pkName.Some? && !NonNull(fields, pkName.value) && pkName.value !in declared
              && IssetOf(foreignKeys, properties, pkName.value) ==>
                var g := RelatedOf(properties, relations, rels, pkName.value, load);
                (r.Ok? <==> g.Ok? && g.value.Held? && (g.value.v.Int? || g.value.v.Str?))
                && (r.Ok? ==> g == Ok(Held(r.value)))
                && (g.Err? ==> r == Err(g.error))
                && (g.Ok? && r.Err? ==> r.error == TypeError)
      ensures pkName.Some? && !NonNull(fields, pkName.value)
              && (pkName.value in declared || !IssetOf(foreignKeys, properties, pkName.value)) ==>
                (r.Ok? ==> Get(properties, pkName.value) == Some(r.value))
                && (NonNull(properties, pkName.value) && r.Err? ==> r.error == TypeError)
                && (!NonNull(properties, pkName.value) ==> r == Err(InvalidState(PkIsNotSet)))
    {
      match pkName
      case None =>
        if properties != [] && Truthy(properties[0].1) then PkValue(properties[0].1)
        else Err(InvalidState(PkIsNotSet))
      case Some(pk) =>
        if NonNull(fields, pk) then PkValue(Get(fields, pk).value)
        else if pk !in declared && IssetOf(foreignKeys, properties, pk) then
          // `isset($this->$pk)` went through `__isset`, so `$this->$pk` goes through `__get`
          match RelatedOf(properties, relations, rels, pk, load)
          case Err(e) => Err(e)
          case Ok(Held(v)) => PkValue(v)
          case Ok(Built(_, _)) => Err(TypeError)
        else if NonNull(properties, pk) then PkValue(Get(properties, pk).value)
        else Err(InvalidState(PkIsNotSet))
    }

    /** `__set($name, $value)`: on a foreign-key name, null and scalars and entities go to
        the shadow (as strings) and drop the cached relation, entities and relation
        collections are cached, and anything else is ignored; other names go to the bag */
    method MagicSet(name: string, value: Value)
      requires Valid()
      modifies this
      ensures Valid()
      ensures declared == old(declared) && fields == old(fields) && parent == old(parent)
      ensures activeMutation == old(activeMutation) && availableMutations == old(availableMutations)
      ensures name !in Keys(old(foreignKeys)) ==>
                properties == Put(old(properties), name, value) && foreignKeys == old(foreignKeys)
                && relations == old(relations)
      ensures name in Keys(old(foreignKeys)) ==>
                properties == old(properties) && foreignKeys == ShadowSet(old(foreignKeys), name, value)
                && relations == CacheSet(old(relations), name, value)
    {
      if name in Keys(foreignKeys) {
        ShadowSetSpec(foreignKeys, name, value);
        CacheSetUnique(relations, name, value);
        foreignKeys, relations := ShadowSet(foreignKeys, name, value), CacheSet(relations, name, value);
      } else {
        PutUnique(properties, name, value);
        properties := Put(properties, name, value);
      }
    }

    /** `$entity->$name = $value` from outside the class: a declared field is written
        directly, any other name goes through `__set` */
    method Assign(name: string, value: Value)
      requires Valid()
      modifies this
      ensures Valid()
      ensures name in old(declared) ==>
                fields == Put(old(fields), name, value) && properties == old(properties)
                && foreignKeys == old(foreignKeys) && relations == old(relations)
      ensures name !in old(declared) ==> fields == old(fields)
      ensures name !in old(declared) && name !in Keys(old(foreignKeys)) ==> properties == Put(old(properties), name, value)
      ensures declared == old(declared) && parent == old(parent)
    {
      if name in declared {
        fields := Put(fields, name, value);
        PutUnique(old(fields), name, value);
        PutKeys(old(fields), name, value);
      } else {
        MagicSet(name, value);
      }
    }

    /** `setValue($property, $value, $mutation)` */
    method SetValue(property: string, value: Value, mutation: Option<string>) returns (err: Option<Error>)
      requires Valid()
      modifies this
      ensures Valid()
      ensures declared == old(declared) && relations == old(relations) && parent == old(parent)
      ensures activeMutation == old(activeMutation) && availableMutations == old(availableMutations)
      ensures Written(foreignKeys, fields, properties, err)
              == SetValueOf(old(foreignKeys), old(fields), old(properties), activeMutation, availableMutations,
                            property, value, mutation)
    {
      SetValueUnique(foreignKeys, fields, properties, activeMutation, availableMutations, property, value, mutation);
      var w := SetValueOf(foreignKeys, fields, properties, activeMutation, availableMutations, property, value, mutation);
      foreignKeys, fields, properties, err := w.shadow, w.values, w.bag, w.err;
    }

    /** `setParent($parent, false)`: the same parent changes nothing; otherwise every
        key-holder relation without a shadow takes its source column from the bag, and the
        declared field of every relation name is unset */
    method SetParent(p: nat, rels: seq<(string, Meta.RelationMeta)>)
      requires Valid()
      modifies this
      ensures Valid()
      ensures old(parent) == Some(p) ==> unchanged(this)
      ensures old(parent) != Some(p) ==>
                parent == Some(p)
                && (foreignKeys, properties) == SeedAll(old(foreignKeys), old(properties), rels)
                && declared == old(declared) - Names(rels)
                && fields == UnsetAll(old(fields), rels)
                && relations == old(relations)
      ensures activeMutation == old(activeMutation) && availableMutations == old(availableMutations)
      // so that every relation name is afterwards read and written through __get and __set
      ensures old(parent) != Some(p) ==> forall e :: e in rels ==> e.0 !in declared
    {
      if parent == Some(p) {
        return;
      }
      parent := Some(p);
      foreignKeys, properties, fields, declared := SeedAndUnset(foreignKeys, properties, fields, declared, rels);
    }

    /** getRelationFromProperties, as intended: the relation's columns are those whose
        name starts with the relation's name and the separator */
    method RelationFromProperties(name: string) returns (data: seq<(string, Value)>)
      ensures data == PrefixedData(properties, name + Meta.Separator)
    {
      var prefix := name + Meta.Separator;
      data := [];
      var i := 0;
      while i < |properties|
        invariant 0 <= i <= |properties|
        invariant data == PrefixedData(properties[..i], prefix)
      {
        var (p, v) := properties[i];
        assert properties[..i + 1][..i] == properties[..i];
        if |prefix| <= |p| && p[..|prefix|] == prefix {
          data := Put(data, p[|prefix|..], v);
        }
        i := i + 1;
      }
      assert properties[..i] == properties;
    }

    /** `__get($name)`: the bag, then the relation cache, then the schema's relations
        `rels`; `load` is what getRelation() would fetch through the repository */
    method MagicGet(name: string, rels: seq<(string, Meta.RelationMeta)>, load: Result<Value>) returns (r: Result<Related>)
      requires Valid()
      modifies this
      ensures Valid()
      ensures declared == old(declared) && fields == old(fields) && properties == old(properties)
      ensures foreignKeys == old(foreignKeys) && parent == old(parent)
      ensures activeMutation == old(activeMutation) && availableMutations == old(availableMutations)
      ensures r == RelatedOf(properties, old(relations), rels, name, load)
      ensures relations == CachedOf(properties, old(relations), rels, name, load)
    {
      var rel := Get(rels, name);
      if name !in Keys(properties) && name !in Keys(relations) && rel.Some? && rel.value.kind.KeyHolder?
         && NonNull(properties, name + Meta.Separator + rel.value.targetKey) {
        // the entity holds the relation's key: build the related entity from the bag
        var data := RelationFromProperties(name);
        r := Ok(Built(rel.value.target, data));
      } else {
        r := RelatedOf(properties, relations, rels, name, load);
      }
      if r.Ok? && name !in Keys(properties) && name !in Keys(relations) {
        RelatedOfCached(properties, relations, rels, name, load, load);
        relations := relations + [(name, r.value)];
      }
    }
  }
}
