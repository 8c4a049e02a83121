/** The schema metadata: table names derived from entity classes (StORM\Meta\Table),
    relations read from a property's type (StORM\Meta\Relation) and the foreign-key
    constraints derived from relations (StORM\Meta\Constraint). */
module Meta {
  import opened Php
  import opened Errors

  /** Structure::NAME_SEPARATOR and Repository::RELATION_SEPARATOR */
  const Separator := "_"

  /** the three kinds of relation: the source holds the key (N:1), the target holds it
      (1:N), or a junction table `via` holds both (N:N, StORM\Meta\RelationNxN) */
  datatype RelationKind = KeyHolder | Inverse | ManyToMany(via: string, sourceViaKey: string, targetViaKey: string)

  /** a loaded relation of the schema */
  datatype RelationMeta = RelationMeta(name: string, source: string, target: string, sourceKey: string,
                                       targetKey: string, nullable: bool, kind: RelationKind)

  // ---------------------------------------------------------------------
  // Table::getTableNameFromClass

  /** the namespaces removed from a class name, in the order they are removed */
  const StripNamespaces: seq<string> := ["DB\\", "App\\"]

  /** every `DB\` and then every `App\` removed, the remaining backslashes turned into
      underscores, and the whole lower-cased */
  function TableNameFromClass(cls: string): string {
    Lower(ReplaceAll(ReplaceAll(ReplaceAll(cls, "DB\\", ""), "App\\", ""), "\\", "_"))
  }

  lemma {:induction false} ReplaceCharRemoves(s: string, c: char, rep: string)
    requires c !in rep
    ensures c !in ReplaceAll(s, [c], rep)
    decreases |s|
  {
    if |s| >= 1 {
      if s[..1] == [c] {
        ReplaceCharRemoves(s[1..], c, rep);
      } else {
        ReplaceCharRemoves(s[1..], c, rep);
        assert s[0] != c;
      }
    }
  }

  lemma NotContainsFromChar(s: string, sub: string, k: int)
    requires 0 <= k < |sub| && sub[k] !in s
    ensures !Contains(s, sub)
  {
    forall i | 0 <= i <= |s| - |sub| ensures !OccursAt(s, sub, i) {
      assert s[i..i + |sub|][k] == s[i + k];
      assert s[i + k] in s;
    }
  }

  /** A table name holds no backslash and no upper-case ASCII letter. */
  lemma TableNameShape(cls: string)
    ensures '\\' !in TableNameFromClass(cls)
    ensures forall i :: 0 <= i < |TableNameFromClass(cls)| ==> !('A' <= TableNameFromClass(cls)[i] <= 'Z')
  {
    var t := ReplaceAll(ReplaceAll(ReplaceAll(cls, "DB\\", ""), "App\\", ""), "\\", "_");
    ReplaceCharRemoves(ReplaceAll(ReplaceAll(cls, "DB\\", ""), "App\\", ""), '\\', "_");
    var r := Lower(t);
    forall i | 0 <= i < |r| ensures r[i] != '\\' {
      assert t[i] in t;
    }
  }

  lemma LowerIdempotent(s: string)
    requires forall i :: 0 <= i < |s| ==> !('A' <= s[i] <= 'Z')
    ensures Lower(s) == s
  {
  }

  /** Deriving the name of a derived name changes nothing. */
  lemma TableNameIdempotent(cls: string)
    ensures TableNameFromClass(TableNameFromClass(cls)) == TableNameFromClass(cls)
  {
    var t := TableNameFromClass(cls);
    TableNameShape(cls);
    NotContainsFromChar(t, "DB\\", 2);
    NotContainsFromChar(t, "App\\", 3);
    NotContainsFromChar(t, "\\", 0);
    LowerIdempotent(t);
  }

  /** the fields of a Table annotation that the model keeps */
  class Table {
    var name: string
    var engine: Option<string>
    var collate: Option<string>
    var comment: string

    /** `new Table($class)`: the name derived from the class, no engine or collation */
    constructor (cls: string)
      ensures name == TableNameFromClass(cls) && engine == None && collate == None && comment == ""
    {
      name := TableNameFromClass(cls);
      engine, collate, comment := None, None, "";
    }
  }

  // ---------------------------------------------------------------------
  // Annotation schemas

  /** the four keys a table annotation may carry, each with a string value */
  const TableKeys: set<string> := {"name", "engine", "collate", "comment"}

  /** `Table::getSchema()` applied to an annotation: unknown keys and non-string values
      are refused */
  function TableSchemaAdmits(json: seq<(string, Value)>): (ok: bool)
    ensures ok <==> forall i :: 0 <= i < |json| ==> json[i].0 in TableKeys && json[i].1.Str?
  {
    if json == [] then true
    else json[0].0 in TableKeys && json[0].1.Str? && TableSchemaAdmits(json[1..])
  }

  /** the referential actions Constraint::getSchema() accepts for onUpdate and onDelete */
  const Actions: set<string> := {"CASCADE", "SET NULL", "NO ACTION", "RESTRICT"}

  /** an onUpdate/onDelete value as the schema reads it: absent or null gives the
      default null, an accepted action is kept, anything else is refused */
  function ActionOf(given: Option<Value>): (r: Option<Option<string>>)
    ensures r.Some? && r.value.Some? ==> r.value.value in Actions
    ensures given.None? || given.value.Null? ==> r == Some(None)
    ensures r.None? <==> given.Some? && !given.value.Null? && !(given.value.Str? && given.value.s in Actions)
  {
    match given
    case None => Some(None)
    case Some(Null) => Some(None)
    case Some(Str(a)) => if a in Actions then Some(Some(a)) else None
    case Some(_) => None
  }

  // ---------------------------------------------------------------------
  // Constraint

  /** a foreign-key constraint, with the fields setDefaultsFromRelation* assign */
  class Constraint {
    var name: string
    var source: string
    var target: string
    var sourceKey: string
    var targetKey: string
    var onDelete: Option<string>
    var onUpdate: Option<string>

    constructor (name: string)
      ensures this.name == name && onDelete == None && onUpdate == None
    {
      this.name := name;
      source, target, sourceKey, targetKey := "", "", "", "";
      onDelete, onUpdate := None, None;
    }

    /** `setDefaultsFromRelation($relation)`: name, ends and keys copied from the relation */
    method SetDefaultsFromRelation(r: RelationMeta)
      modifies this
      ensures name == r.name && source == r.source && sourceKey == r.sourceKey
      ensures target == r.target && targetKey == r.targetKey
      ensures onDelete == old(onDelete) && onUpdate == old(onUpdate)
    {
      name := r.name;
      source := r.source;
      sourceKey := r.sourceKey;
      target := r.target;
      targetKey := r.targetKey;
    }

    /** `setDefaultsFromRelationNxN($schemaManager, $relation, $type)`: the constraint of one
        side of the junction table; `tableOf` gives the table name of an entity class */
    method SetDefaultsFromRelationNxN(tableOf: string -> string, r: RelationMeta, kind: string) returns (err: Option<Error>)
      requires r.kind.ManyToMany?
      modifies this
      ensures err.Some? <==> kind != "source" && kind != "target"
      ensures err.Some? ==> err.value == InvalidArgument(UnknownConstraintType(kind))
      ensures err.Some? ==> name == old(name) && source == old(source) && target == old(target)
                            && sourceKey == old(sourceKey) && targetKey == old(targetKey)
      ensures err.None? ==> name == r.kind.via + Separator + kind && source == r.kind.via
      ensures kind == "source" ==> sourceKey == r.kind.sourceViaKey && targetKey == r.sourceKey && target == tableOf(r.source)
      ensures kind == "target" ==> sourceKey == r.kind.targetViaKey && targetKey == r.targetKey && target == tableOf(r.target)
      ensures onDelete == old(onDelete) && onUpdate == old(onUpdate)
    {
      if kind != "source" && kind != "target" {
        return Some(InvalidArgument(UnknownConstraintType(kind)));
      }
      var cls := if kind == "source" then r.source else r.target;
      name := r.kind.via + Separator + kind;
      source := r.kind.via;
      sourceKey := if kind == "source" then r.kind.sourceViaKey else r.kind.targetViaKey;
      target := tableOf(cls);
      targetKey := if kind == "source" then r.sourceKey else r.targetKey;
      return None;
    }
  }

  // ---------------------------------------------------------------------
  // Relation::loadFromType

  /** `explode($sep, $s)`: the pieces between the separators, at least one */
  function Split(s: string, sep: char): (r: seq<string>)
    ensures |r| >= 1
    ensures forall i :: 0 <= i < |r| ==> sep !in r[i]
  {
    if s == [] then [""]
    else
      var rest := Split(s[1..], sep);
      if s[0] == sep then [""] + rest else [[s[0]] + rest[0]] + rest[1..]
  }

  lemma {:induction false} ImplodeCons(glue: string, x: string, rest: seq<string>)
    requires rest != []
    ensures Implode(glue, [x] + rest) == x + glue + Implode(glue, rest)
    decreases |rest|
  {
    var all := [x] + rest;
    if |rest| == 1 {
      assert all[..1] == [x];
    } else {
      var front := rest[..|rest| - 1];
      assert all[..|all| - 1] == [x] + front;
      ImplodeCons(glue, x, front);
    }
  }

  lemma ImplodeHead(glue: string, c: char, first: string, rest: seq<string>)
    ensures Implode(glue, [[c] + first] + rest) == [c] + Implode(glue, [first] + rest)
  {
    if rest == [] {
    } else {
      ImplodeCons(glue, [c] + first, rest);
      ImplodeCons(glue, first, rest);
    }
  }

  /** Joining the pieces with the separator gives the string back. */
  lemma {:induction false} SplitImplode(s: string, sep: char)
    ensures Implode([sep], Split(s, sep)) == s
  {
    if s != [] {
      var rest := Split(s[1..], sep);
      SplitImplode(s[1..], sep);
      if s[0] == sep {
        ImplodeCons([sep], "", rest);
      } else {
        ImplodeHead([sep], s[0], rest[0], rest[1..]);
        assert [rest[0]] + rest[1..] == rest;
      }
    }
  }

  /** the position of the first `c` */
  function FirstIndex(s: string, c: char): (r: Option<nat>)
    ensures r.Some? ==> r.value < |s| && s[r.value] == c && c !in s[..r.value]
    ensures r.None? ==> c !in s
  {
    if s == [] then None
    else if s[0] == c then Some(0)
    else match FirstIndex(s[1..], c)
      case None => None
      case Some(i) => assert s[..i + 1] == [s[0]] + s[1..][..i]; Some(i + 1)
  }

  /** the position of the last `c` */
  function LastIndex(s: string, c: char): (r: Option<nat>)
    ensures r.Some? ==> r.value < |s| && s[r.value] == c && c !in s[r.value + 1..]
    ensures r.None? ==> c !in s
  {
    if s == [] then None
    else if s[|s| - 1] == c then Some(|s| - 1)
    else
      var front := s[..|s| - 1];
      assert s == front + [s[|s| - 1]];
      match LastIndex(front, c)
      case None => None
      case Some(i) => assert s[i + 1..] == front[i + 1..] + [s[|s| - 1]]; Some(i)
  }

  /** the group of `/\<(.+)\>/`: from after the first `<` to the last `>`, at least one
      character (a type string holds no line break) */
  function AngleGroup(s: string): (r: Option<string>)
    ensures r.Some? ==> |r.value| >= 1
  {
    match (FirstIndex(s, '<'), LastIndex(s, '>'))
    case (Some(i), Some(j)) => if j >= i + 2 then Some(s[i + 1..j]) else None
    case _ => None
  }

  /** the last position k >= 1 where `[]` starts, if any */
  function LastBrackets(s: string): (r: Option<nat>)
    ensures r.Some? ==> 1 <= r.value && OccursAt(s, "[]", r.value)
    ensures r.Some? ==> forall k :: r.value < k ==> !OccursAt(s, "[]", k)
    ensures r.None? ==> forall k :: 1 <= k ==> !OccursAt(s, "[]", k)
    decreases |s|
  {
    if |s| < 3 then None
    else if s[|s| - 2..] == "[]" then Some(|s| - 2)
    else
      var front := s[..|s| - 1];
      assert forall k :: OccursAt(s, "[]", k) ==> OccursAt(front, "[]", k) by {
        forall k | OccursAt(s, "[]", k) ensures OccursAt(front, "[]", k) {
          assert k + 2 < |s|;
          assert front[k..k + 2] == s[k..k + 2];
        }
      }
      match LastBrackets(front)
      case None => None
      case Some(k) =>
        assert front[k..k + 2] == s[k..k + 2];
        Some(k)
  }

  /** the group of `/(.+)\[\]/`: everything before the last `[]` that is not at the start */
  function BracketGroup(s: string): (r: Option<string>)
    ensures r.Some? ==> |r.value| >= 1 && r.value + "[]" <= s
  {
    match LastBrackets(s)
    case None => None
    case Some(k) => assert s[..k] + "[]" == s[..k + 2]; Some(s[..k])
  }

  /** PHP truthiness of a string */
  predicate TruthyString(s: string) {
    s != "" && s != "0"
  }

  /** One alternative of the type: the generic or array element type when the patterns
      find one, otherwise the alternative itself, which then names a key-holder. A group
      `0` is falsy, so it neither stops the pattern loop nor counts as a target. */
  function Candidate(alt: string): (string, bool) {
    var angle := AngleGroup(alt);
    var found := if angle.Some? && TruthyString(angle.value) then angle else BracketGroup(alt);
    var keyHolder := !(found.Some? && TruthyString(found.value));
    (if found.Some? then found.value else alt, keyHolder)
  }

  /** the target without a leading backslash */
  function StripLeadingBackslash(t: string): string {
    if |t| >= 1 && t[0] == '\\' then t[1..] else t
  }

  /** what loadFromType leaves behind: the nullable flag and the target with its
      key-holder flag, if one was found */
  datatype TypeLoad = TypeLoad(nullable: bool, hit: Option<(string, bool)>)

  /** one pass of the loop of loadFromType: `null` in any case marks the relation nullable;
      otherwise, while no target is known, an alternative that names an entity gives it */
  function ScanStep(alt: string, isEntity: string -> bool, acc: TypeLoad): TypeLoad {
    if Lower(alt) == "null" then acc.(nullable := true)
    else if acc.hit.Some? then acc
    else
      var (t, kh) := Candidate(alt);
      if !isEntity(t) then acc
      else acc.(hit := Some((StripLeadingBackslash(t), kh)))
  }

  /** the loop of loadFromType over the alternatives that remain */
  function Scan(alts: seq<string>, isEntity: string -> bool, acc: TypeLoad): TypeLoad {
    if alts == [] then acc
    else Scan(alts[1..], isEntity, ScanStep(alts[0], isEntity, acc))
  }

  /** an alternative that names an entity */
  predicate Hits(alt: string, isEntity: string -> bool) {
    Lower(alt) != "null" && isEntity(Candidate(alt).0)
  }

  /** The relation is nullable exactly when it was already or some alternative is
      `null` in any case, even one that follows the target. */
  lemma {:induction false} ScanNullable(alts: seq<string>, isEntity: string -> bool, acc: TypeLoad)
    ensures Scan(alts, isEntity, acc).nullable <==> acc.nullable || exists a :: a in alts && Lower(a) == "null"
  {
    if alts != [] {
      MemberCons(alts[0], alts);
      var alt := alts[0];
      if Lower(alt) == "null" {
        ScanNullable(alts[1..], isEntity, acc.(nullable := true));
      } else if acc.hit.Some? {
        ScanNullable(alts[1..], isEntity, acc);
      } else {
        var (t, kh) := Candidate(alt);
        if !isEntity(t) {
          ScanNullable(alts[1..], isEntity, acc);
        } else {
          ScanNullable(alts[1..], isEntity, acc.(hit := Some((StripLeadingBackslash(t), kh))));
        }
      }
      forall a ensures a in alts <==> a == alt || a in alts[1..] {
        MemberCons(a, alts);
      }
    }
  }

  /** A target already found is kept; otherwise the first alternative that names an
      entity gives the target, without its leading backslash, and its key-holder flag. */
  lemma {:induction false} ScanHit(alts: seq<string>, isEntity: string -> bool, acc: TypeLoad)
    ensures acc.hit.Some? ==> Scan(alts, isEntity, acc).hit == acc.hit
    ensures acc.hit.None? ==>
      match FirstHit(alts, isEntity)
      case None => Scan(alts, isEntity, acc).hit.None?
      case Some(i) => Scan(alts, isEntity, acc).hit
                      == Some((StripLeadingBackslash(Candidate(alts[i]).0), Candidate(alts[i]).1))
  {
    if alts != [] {
      var alt := alts[0];
      if Lower(alt) == "null" {
        ScanHit(alts[1..], isEntity, acc.(nullable := true));
      } else if acc.hit.Some? {
        ScanHit(alts[1..], isEntity, acc);
      } else {
        var (t, kh) := Candidate(alt);
        if !isEntity(t) {
          ScanHit(alts[1..], isEntity, acc);
        } else {
          ScanHit(alts[1..], isEntity, acc.(hit := Some((StripLeadingBackslash(t), kh))));
        }
      }
    }
  }

  /** the position of the first alternative naming an entity */
  function FirstHit(alts: seq<string>, isEntity: string -> bool): (r: Option<nat>)
    ensures r.Some? ==> r.value < |alts| && Hits(alts[r.value], isEntity)
                        && forall j :: 0 <= j < r.value ==> !Hits(alts[j], isEntity)
    ensures r.None? ==> forall j :: 0 <= j < |alts| ==> !Hits(alts[j], isEntity)
  {
    if alts == [] then None
    else if Hits(alts[0], isEntity) then Some(0)
    else match FirstHit(alts[1..], isEntity)
      case None => None
      case Some(i) => Some(i + 1)
  }

  /** the relation being read from a property, with the fields loadFromType sets */
  class Relation {
    var name: string
    var source: Option<string>
    var target: Option<string>
    var isKeyHolder: Option<bool>
    var nullable: bool

    constructor (name: string, source: Option<string>)
      ensures this.name == name && this.source == source && target == None && isKeyHolder == None && !nullable
    {
      this.name := name;
      this.source := source;
      target, isKeyHolder, nullable := None, None, false;
    }

    /** `isLoaded()`: both ends are set */
    predicate IsLoaded()
      reads this
    {
      target.Some? && source.Some?
    }

    /** `loadFromType($type)`; `isEntity` says which class names are entity classes */
    method LoadFromType(ty: string, isEntity: string -> bool) returns (found: bool)
      modifies this
      ensures var r := Scan(Split(ty, '|'), isEntity, TypeLoad(old(nullable), None));
        nullable == r.nullable && found == r.hit.Some?
        && (r.hit.Some? ==> target == Some(r.hit.value.0) && isKeyHolder == Some(r.hit.value.1))
        && (r.hit.None? ==> target == old(target) && isKeyHolder == old(isKeyHolder))
      ensures name == old(name) && source == old(source)
    {
      var alts := Split(ty, '|');
      ghost var start := TypeLoad(nullable, None);
      found := false;
      var i := 0;
      ghost var acc := start;
      while i < |alts|
        invariant 0 <= i <= |alts|
        invariant acc.nullable == nullable && (found <==> acc.hit.Some?)
        invariant acc.hit.Some? ==> target == Some(acc.hit.value.0) && isKeyHolder == Some(acc.hit.value.1)
        invariant acc.hit.None? ==> target == old(target) && isKeyHolder == old(isKeyHolder)
        invariant Scan(alts[i..], isEntity, acc) == Scan(alts, isEntity, start)
        invariant name == old(name) && source == old(source)
      {
        var alt := alts[i];
        assert alts[i..][0] == alt && alts[i..][1..] == alts[i + 1..];
        if Lower(alt) == "null" {
          nullable := true;
        } else if !found {
          var (t, kh) := Candidate(alt);
          if isEntity(t) {
            target := Some(StripLeadingBackslash(t));
            isKeyHolder := Some(kh);
            found := true;
          }
        }
        acc := ScanStep(alt, isEntity, acc);
        i := i + 1;
      }
      assert alts[i..] == [];
    }
  }

  lemma {:induction false} FirstIndexAt(s: string, c: char, i: nat)
    requires i < |s| && s[i] == c && c !in s[..i]
    ensures FirstIndex(s, c) == Some(i)
  {
    if i > 0 {
      assert s[0] == s[..i][0];
      assert s[1..][..i - 1] == s[1..i];
      assert forall x :: x in s[1..i] ==> x in s[..i];
      FirstIndexAt(s[1..], c, i - 1);
    }
  }

  /** A generic type `p<x>` names the element type x, which does not hold the key. */
  lemma CandidateGeneric(p: string, x: string)
    requires '<' !in p && '>' !in x && TruthyString(x)
    ensures Candidate(p + "<" + x + ">") == (x, false)
  {
    var s := p + "<" + x + ">";
    assert s[..|p|] == p;
    FirstIndexAt(s, '<', |p|);
    assert s[|p| + 1..|s| - 1] == x;
  }

  /** An array type `x[]` without `<` names the element type x, which does not hold the key. */
  lemma CandidateArray(x: string)
    requires '<' !in x && TruthyString(x)
    ensures Candidate(x + "[]") == (x, false)
  {
    var s := x + "[]";
    assert s[..|x|] == x;
    assert '<' !in s by {
      forall i | 0 <= i < |s| ensures s[i] != '<' {
        if i < |x| { assert s[i] == x[i] && x[i] in x; }
      }
    }
    assert FirstIndex(s, '<').None?;
  }

  /** A bare class name, with no `<` and no `[]` after its first character, is the
      target itself and holds the key. */
  lemma CandidateBare(x: string)
    requires '<' !in x && forall k :: 1 <= k ==> !OccursAt(x, "[]", k)
    ensures Candidate(x) == (x, true)
  {
    assert FirstIndex(x, '<').None?;
    assert LastBrackets(x).None?;
  }
}
