/** StORM\Meta\Structure: the columns and relations of an entity class, the SELECT list a
    collection of that class starts from, and the class names derived from it. The doc
    comments the structure is read from are given as values. */
module Structures {
  import opened Php
  import opened Errors
  import Meta

  /** Column::FOREIGN_KEY_PREFIX */
  const ForeignKeyPrefix := "fk_"
  /** Structure::INTERFACE_PREFIX */
  const InterfacePrefix := "I"
  /** the short name of the Repository class */
  const RepositoryName := "Repository"

  /** a column of the entity's table (StORM\Meta\Column, the fields the model uses) */
  datatype Column = Column(property: string, name: string, primaryKey: bool, foreignKey: bool,
                           nullable: bool, mutations: bool)

  /** an initialised structure: the columns keyed by property name (the PK under its column
      name) and the relations keyed by name */
  datatype Structure = Structure(entityClass: string, table: string, pk: Column,
                                 columns: seq<(string, Column)>, relations: seq<(string, Meta.RelationMeta)>)

  // ---------------------------------------------------------------------
  // Names

  /** `setPrefix($name)`: the name of an index or constraint of the table */
  function SetPrefix(table: string, name: string): (r: string)
    ensures |r| == |table| + 1 + |name| && r[..|table|] == table && r[|table|] == '_' && r[|table| + 1..] == name
  {
    table + Meta.Separator + name
  }

  /** `getRepositoryClassFromEntityClass($entityClass)` */
  function RepositoryClassFromEntityClass(entity: string): string {
    entity + RepositoryName
  }

  /** `getInterfaceFromRepositoryClass($repositoryClass)` */
  function InterfaceFromRepositoryClass(repository: string): string {
    InterfacePrefix + repository
  }

  /** `getEntityClassFromInterface($repositoryClass)`: the name without its first character,
      accepted when it is an entity class */
  function EntityClassFromInterface(name: string, isEntity: string -> bool): (r: Result<string>)
    ensures r.Ok? ==> isEntity(r.value) && (name != [] ==> name == [name[0]] + r.value)
    ensures r.Err? ==> r.error == General
  {
    var cls := if name == [] then "" else name[1..];
    if isEntity(cls) then Ok(cls) else Err(General)
  }

  /** the position of the last occurrence of sub in s */
  function LastOccurrence(s: string, sub: string): (r: Option<nat>)
    ensures r.Some? ==> OccursAt(s, sub, r.value) && forall j :: r.value < j <= |s| - |sub| ==> !OccursAt(s, sub, j)
    ensures r.None? ==> forall j :: 0 <= j <= |s| - |sub| ==> !OccursAt(s, sub, j)
  {
    LastFrom(s, sub, |s| - |sub|)
  }

  function LastFrom(s: string, sub: string, i: int): (r: Option<nat>)
    requires i <= |s| - |sub|
    ensures r.Some? ==> r.value <= i && OccursAt(s, sub, r.value) && forall j :: r.value < j <= i ==> !OccursAt(s, sub, j)
    ensures r.None? ==> forall j :: 0 <= j <= i ==> !OccursAt(s, sub, j)
    decreases i + 1
  {
    if i < 0 then None
    else if OccursAt(s, sub, i) then Some(i)
    else LastFrom(s, sub, i - 1)
  }

  /** `getEntityClassFromRepositoryClass($repositoryClass)`: the name before the last
      occurrence of "Repository" (all of it when there is none), accepted when it is an
      entity class */
  function EntityClassFromRepositoryClass(name: string, isEntity: string -> bool): Result<string> {
    var cut := LastOccurrence(name, RepositoryName);
    var cls := if cut.None? then name else name[..cut.value];
    if isEntity(cls) then Ok(cls) else Err(General)
  }

  /** The derived names lead back to the entity class. */
  lemma EntityClassRoundTrip(entity: string, isEntity: string -> bool)
    requires isEntity(entity)
    ensures EntityClassFromRepositoryClass(RepositoryClassFromEntityClass(entity), isEntity) == Ok(entity)
    ensures EntityClassFromInterface(InterfaceFromRepositoryClass(entity), isEntity) == Ok(entity)
  {
    var s := RepositoryClassFromEntityClass(entity);
    assert OccursAt(s, RepositoryName, |entity|) by {
      assert s[|entity|..|entity| + |RepositoryName|] == RepositoryName;
    }
    assert LastOccurrence(s, RepositoryName) == Some(|entity|);
    assert s[..|entity|] == entity;
    assert InterfaceFromRepositoryClass(entity)[1..] == entity;
  }

  // ---------------------------------------------------------------------
  // getColumns

  /** the filter of `getColumns($includePK, $includeFK)` as written */
  predicate KeptAsWritten(c: Column, includePK: bool, includeFK: bool) {
    (includePK && !c.primaryKey) || (includeFK && !c.foreignKey)
  }

  /** the filter the flag names call for: a PK column only when PKs are included, an FK
      column only when FKs are */
  predicate Kept(c: Column, includePK: bool, includeFK: bool) {
    (includePK || !c.primaryKey) && (includeFK || !c.foreignKey)
  }

  /** `array_filter` over the columns, keys kept */
  function FilterColumns(cols: seq<(string, Column)>, keep: Column -> bool): (r: seq<(string, Column)>)
    ensures forall e :: e in r <==> e in cols && keep(e.1)
    ensures |r| <= |cols|
  {
    if cols == [] then []
    else if keep(cols[0].1) then [cols[0]] + FilterColumns(cols[1..], keep)
    else FilterColumns(cols[1..], keep)
  }

  /** `getColumns($includePK, $includeFK)` as written */
  function GetColumnsAsWritten(s: Structure, includePK: bool, includeFK: bool): (r: seq<(string, Column)>)
    ensures includePK && includeFK ==> r == s.columns
    ensures !(includePK && includeFK) ==> forall e :: e in r <==> e in s.columns && KeptAsWritten(e.1, includePK, includeFK)
  {
    if includePK && includeFK then s.columns
    else FilterColumns(s.columns, c => KeptAsWritten(c, includePK, includeFK))
  }

  /** Asked for the columns with the PK and without the FKs, the code as written drops the
      primary key and keeps the foreign keys. */
  lemma GetColumnsAsWrittenSwapsFlags(s: Structure, pk: (string, Column), fk: (string, Column))
    requires pk in s.columns && pk.1.primaryKey && !pk.1.foreignKey
    requires fk in s.columns && fk.1.foreignKey && !fk.1.primaryKey
    ensures pk !in GetColumnsAsWritten(s, true, false)
    ensures fk in GetColumnsAsWritten(s, true, false)
    ensures pk in GetColumnsAsWritten(s, false, true) && fk !in GetColumnsAsWritten(s, false, true)
  {
  }

  /** `getColumns($includePK, $includeFK)` as intended */
  function GetColumns(s: Structure, includePK: bool, includeFK: bool): (r: seq<(string, Column)>)
    ensures includePK && includeFK ==> r == s.columns
    ensures forall e :: e in r <==> e in s.columns && Kept(e.1, includePK, includeFK)
  {
    if includePK && includeFK then s.columns
    else FilterColumns(s.columns, c => Kept(c, includePK, includeFK))
  }

  /** With both flags set, which is how the repository asks, the two filters agree. */
  lemma GetColumnsAgree(s: Structure)
    ensures GetColumns(s, true, true) == GetColumnsAsWritten(s, true, true) == s.columns
  {
  }

  // ---------------------------------------------------------------------
  // getColumnsSelect

  /** what getColumnsSelect reads from the connection: the available mutations (code =>
      suffix), the fallback mutations (code => code) and the active code */
  datatype Mutations = Mutations(available: seq<(string, string)>, fallback: seq<(string, string)>, active: string)

  /** the arguments of one getColumnsSelect call, with the suffixes it looks up */
  datatype SelectContext = SelectContext(expressionPrefix: string, aliasPrefix: string, suffix: string,
                                         fallbackSuffix: Option<string>, fallbackColumns: Option<seq<string>>,
                                         suffixes: seq<string>)

  /** `$mutation ?: $connection->getMutation()` */
  function ChosenMutation(m: Mutations, mutation: Option<string>): string {
    if mutation.Some? && Meta.TruthyString(mutation.value) then mutation.value else m.active
  }

  /** the suffix of a code; an unknown code reads as null, which concatenates as '' */
  function SuffixOf(m: Mutations, code: string): string {
    match Get(m.available, code)
    case Some(s) => s
    case None => ""
  }

  /** the suffix of the code's fallback, null without a fallback */
  function FallbackSuffixOf(m: Mutations, code: string): Option<string> {
    match Get(m.fallback, code)
    case Some(f) => Get(m.available, f)
    case None => None
  }

  function ContextOf(m: Mutations, expressionPrefix: string, aliasPrefix: string, mutation: Option<string>,
                     fallbackColumns: Option<seq<string>>): SelectContext
  {
    var code := ChosenMutation(m, mutation);
    SelectContext(expressionPrefix, aliasPrefix, SuffixOf(m, code), FallbackSuffixOf(m, code), fallbackColumns,
                  ValuesOf(m.available))
  }

  /** a mutation column reads the fallback column when the current one is null */
  predicate Coalesces(c: Column, ctx: SelectContext) {
    && ctx.fallbackSuffix.Some? && Meta.TruthyString(ctx.fallbackSuffix.value)
    && (ctx.fallbackColumns.None? || c.property in ctx.fallbackColumns.value)
  }

  function PkEntry(s: Structure, ctx: SelectContext): (Key, string) {
    (StrKey(ctx.aliasPrefix + s.pk.property), ctx.expressionPrefix + s.pk.name)
  }

  /** what the first loop writes for one column */
  function ColumnEntry(c: Column, ctx: SelectContext): (Key, string) {
    var raw := ctx.expressionPrefix + c.name;
    if c.mutations then
      (StrKey(ctx.aliasPrefix + c.property),
       if Coalesces(c, ctx) then "COALESCE(" + raw + ctx.suffix + "," + raw + ctx.fallbackSuffix.value + ")"
       else raw + ctx.suffix)
    else (StrKey(ctx.aliasPrefix + (if c.foreignKey then c.name else c.property)), raw)
  }

  function ColumnEntries(cols: seq<(string, Column)>, ctx: SelectContext): (r: seq<(Key, string)>)
    ensures |r| == |cols| && forall i :: 0 <= i < |cols| ==> r[i] == ColumnEntry(cols[i].1, ctx)
  {
    seq(|cols|, i requires 0 <= i < |cols| => ColumnEntry(cols[i].1, ctx))
  }

  /** what the second loop writes for one mutation column and one suffix */
  function LocaleEntry(c: Column, ctx: SelectContext, suffix: string): (Key, string) {
    (StrKey(ctx.aliasPrefix + c.property + suffix), ctx.expressionPrefix + c.name + suffix)
  }

  function LocaleEntries(c: Column, ctx: SelectContext, suffixes: seq<string>): (r: seq<(Key, string)>)
    ensures |r| == |suffixes| && forall j :: 0 <= j < |suffixes| ==> r[j] == LocaleEntry(c, ctx, suffixes[j])
  {
    seq(|suffixes|, j requires 0 <= j < |suffixes| => LocaleEntry(c, ctx, suffixes[j]))
  }

  /** `$locales`: the mutation columns in order */
  function LocaleColumns(cols: seq<(string, Column)>): (r: seq<Column>)
    ensures forall c :: c in r <==> exists i :: 0 <= i < |cols| && cols[i].1 == c && c.mutations
  {
    if cols == [] then []
    else
      var p := LocaleColumns(cols[..|cols| - 1]);
      assert forall i :: 0 <= i < |cols| - 1 ==> cols[..|cols| - 1][i] == cols[i];
      if cols[|cols| - 1].1.mutations then p + [cols[|cols| - 1].1] else p
  }

  function AllLocaleEntries(locales: seq<Column>, ctx: SelectContext): (r: seq<(Key, string)>)
    ensures forall c, j :: c in locales && 0 <= j < |ctx.suffixes| ==> LocaleEntry(c, ctx, ctx.suffixes[j]) in r
  {
    if locales == [] then []
    else
      var c := locales[|locales| - 1];
      var p := AllLocaleEntries(locales[..|locales| - 1], ctx);
      var e := LocaleEntries(c, ctx, ctx.suffixes);
      forall c', j | c' in locales && 0 <= j < |ctx.suffixes|
        ensures LocaleEntry(c', ctx, ctx.suffixes[j]) in p + e
      {
        if c' == c {
          assert (p + e)[|p| + j] == e[j];
        } else {
          assert locales == locales[..|locales| - 1] + [c];
        }
      }
      p + e
  }

  /** every write of getColumnsSelect, in order */
  function SelectEntries(s: Structure, ctx: SelectContext): seq<(Key, string)> {
    [PkEntry(s, ctx)] + ColumnEntries(s.columns, ctx) + AllLocaleEntries(LocaleColumns(s.columns), ctx)
  }

  /** `getColumnsSelect($expressionPrefix, $aliasPrefix, $mutation, $fallbackColumns)`:
      `[prefix*]` for a table without columns, otherwise the PK first */
  function GetColumnsSelect(s: Structure, ctx: SelectContext): (r: seq<(Key, string)>)
    ensures s.columns == [] ==> r == [(IntKey(0), ctx.expressionPrefix + "*")]
    ensures s.columns != [] ==> r != [] && r[0] == (StrKey(ctx.aliasPrefix + s.pk.property), r[0].1)
    ensures UniqueKeys(r)
  {
    if s.columns == [] then [(IntKey(0), ctx.expressionPrefix + "*")]
    else
      var es := SelectEntries(s, ctx);
      PutAllFirst([PkEntry(s, ctx)], es[1..]);
      assert es == [PkEntry(s, ctx)] + es[1..];
      PutAllConcat([], [PkEntry(s, ctx)], es[1..]);
      PutAllUnique([PkEntry(s, ctx)], es[1..]);
      PutAll([], es)
  }

  /** Each alias holds the expression last written under it. */
  lemma ColumnsSelectGet(s: Structure, ctx: SelectContext, k: Key)
    requires s.columns != []
    ensures Get(GetColumnsSelect(s, ctx), k) == GetLast(SelectEntries(s, ctx), k)
  {
    var es := SelectEntries(s, ctx);
    GetPutAll([], es, k);
    if k !in Keys(es) {
      assert es[0].0 in Keys(es);
      assert es[0] == PkEntry(s, ctx);
    }
    assert k !in Keys(es) ==> GetLast(es, k) == None by {
      if k !in Keys(es) { GetLastMissing(es, k); }
    }
  }

  lemma {:induction false} GetLastMissing<K, V>(a: seq<(K, V)>, k: K)
    requires k !in Keys(a)
    ensures GetLast(a, k) == None
    decreases |a|
  {
    if a != [] {
      var p := a[..|a| - 1];
      assert a == p + [a[|a| - 1]];
      KeysConcat(p, [a[|a| - 1]]);
      GetLastMissing(p, k);
    }
  }

  lemma EntryIsLast(s: Structure, ctx: SelectContext, e: (Key, string))
    requires s.columns != [] && UniqueKeys(SelectEntries(s, ctx)) && e in SelectEntries(s, ctx)
    ensures Get(GetColumnsSelect(s, ctx), e.0) == Some(e.1)
  {
    var es := SelectEntries(s, ctx);
    ColumnsSelectGet(s, ctx, e.0);
    GetLastUnique(es, e.0);
    var i :| 0 <= i < |es| && es[i] == e;
    GetUnique(es, i);
  }

  /** When no two writes share an alias, a mutation column selects the current mutation's
      column, through COALESCE with the fallback mutation's column when it has one, and any
      other column is selected under its property name (an FK under its column name). */
  lemma ColumnsSelectColumn(s: Structure, ctx: SelectContext, i: nat)
    requires i < |s.columns| && UniqueKeys(SelectEntries(s, ctx))
    ensures var c := s.columns[i].1; var raw := ctx.expressionPrefix + c.name;
      && (c.mutations ==>
            Get(GetColumnsSelect(s, ctx), StrKey(ctx.aliasPrefix + c.property))
            == Some(if Coalesces(c, ctx) then "COALESCE(" + raw + ctx.suffix + "," + raw + ctx.fallbackSuffix.value + ")"
                    else raw + ctx.suffix))
      && (!c.mutations ==>
            Get(GetColumnsSelect(s, ctx), StrKey(ctx.aliasPrefix + (if c.foreignKey then c.name else c.property)))
            == Some(raw))
  {
    var es := SelectEntries(s, ctx);
    var ce := ColumnEntries(s.columns, ctx);
    assert es[1 + i] == ce[i];
    EntryIsLast(s, ctx, es[1 + i]);
  }

  /** When no two writes share an alias, every mutation column is also selected once per
      available suffix, keyed by property + suffix. */
  lemma ColumnsSelectLocale(s: Structure, ctx: SelectContext, i: nat, j: nat)
    requires i < |s.columns| && s.columns[i].1.mutations && j < |ctx.suffixes|
    requires UniqueKeys(SelectEntries(s, ctx))
    ensures var c := s.columns[i].1;
      Get(GetColumnsSelect(s, ctx), StrKey(ctx.aliasPrefix + c.property + ctx.suffixes[j]))
      == Some(ctx.expressionPrefix + c.name + ctx.suffixes[j])
  {
    var c := s.columns[i].1;
    var locales := LocaleColumns(s.columns);
    assert c in locales;
    var e := LocaleEntry(c, ctx, ctx.suffixes[j]);
    var es := SelectEntries(s, ctx);
    assert e in AllLocaleEntries(locales, ctx);
    assert es == [PkEntry(s, ctx)] + ColumnEntries(s.columns, ctx) + AllLocaleEntries(locales, ctx);
    assert e in es;
    EntryIsLast(s, ctx, e);
  }

  /** one pass of the first loop */
  lemma SelectColumnsStep(s: Structure, ctx: SelectContext, i: nat, select: seq<(Key, string)>)
    requires i < |s.columns| && select == PutAll([], [PkEntry(s, ctx)] + ColumnEntries(s.columns[..i], ctx))
    ensures var e := ColumnEntry(s.columns[i].1, ctx);
      Put(select, e.0, e.1) == PutAll([], [PkEntry(s, ctx)] + ColumnEntries(s.columns[..i + 1], ctx))
  {
    var e := ColumnEntry(s.columns[i].1, ctx);
    var before := [PkEntry(s, ctx)] + ColumnEntries(s.columns[..i], ctx);
    assert ColumnEntries(s.columns[..i + 1], ctx) == ColumnEntries(s.columns[..i], ctx) + [e];
    assert [PkEntry(s, ctx)] + ColumnEntries(s.columns[..i + 1], ctx) == before + [e];
    PutAllSnoc([], before, e);
  }

  lemma LocaleColumnsStep(cols: seq<(string, Column)>, i: nat)
    requires i < |cols|
    ensures LocaleColumns(cols[..i + 1]) == LocaleColumns(cols[..i]) + (if cols[i].1.mutations then [cols[i].1] else [])
  {
    assert cols[..i + 1][..i] == cols[..i];
  }

  /** the first loop of getColumnsSelect */
  method SelectColumns(s: Structure, ctx: SelectContext) returns (select: seq<(Key, string)>, locales: seq<Column>)
    ensures select == PutAll([], [PkEntry(s, ctx)] + ColumnEntries(s.columns, ctx))
    ensures locales == LocaleColumns(s.columns)
  {
    var pk := PkEntry(s, ctx);
    select := [pk];
    assert select == PutAll([], [pk] + ColumnEntries(s.columns[..0], ctx)) by { PutAllSnoc([], [], pk); }
    locales := [];
    var i := 0;
    while i < |s.columns|
      invariant 0 <= i <= |s.columns|
      invariant select == PutAll([], [pk] + ColumnEntries(s.columns[..i], ctx))
      invariant locales == LocaleColumns(s.columns[..i])
    {
      var column := s.columns[i].1;
      var e := ColumnEntry(column, ctx);
      LocaleColumnsStep(s.columns, i);
      if column.mutations {
        locales := locales + [column];
      }
      SelectColumnsStep(s, ctx, i, select);
      select := Put(select, e.0, e.1);
      i := i + 1;
    }
    assert s.columns[..i] == s.columns;
  }

  /** one pass of the inner loop of the second loop */
  lemma SelectLocaleStep(select0: seq<(Key, string)>, before: seq<(Key, string)>, c: Column, ctx: SelectContext,
                         j: nat, select: seq<(Key, string)>)
    requires j < |ctx.suffixes| && select == PutAll(select0, before + LocaleEntries(c, ctx, ctx.suffixes[..j]))
    ensures var e := LocaleEntry(c, ctx, ctx.suffixes[j]);
      Put(select, e.0, e.1) == PutAll(select0, before + LocaleEntries(c, ctx, ctx.suffixes[..j + 1]))
  {
    var e := LocaleEntry(c, ctx, ctx.suffixes[j]);
    assert LocaleEntries(c, ctx, ctx.suffixes[..j + 1]) == LocaleEntries(c, ctx, ctx.suffixes[..j]) + [e];
    assert before + LocaleEntries(c, ctx, ctx.suffixes[..j + 1]) == (before + LocaleEntries(c, ctx, ctx.suffixes[..j])) + [e];
    PutAllSnoc(select0, before + LocaleEntries(c, ctx, ctx.suffixes[..j]), e);
  }

  /** the second loop of getColumnsSelect */
  method SelectLocales(select0: seq<(Key, string)>, locales: seq<Column>, ctx: SelectContext)
    returns (select: seq<(Key, string)>)
    ensures select == PutAll(select0, AllLocaleEntries(locales, ctx))
  {
    select := select0;
    var i := 0;
    while i < |locales|
      invariant 0 <= i <= |locales|
      invariant select == PutAll(select0, AllLocaleEntries(locales[..i], ctx))
    {
      var column := locales[i];
      ghost var before := AllLocaleEntries(locales[..i], ctx);
      var j := 0;
      assert before + LocaleEntries(column, ctx, ctx.suffixes[..0]) == before;
      while j < |ctx.suffixes|
        invariant 0 <= j <= |ctx.suffixes|
        invariant select == PutAll(select0, before + LocaleEntries(column, ctx, ctx.suffixes[..j]))
      {
        var e := LocaleEntry(column, ctx, ctx.suffixes[j]);
        SelectLocaleStep(select0, before, column, ctx, j, select);
        select := Put(select, e.0, e.1);
        j := j + 1;
      }
      assert ctx.suffixes[..j] == ctx.suffixes;
      assert locales[..i + 1][..i] == locales[..i] && locales[..i + 1][i] == column;
      i := i + 1;
    }
    assert locales[..i] == locales;
  }

  /** `getColumnsSelect(...)` as the two loops of the source */
  method ColumnsSelect(s: Structure, m: Mutations, expressionPrefix: string, aliasPrefix: string,
                       mutation: Option<string>, fallbackColumns: Option<seq<string>>)
    returns (select: seq<(Key, string)>)
    ensures select == GetColumnsSelect(s, ContextOf(m, expressionPrefix, aliasPrefix, mutation, fallbackColumns))
  {
    var ctx := ContextOf(m, expressionPrefix, aliasPrefix, mutation, fallbackColumns);
    if s.columns == [] {
      return [(IntKey(0), expressionPrefix + "*")];
    }
    var first, locales := SelectColumns(s, ctx);
    select := SelectLocales(first, locales, ctx);
    PutAllConcat([], [PkEntry(s, ctx)] + ColumnEntries(s.columns, ctx), AllLocaleEntries(locales, ctx));
  }

  // ---------------------------------------------------------------------
  // init: the foreign-key columns of key-holder relations

  /** the column init adds for a key-holder relation: named by the relation's source key,
      nullable as the relation, flagged as a foreign key */
  function ForeignKeyColumn(r: Meta.RelationMeta): Column {
    Column(r.name, r.sourceKey, false, true, r.nullable, false)
  }

  /** one pass of init's loop: the FK column is added under the relation's name unless a
      column is already keyed by the source key */
  function AddForeignKey(cols: seq<(string, Column)>, r: Meta.RelationMeta): seq<(string, Column)> {
    if r.kind.KeyHolder? && r.sourceKey !in Keys(cols) then Put(cols, r.name, ForeignKeyColumn(r)) else cols
  }

  function AddForeignKeys(cols: seq<(string, Column)>, rels: seq<Meta.RelationMeta>): seq<(string, Column)>
    decreases |rels|
  {
    if rels == [] then cols else AddForeignKey(AddForeignKeys(cols, rels[..|rels| - 1]), rels[|rels| - 1])
  }

  /** the column map init builds: the PK under its column name, the loaded columns that do
      not clash with it, then the synthesised FK columns */
  function InitColumns(pk: Column, loaded: seq<(string, Column)>, rels: seq<Meta.RelationMeta>): seq<(string, Column)> {
    AddForeignKeys(Union([(pk.name, pk)], loaded), rels)
  }

  predicate NamesRelation(rels: seq<Meta.RelationMeta>, k: string) {
    exists j :: 0 <= j < |rels| && rels[j].name == k
  }

  /** The synthesis only adds keys named after relations and leaves every other key alone. */
  lemma {:induction false} AddForeignKeysKeeps(cols: seq<(string, Column)>, rels: seq<Meta.RelationMeta>, k: string)
    ensures k in Keys(AddForeignKeys(cols, rels)) ==> k in Keys(cols) || NamesRelation(rels, k)
    ensures !NamesRelation(rels, k) ==> Get(AddForeignKeys(cols, rels), k) == Get(cols, k)
    ensures k in Keys(cols) ==> k in Keys(AddForeignKeys(cols, rels))
    decreases |rels|
  {
    if rels != [] {
      var p, r := rels[..|rels| - 1], rels[|rels| - 1];
      AddForeignKeysKeeps(cols, p, k);
      var before := AddForeignKeys(cols, p);
      if r.kind.KeyHolder? && r.sourceKey !in Keys(before) {
        PutKeys(before, r.name, ForeignKeyColumn(r));
        GetPut(before, r.name, ForeignKeyColumn(r), k);
      }
      if NamesRelation(p, k) {
        var j :| 0 <= j < |p| && p[j].name == k;
        assert rels[j] == p[j];
      }
      if r.name == k {
        assert rels[|rels| - 1].name == k;
      }
    }
  }

  /** A key-holder relation gets its FK column when no column is keyed by its source key,
      no earlier relation is named like that key and no later one shares its name. */
  lemma {:induction false} AddForeignKeysAdds(cols: seq<(string, Column)>, rels: seq<Meta.RelationMeta>, i: nat)
    requires i < |rels| && rels[i].kind.KeyHolder? && rels[i].sourceKey !in Keys(cols)
    requires forall j :: 0 <= j < i ==> rels[j].name != rels[i].sourceKey
    requires forall j :: i < j < |rels| ==> rels[j].name != rels[i].name
    ensures Get(AddForeignKeys(cols, rels), rels[i].name) == Some(ForeignKeyColumn(rels[i]))
    decreases |rels|
  {
    var p, r := rels[..|rels| - 1], rels[|rels| - 1];
    var before := AddForeignKeys(cols, p);
    if i == |rels| - 1 {
      AddForeignKeysKeeps(cols, p, r.sourceKey);
      assert !NamesRelation(p, r.sourceKey) by {
        forall j | 0 <= j < |p| ensures p[j].name != r.sourceKey { assert p[j] == rels[j]; }
      }
      GetPut(before, r.name, ForeignKeyColumn(r), r.name);
    } else {
      forall j | 0 <= j < i ensures p[j].name != p[i].sourceKey { assert p[j] == rels[j]; }
      forall j | i < j < |p| ensures p[j].name != p[i].name { assert p[j] == rels[j]; }
      AddForeignKeysAdds(cols, p, i);
      assert p[i] == rels[i];
      if r.kind.KeyHolder? && r.sourceKey !in Keys(before) {
        GetPut(before, r.name, ForeignKeyColumn(r), rels[i].name);
      }
    }
  }

  /** init's loop over the relations */
  method SynthesizeForeignKeys(cols0: seq<(string, Column)>, rels: seq<Meta.RelationMeta>)
    returns (cols: seq<(string, Column)>)
    ensures cols == AddForeignKeys(cols0, rels)
  {
    cols := cols0;
    var i := 0;
    while i < |rels|
      invariant 0 <= i <= |rels|
      invariant cols == AddForeignKeys(cols0, rels[..i])
    {
      var r := rels[i];
      if r.kind.KeyHolder? && Get(cols, r.sourceKey).None? {
        cols := Put(cols, r.name, ForeignKeyColumn(r));
      }
      assert rels[..i + 1][..i] == rels[..i];
      i := i + 1;
    }
    assert rels[..i] == rels;
  }

  // ---------------------------------------------------------------------
  // loadColumns / loadColumn

  /** the column annotation of a property: absent, once (with the name and mutation flag
      its JSON gives), or more than once */
  datatype ColumnAnnotation = NoColumn | Once(name: Option<string>, mutations: bool) | Repeated

  /** what a property's doc comment and type say about it */
  datatype PropertyDoc = PropertyDoc(column: ColumnAnnotation, pk: bool, relation: bool, nullable: bool)

  /** `loadColumn($name, $docComment)`: a relation property without an explicit column name
      gets the name fk_ + property */
  function LoadColumn(name: string, d: PropertyDoc): (c: Column)
    ensures c.property == name && c.primaryKey == d.pk && !c.foreignKey
    ensures d.column.Once? && d.column.name.Some? ==> c.name == d.column.name.value
    ensures !(d.column.Once? && d.column.name.Some?) ==> c.name == if d.relation then ForeignKeyPrefix + name else name
  {
    var explicit := if d.column.Once? then d.column.name else None;
    Column(name, if explicit.Some? then explicit.value else if d.relation then ForeignKeyPrefix + name else name,
           d.pk, false, d.nullable, d.column.Once? && d.column.mutations)
  }

  /** a property loadColumns reads: it carries the column or the pk annotation */
  predicate Annotated(d: PropertyDoc) {
    !d.column.NoColumn? || d.pk
  }

  /** the two arrays the loop of loadColumns fills */
  datatype ColumnSplit = ColumnSplit(pks: seq<(string, Column)>, others: seq<(string, Column)>)

  /** the PK columns and the other columns are filed apart */
  predicate Separated(r: Result<ColumnSplit>) {
    r.Ok? ==> (forall e :: e in r.value.pks ==> e.1.primaryKey) && (forall e :: e in r.value.others ==> !e.1.primaryKey)
  }

  /** one pass of the loop of loadColumns */
  function SplitStep(r: Result<ColumnSplit>, name: string, d: PropertyDoc): (r': Result<ColumnSplit>)
    ensures Separated(r) ==> Separated(r')
    ensures r'.Err? ==> r' == r || r'.error == MultipleAnnotation(name)
  {
    if r.Err? || !Annotated(d) then r
    else if d.column.Repeated? then Err(MultipleAnnotation(name))
    else
      var c := LoadColumn(name, d);
      if c.primaryKey then
        PutEntries(r.value.pks, name, c);
        Ok(r.value.(pks := Put(r.value.pks, name, c)))
      else
        PutEntries(r.value.others, name, c);
        Ok(r.value.(others := Put(r.value.others, name, c)))
  }

  function SplitColumns(docs: seq<(string, PropertyDoc)>): (r: Result<ColumnSplit>)
    ensures Separated(r)
    decreases |docs|
  {
    if docs == [] then Ok(ColumnSplit([], []))
    else SplitStep(SplitColumns(docs[..|docs| - 1]), docs[|docs| - 1].0, docs[|docs| - 1].1)
  }

  /** `loadColumns($docComments)`: `$pk + $properties` */
  function LoadColumns(docs: seq<(string, PropertyDoc)>): Result<seq<(string, Column)>> {
    var r := SplitColumns(docs);
    if r.Err? then Err(r.error) else Ok(Union(r.value.pks, r.value.others))
  }

  lemma {:induction false} MissingFrom<K(!new), V>(b: seq<(K, V)>, a: seq<(K, V)>)
    ensures forall e :: e in Missing(b, a) ==> e in b
    decreases |b|
  {
    if b != [] {
      MissingFrom(b[1..], a);
    }
  }

  /** The primary-key columns come first. */
  lemma LoadColumnsPkFirst(docs: seq<(string, PropertyDoc)>)
    ensures var r := LoadColumns(docs);
      r.Ok? ==> forall i, j :: 0 <= i < j < |r.value| && r.value[j].1.primaryKey ==> r.value[i].1.primaryKey
  {
    var r := SplitColumns(docs);
    if r.Ok? {
      assert Separated(r);
      var a, b := r.value.pks, r.value.others;
      MissingFrom(b, a);
      var u := Union(a, b);
      assert u == a + Missing(b, a);
      forall j | |a| <= j < |u| ensures !u[j].1.primaryKey {
        assert u[j] in Missing(b, a);
      }
      forall i, j | 0 <= i < j < |u| && u[j].1.primaryKey ensures u[i].1.primaryKey {
        assert u[i] in a;
      }
    }
  }

  /** loadColumns throws exactly when some read property repeats the column annotation, and
      names the first such property. */
  lemma {:induction false} LoadColumnsFails(docs: seq<(string, PropertyDoc)>)
    ensures SplitColumns(docs).Err? <==> exists i :: 0 <= i < |docs| && docs[i].1.column.Repeated?
    ensures SplitColumns(docs).Err? ==>
      exists i :: 0 <= i < |docs| && docs[i].1.column.Repeated? && SplitColumns(docs).error == MultipleAnnotation(docs[i].0)
                  && forall j :: 0 <= j < i ==> !docs[j].1.column.Repeated?
    decreases |docs|
  {
    if docs != [] {
      var p := docs[..|docs| - 1];
      LoadColumnsFails(p);
      forall j | 0 <= j < |p| ensures p[j] == docs[j] { }
      if SplitColumns(p).Err? {
        var i :| 0 <= i < |p| && p[i].1.column.Repeated? && SplitColumns(p).error == MultipleAnnotation(p[i].0)
                 && forall j :: 0 <= j < i ==> !p[j].1.column.Repeated?;
        assert docs[i] == p[i];
      } else if docs[|docs| - 1].1.column.Repeated? {
        assert forall j :: 0 <= j < |docs| - 1 ==> !docs[j].1.column.Repeated?;
      }
    }
  }

  lemma UniqueKeysInit<K, V>(a: seq<(K, V)>)
    requires UniqueKeys(a) && a != []
    ensures UniqueKeys(a[..|a| - 1]) && a[|a| - 1].0 !in Keys(a[..|a| - 1])
  {
    var p := a[..|a| - 1];
    assert Keys(a) == Keys(p) + [a[|a| - 1].0] by {
      assert a == p + [a[|a| - 1]];
      KeysConcat(p, [a[|a| - 1]]);
    }
    forall x, y | 0 <= x < y < |p| ensures Keys(p)[x] != Keys(p)[y] {
      assert Keys(p)[x] == Keys(a)[x] && Keys(p)[y] == Keys(a)[y];
    }
  }

  /** where the column of a read property is filed */
  predicate Filed(r: ColumnSplit, name: string, c: Column) {
    if c.primaryKey then Get(r.pks, name) == Some(c) && name !in Keys(r.others)
    else Get(r.others, name) == Some(c) && name !in Keys(r.pks)
  }

  /** With distinct property names, every read property ends up under its own name with
      the column loadColumn builds for it. */
  lemma {:induction false} SplitColumnsGet(docs: seq<(string, PropertyDoc)>, i: nat)
    requires UniqueKeys(docs) && i < |docs| && Annotated(docs[i].1) && SplitColumns(docs).Ok?
    ensures Filed(SplitColumns(docs).value, docs[i].0, LoadColumn(docs[i].0, docs[i].1))
    decreases |docs|
  {
    UniqueKeysInit(docs);
    var p := docs[..|docs| - 1];
    if i < |docs| - 1 {
      assert p[i] == docs[i];
      SplitColumnsGet(p, i);
      assert Keys(p)[i] == docs[i].0;
      SplitColumnsGetOther(docs, i);
    } else {
      SplitColumnsKeys(p, docs[i].0);
      SplitColumnsGetLast(docs);
    }
  }

  /** the last property does not disturb an earlier one's entry */
  lemma SplitColumnsGetOther(docs: seq<(string, PropertyDoc)>, i: nat)
    requires docs != [] && i < |docs| - 1 && SplitColumns(docs).Ok?
    requires docs[i].0 != docs[|docs| - 1].0
    requires Filed(SplitColumns(docs[..|docs| - 1]).value, docs[i].0, LoadColumn(docs[i].0, docs[i].1))
    ensures Filed(SplitColumns(docs).value, docs[i].0, LoadColumn(docs[i].0, docs[i].1))
  {
    StepKeepsFiled(SplitColumns(docs[..|docs| - 1]), docs[|docs| - 1].0, docs[|docs| - 1].1,
                   docs[i].0, LoadColumn(docs[i].0, docs[i].1));
  }

  lemma StepKeepsFiled(r: Result<ColumnSplit>, name: string, d: PropertyDoc, k: string, c: Column)
    requires r.Ok? && SplitStep(r, name, d).Ok? && k != name && Filed(r.value, k, c)
    ensures Filed(SplitStep(r, name, d).value, k, c)
  {
    if Annotated(d) {
      var c' := LoadColumn(name, d);
      if c'.primaryKey {
        GetPut(r.value.pks, name, c', k);
        PutKeys(r.value.pks, name, c');
      } else {
        GetPut(r.value.others, name, c', k);
        PutKeys(r.value.others, name, c');
      }
    }
  }

  /** the last property is filed by the last pass */
  lemma SplitColumnsGetLast(docs: seq<(string, PropertyDoc)>)
    requires docs != [] && Annotated(docs[|docs| - 1].1) && SplitColumns(docs).Ok?
    requires var rp := SplitColumns(docs[..|docs| - 1]);
      rp.Ok? && docs[|docs| - 1].0 !in Keys(rp.value.pks) && docs[|docs| - 1].0 !in Keys(rp.value.others)
    ensures Filed(SplitColumns(docs).value, docs[|docs| - 1].0, LoadColumn(docs[|docs| - 1].0, docs[|docs| - 1].1))
  {
    StepFiles(SplitColumns(docs[..|docs| - 1]), docs[|docs| - 1].0, docs[|docs| - 1].1);
  }

  lemma StepFiles(r: Result<ColumnSplit>, name: string, d: PropertyDoc)
    requires r.Ok? && SplitStep(r, name, d).Ok? && Annotated(d)
    requires name !in Keys(r.value.pks) && name !in Keys(r.value.others)
    ensures Filed(SplitStep(r, name, d).value, name, LoadColumn(name, d))
  {
    var c := LoadColumn(name, d);
    if c.primaryKey {
      GetPut(r.value.pks, name, c, name);
    } else {
      GetPut(r.value.others, name, c, name);
    }
  }

  /** only the names of the read properties become keys */
  lemma {:induction false} SplitColumnsKeys(docs: seq<(string, PropertyDoc)>, k: string)
    requires k !in Keys(docs) && SplitColumns(docs).Ok?
    ensures k !in Keys(SplitColumns(docs).value.pks) && k !in Keys(SplitColumns(docs).value.others)
    decreases |docs|
  {
    if docs != [] {
      var p := docs[..|docs| - 1];
      assert forall j :: 0 <= j < |p| ==> Keys(p)[j] == Keys(docs)[j];
      assert Keys(docs)[|docs| - 1] == docs[|docs| - 1].0;
      SplitColumnsKeys(p, k);
      StepKeys(SplitColumns(p), docs[|docs| - 1].0, docs[|docs| - 1].1, k);
    }
  }

  lemma StepKeys(r: Result<ColumnSplit>, name: string, d: PropertyDoc, k: string)
    requires r.Ok? && SplitStep(r, name, d).Ok? && k != name
    requires k !in Keys(r.value.pks) && k !in Keys(r.value.others)
    ensures k !in Keys(SplitStep(r, name, d).value.pks) && k !in Keys(SplitStep(r, name, d).value.others)
  {
    if Annotated(d) {
      var c := LoadColumn(name, d);
      PutKeys(r.value.pks, name, c);
      PutKeys(r.value.others, name, c);
    }
  }

  /** With distinct property names, loadColumns maps every read property to its column. */
  lemma LoadColumnsGet(docs: seq<(string, PropertyDoc)>, i: nat)
    requires UniqueKeys(docs) && i < |docs| && Annotated(docs[i].1) && LoadColumns(docs).Ok?
    ensures Get(LoadColumns(docs).value, docs[i].0) == Some(LoadColumn(docs[i].0, docs[i].1))
  {
    SplitColumnsGet(docs, i);
  }

  /** the loop of loadColumns */
  method LoadColumnsLoop(docs: seq<(string, PropertyDoc)>) returns (r: Result<seq<(string, Column)>>)
    ensures r == LoadColumns(docs)
  {
    var pks: seq<(string, Column)> := [];
    var properties: seq<(string, Column)> := [];
    var i := 0;
    while i < |docs|
      invariant 0 <= i <= |docs|
      invariant SplitColumns(docs[..i]) == Ok(ColumnSplit(pks, properties))
    {
      var (name, d) := docs[i];
      assert docs[..i + 1][..i] == docs[..i] && docs[..i + 1][i] == docs[i];
      if Annotated(d) {
        if d.column.Repeated? {
          SplitColumnsErrStays(docs, i + 1);
          return Err(MultipleAnnotation(name));
        }
        var column := LoadColumn(name, d);
        if column.primaryKey {
          pks := Put(pks, name, column);
        } else {
          properties := Put(properties, name, column);
        }
      }
      i := i + 1;
    }
    assert docs[..i] == docs;
    return Ok(Union(pks, properties));
  }

  /** once a prefix of the properties fails, the whole list fails the same way */
  lemma {:induction false} SplitColumnsErrStays(docs: seq<(string, PropertyDoc)>, n: nat)
    requires n <= |docs| && SplitColumns(docs[..n]).Err?
    ensures SplitColumns(docs) == SplitColumns(docs[..n])
    decreases |docs| - n
  {
    if n < |docs| {
      assert docs[..n + 1][..n] == docs[..n];
      SplitColumnsErrStays(docs, n + 1);
    } else {
      assert docs[..n] == docs;
    }
  }
}
