# StORM query builder and relations, modelled in Dafny

This project models the core of StORM, a PHP database layer (ORM) for MySQL. The model covers the following parts.

- **Query state and SQL** (`query.dfy`, `query_props.dfy`, `generic_collection.dfy`). The collection's query state is a value `Query.State` holding:
  - the modifiers (SELECT, FROM, JOIN, WHERE, GROUP BY, HAVING, ORDER BY, LIMIT, OFFSET);
  - the binder table (name to value, plus the set of clauses that own each binder);
  - the alias registry, the binder counter and the loaded flag.

  Every operation of `GenericCollection` is a function from the old state to an `Out` (the new state and the exception, if any). The class `GenericCollections.GenericCollection` keeps these as fields, and each of its methods is proved to leave `Abs()` equal to the function of the old state.
- **Autojoin** (`collection.dfy`). `Collection` rewrites dotted relation paths in the SELECT, ORDER BY, WHERE and GROUP BY fragments into joins. The path walk, the quoting and the four phases are pure functions in `Autojoins`. The class `Collections.Collection` performs them step by step on a `GenericCollection`.
- **UNION** (`union_collection.dfy`). The union of collections: its SQL, its own ORDER BY, LIMIT and OFFSET, its binders, and the WHERE calls it forwards to each member.
- **Relation writes** (`relation_collection.dfy`). `RelationCollection`: the rows that relate, unrelate and unrelateAll insert, delete or update; the missing-key check; and the filter that init adds.
- **Entities** (`entity.dfy`, `array_wrapper.dfy`). The entity's property bag, foreign-key shadow map and relation cache (`__get`, `__set`, `__isset`, setValue, getValue, setParent), and the array wrapper around child entities.
- **Repository and connection** (`repository.dfy`, `connection.dfy`, `di_connection.dfy`, `insert_result.dfy`):
  - property to column mapping, `one()` conditions, filters, and syncOne's and syncMany's plans;
  - INSERT generation with ON DUPLICATE KEY UPDATE, and input preparation;
  - mutation suffixes;
  - the primary keys an insert reports.
- **Helpers and metadata** (`helpers.dfy`, `expression.dfy`, `structure.dfy`, `meta.dfy`, `php.dfy`, `errors.dfy`):
  - clause strings, identifier checks, similar-string search and scalar casts;
  - SQL expressions with bound values;
  - the structure's column lists and foreign-key synthesis;
  - relation type parsing, table names and constraint defaults;
  - PHP's ordered arrays as sequences of key/value pairs;
  - the exceptions the code throws, as an `Error` datatype.

The database itself does not appear. What it answers (the keys found, the ids generated, `spl_object_id`, the quote character) is passed in as parameters. What a statement would do to the rows of a table is modelled only where a property of relation writes needs it (`RelationWrites.Apply`).

Six operations of the code as written, plus three in the autojoin and relation code, do not do what the surrounding code evidently intends. Each is listed under "## Findings". The model keeps both versions. The main members use the corrected behaviour: the rows marked "corrected" below. Among them are the parse and autojoin members of Collections.Collection, its SQL builders that run autojoin (GetSql, GetSqlDelete, GetSqlUpdate) and every parse and phase lemma of Autojoins, which are all built on the corrected walk (Autojoins.Hops) and the corrected quote offsets of Autojoins.ParseExpression. So are Connections.Assignments, Connections.SqlInsert and every ConnectionProps lemma about SqlInsert, which write the ON DUPLICATE KEY UPDATE assignment of each column once (Connections.Assignment). The as-written version is kept beside it with a lemma that exhibits the difference.

## Model

| member | source | states |
|---|---|---|
| Helpers.IsAssociativeIff | src/Helpers.php:41-44 | an array is associative exactly when it is empty or its keys are not 0, 1, …, n-1 in order |
| Helpers.IsValidIdentifier | src/Helpers.php:115-118 | a name is valid exactly when one of its characters is a letter, a digit, `_` or `-` (the pattern is unanchored) |
| Helpers.CreateSqlClauseString | src/Helpers.php:130-154 | the loop renders the prefix and the fragments joined by the glue (an integer key gives the bare value, a string key `value assocGlue key` or reversed), bracketed on request; the result is empty exactly when there are no fragments |
| Helpers.BindMutationsFails | src/Helpers.php:171-183 | binding an array value fails exactly when one of its keys is not an available mutation |
| Helpers.BindScalar | src/Helpers.php:185-190 | a scalar or null is bound under prefix+column+postfix (booleans as 0/1), its binder points at prefix.property, and no other binder or value changes |
| Helpers.BindMutationsLoop | src/Helpers.php:172-180 | the loop over an array value's entries computes the per-mutation bindings, or the InvalidArgument of an unknown mutation |
| Helpers.BindVariablesLoop | src/Helpers.php:166-215 | `bindVariables` for every kind of value: per-mutation array, scalar, literal, nested collection, stringable object, and the INVALID_BINDER_VAR error otherwise |
| Helpers.KeptEntriesGet | src/Helpers.php:227-234 | after filtering, a key reads its old value when it names a column and is absent otherwise |
| Helpers.FilterInputArrayLoop | src/Helpers.php:223-243 | the loop keeps the column entries and, unless silent, reports the first non-column key as NotExists(PROPERTY) |
| Helpers.Dedupe | src/Helpers.php:88 | `array_unique` keeps each candidate once: the same members, pairwise distinct |
| Helpers.GetBestSimilarString | src/Helpers.php:83-98 | the result is null exactly when no de-duplicated candidate other than the value is under the threshold; otherwise it is a candidate under the threshold, the first with the strictly smallest distance |
| Helpers.BestOf | src/Helpers.php:88-95 | the loop keeps the first candidate with the strictly smallest distance below the running minimum |
| Helpers.IntToStringRoundTrip | src/Helpers.php:256-258 | `intval((string) $i) === $i` for every integer |
| Helpers.CastIntegerRoundTrip | src/Helpers.php:250-265 | `castScalar` with 'integer' on the string form of an integer gives the integer back |
| Expressions.FormatPlain | src/Expression.php:33 | `vsprintf` leaves a format without `%` unchanged |
| Expressions.FormatPositional | src/Expression.php:33 | each `%s` takes the next binder name in order |
| Expressions.DistinctAcrossCalls | src/Expression.php:26-31 | binder names made on different calls never coincide, whatever the keys and binder-name prefixes: the iteration after the last `_` tells them apart |
| Expressions.StmVars | src/Expression.php:29-31 | the binder array of one call holds each value under `:binderName<key>_<iteration>`, in order |
| Expressions.Expression.constructor | src/Expression.php:14-16 | a new expression has no text, no binders and iteration 0 |
| Expressions.Expression.Add | src/Expression.php:24-42 | `add` fails exactly when the format cannot be filled, changing nothing; otherwise it appends the glue (when there is text and a glue) and the bracketed formatted part, adds the new binders with `+`, and advances the iteration |
| Expressions.BindValues | src/Expression.php:29-31 | the loop builds exactly the binder array of the call |
| Expressions.StmVarsDistinct | src/Expression.php:30 | within one call, distinct stored keys give distinct binder names |
| InsertResults.ExplicitKeys | src/InsertResult.php:90-103 | keys supplied by the caller come back unchanged |
| InsertResults.IgnoreMultipleFails | src/InsertResult.php:92-95 | `getPrimaryKeys` fails (IGNORE) exactly when no keys were supplied and the insert was a multiple INSERT IGNORE |
| InsertResults.DerivedKeys | src/InsertResult.php:97-99 | without supplied keys, a moved auto-increment id gives the rowCount ids that end just below the new id, in ascending order |
| InsertResults.DerivedKeysExample | src/InsertResult.php:97-99 | three rows that move the id from 10 to 13 give the keys [10, 11, 12] |
| InsertResults.UnmovedIdNoKeys | src/InsertResult.php:97-102 | without supplied keys, an unmoved id gives no keys |
| InsertResults.IsSyncedSpec | src/InsertResult.php:73-80 | `isSynced` fails exactly for a multiple insert, and is otherwise true exactly when rowCount is 2 |
| Meta.TableNameShape | src/Meta/Table.php:77-86 | a derived table name holds no backslash and no upper-case ASCII letter |
| Meta.TableNameIdempotent | src/Meta/Table.php:77-86 | deriving the table name of a derived name changes nothing |
| Meta.Table.constructor | src/Meta/Table.php:25-30 | a new table is named after its class, with no engine, collation or comment |
| Meta.TableSchemaAdmits | src/Meta/Table.php:32-40 | a table annotation is accepted exactly when every key is name, engine, collate or comment and every value is a string |
| Meta.ActionOf | src/Meta/Constraint.php:129-138 | an absent or null action defaults to null, an allowed action is kept, and anything else is refused |
| Meta.Constraint.SetDefaultsFromRelation | src/Meta/Constraint.php:92-99 | name, ends and keys are copied from the relation; the actions do not change |
| Meta.Constraint.SetDefaultsFromRelationNxN | src/Meta/Constraint.php:101-125 | it fails (InvalidArgument) exactly for a type other than source or target, changing nothing; otherwise the constraint runs from the junction table, named `via_type`, to the table of that side on its keys |
| Meta.SplitImplode | src/Meta/Relation.php:117 | joining the pieces of `explode('|', $type)` with the separator gives the type back |
| Meta.AngleGroup | src/Meta/Relation.php:133-134 | the group of `/\<(.+)\>/` has at least one character |
| Meta.BracketGroup | src/Meta/Relation.php:133-134 | the group of `/(.+)\[\]/` has at least one character and is followed by `[]` |
| Meta.ScanNullable | src/Meta/Relation.php:120-127 | the relation is nullable exactly when it was already or some alternative is `null` in any case, even one after the target |
| Meta.ScanHit | src/Meta/Relation.php:129-149 | a target already found is kept; otherwise the first alternative that names an entity gives the target, without its leading backslash, and its key-holder flag |
| Meta.Relation.LoadFromType | src/Meta/Relation.php:115-153 | the loop sets nullable, target and key-holder flag as the scan of the alternatives says, and returns whether a target was found |
| Meta.CandidateGeneric | src/Meta/Relation.php:133-139 | a generic type `p<x>` names the element type x, which does not hold the key |
| Meta.CandidateArray | src/Meta/Relation.php:133-139 | an array type `x[]` names the element type x, which does not hold the key |
| Meta.CandidateBare | src/Meta/Relation.php:139-140 | a bare class name is the target itself and holds the key |
| Structures.SetPrefix | src/Meta/Structure.php:778-781 | an index or constraint name is the table name, `_` and the given name |
| Structures.EntityClassFromInterface | src/Meta/Structure.php:496-505 | the interface name without its first character is accepted only when it is an entity class, and refused with a general error otherwise |
| Structures.LastOccurrence | src/Meta/Structure.php:518 | the position found is the last occurrence of the repository suffix, and no position is found when there is none |
| Structures.EntityClassRoundTrip | src/Meta/Structure.php:487-525 | for an entity class, the repository class and the interface built from it both lead back to the entity class |
| Structures.GetColumnsAsWritten | src/Meta/Structure.php:225-242 | as written: both flags give all columns; otherwise a column is kept when (includePK and it is not the PK) or (includeFK and it is not a FK) |
| Structures.GetColumnsAsWrittenSwapsFlags | src/Meta/Structure.php:239-241 | as written, asking for the PK without the FKs drops the PK and keeps the FKs, and the reverse request keeps the PK and drops the FKs |
| Structures.GetColumns | src/Meta/Structure.php:225-242 | corrected: both flags give all columns; otherwise a column is kept exactly when it is not a PK unless PKs are asked for and not a FK unless FKs are asked for |
| Structures.GetColumnsAgree | src/Meta/Structure.php:235-237 | with both flags set the as-written and corrected filters both return every column |
| Structures.GetColumnsSelect | src/Meta/Structure.php:180-218 | a table without columns selects `prefix*`; otherwise the PK comes first under its property alias and no alias repeats |
| Structures.ColumnsSelectGet | src/Meta/Structure.php:186-217 | every alias of the select holds the expression last assigned to it by the two loops |
| Structures.ColumnsSelectColumn | src/Meta/Structure.php:196-207 | a mutation column selects the current mutation's column, wrapped in COALESCE with the fallback mutation's column when there is a fallback and the column is among the fallback columns; another column is selected raw, under its column name when it is a FK and its property name otherwise |
| Structures.ColumnsSelectLocale | src/Meta/Structure.php:209-215 | every mutation column is also selected once per available mutation suffix, as column+suffix under property+suffix |
| Structures.SelectColumns | src/Meta/Structure.php:190-207 | the first loop writes the PK entry, then one entry per column, and collects the mutation columns in order |
| Structures.SelectLocales | src/Meta/Structure.php:209-215 | the second loop writes one entry per mutation column and suffix, in order |
| Structures.ColumnsSelect | src/Meta/Structure.php:180-218 | the two loops compute exactly the select the function describes, with the current, available and fallback mutations of the connection |
| Structures.AddForeignKeysKeeps | src/Meta/Structure.php:878-887 | the FK synthesis adds only keys named after relations and leaves every other column as it was |
| Structures.AddForeignKeysAdds | src/Meta/Structure.php:878-887 | a key-holder relation whose source key is not a column key gets, under its own name, a FK column named by its source key and nullable exactly when the relation is |
| Structures.SynthesizeForeignKeys | src/Meta/Structure.php:878-887 | init's loop over the relations computes the FK synthesis |
| Structures.LoadColumn | src/Meta/Structure.php:742-776 | a column keeps its property name and PK flag and is not a FK; its name is the annotation's name when given, otherwise fk_+property for a relation property and the property name otherwise |
| Structures.SplitColumns | src/Meta/Structure.php:605-621 | the PK columns and the other columns are kept apart |
| Structures.LoadColumnsPkFirst | src/Meta/Structure.php:623 | in the result of loadColumns every PK column comes before every other column |
| Structures.LoadColumnsFails | src/Meta/Structure.php:610-612 | loadColumns fails exactly when some annotated property repeats the column annotation, and names the first such property |
| Structures.SplitColumnsGet | src/Meta/Structure.php:605-621 | with distinct property names every annotated property is filed under its own name with the column loadColumn builds |
| Structures.LoadColumnsGet | src/Meta/Structure.php:599-624 | with distinct property names loadColumns maps every annotated property to its column |
| Structures.LoadColumnsLoop | src/Meta/Structure.php:599-624 | the loop computes loadColumns, including its first failure |
| Structures.SplitColumnsErrStays | src/Meta/Structure.php:610-612 | once a prefix of the properties fails, the whole list fails with the same error |
| Query.RenderAll | src/GenericCollection.php:1713 | every GROUP BY or SELECT entry is rendered as text under its own key, in order |
| Query.StringKeyed | src/GenericCollection.php:1596 | `(string) $k`: each entry keeps its value under its key written as a string |
| Query.SetFullGroupBy | src/GenericCollection.php:1121-1141 | corrected: a successful call leaves GROUP BY as a list of expressions |
| QueryProps.BindVarSpec | src/GenericCollection.php:1507-1520 | bindVar fails with AlreadyExists exactly when the name is bound, changing nothing; otherwise the name holds the value, its flags gain the clause, and nothing else in the state changes |
| QueryProps.BindVarOthers | src/GenericCollection.php:1507-1520 | binding one name leaves every other name's value and flags alone |
| QueryProps.BindVarValid | src/GenericCollection.php:1507-1520 | binding keeps the variables and their flags in step |
| QueryProps.BindAllValid | src/GenericCollection.php:1169-1171 | binding a list keeps the variables and flags in step and changes nothing else |
| QueryProps.BindAllFails | src/GenericCollection.php:1169-1171 | binding a list succeeds exactly when every name is free, and otherwise fails naming a listed name |
| QueryProps.BindAllBinds | src/GenericCollection.php:1169-1171 | after a successful list binding each listed name holds its value with the clause added, and other names are unchanged |
| QueryProps.StripFlagSpec | src/GenericCollection.php:1524-1533 | clearing a clause flag removes it from every name and drops exactly the names left with no flag |
| QueryProps.RemoveVarsSpec | src/GenericCollection.php:1522-1534 | removeVars takes the clause from every name's flags and unbinds exactly the names left without flags; nothing else changes |
| QueryProps.AliasesOkCons | src/GenericCollection.php:1738-1757 | a list of aliases is accepted exactly when the first is a valid identifier not yet registered and the rest are accepted after it |
| QueryProps.AddAliasFails | src/GenericCollection.php:1736-1758 | addAlias succeeds exactly when every alias, with its quotes stripped, is a valid identifier registered neither before nor earlier in the list |
| QueryProps.AddAliasRegisters | src/GenericCollection.php:1755-1756 | after addAlias each new alias is registered under the clause and other aliases keep theirs; only the alias maps change |
| QueryProps.AddAliasUnique | src/GenericCollection.php:1736-1758 | the alias map never repeats a name |
| QueryProps.DropClauseSpec | src/GenericCollection.php:1760-1767 | removeAlias drops exactly the aliases registered under that clause |
| QueryProps.SetJoinEmpty | src/GenericCollection.php:1151-1174 | setJoin with no tables keeps the joins, drops the JOIN aliases and the variables only JOIN used |
| QueryProps.RefListImplode | src/GenericCollection.php:1624-1634 | the IN list built binder by binder is the binders joined by commas |
| QueryProps.WhereListBinds | src/GenericCollection.php:1617-1635 | the IN loop binds one fresh binder per non-null value and never fails |
| QueryProps.WhereListText | src/GenericCollection.php:1626-1633 | the IN fragment lists exactly the binders it generated, in order |
| QueryProps.WhereListNull | src/GenericCollection.php:1618-1622 | the loop notes a null exactly when the list holds one |
| QueryProps.ProcessWhereList | src/GenericCollection.php:1612-1647 | a list of two or more values gives `(e IN (…))` or `(e NOT IN (…))`, with ` OR e IS NULL`/` AND e IS NOT NULL` when a null is listed, binds one binder per non-null value and records the values as possible only when not negated |
| QueryProps.ProcessWhereSingle | src/GenericCollection.php:1599-1611 | a single non-null value gives `(e = :b)` or `(e != :b)` with a fresh binder b holding the value, recorded as possible only when not negated |
| QueryProps.ProcessWhereNull | src/GenericCollection.php:1575-1603 | a null condition gives `(e)` or `!(e)`; a list of one null gives `(e IS NULL)` or `(e IS NOT NULL)`; neither binds anything |
| QueryProps.ProcessWhereEmpty | src/GenericCollection.php:1648-1652 | an empty list gives `(1 = 0)`, and nothing when negated |
| QueryProps.ProcessWhereAssociative | src/GenericCollection.php:1588-1597 | an associative array needs a `:` in the expression and fails otherwise; with one it adds the wrapped expression and binds every entry under its key |
| QueryProps.WhereSql | src/GenericCollection.php:1710 | the WHERE part is empty without conditions and otherwise the conditions joined by AND |
| QueryProps.LimitTextOrder | src/GenericCollection.php:1721-1727 | LIMIT comes before OFFSET, and an offset without a limit gets the maximum limit |
| QueryProps.SetPageSpec | src/GenericCollection.php:1011-1021 | setPage gives `LIMIT onPage OFFSET (page-1)*onPage` |
| QueryProps.LoadedGuard | src/GenericCollection.php:1153-1155 | every modifier refuses a loaded collection with COLLECTION_ALREADY_LOADED and changes nothing |
| QueryProps.DeleteUpdateRejections | src/GenericCollection.php:446-513 | DELETE fails exactly with a GROUP BY or ORDER BY, GROUP BY first; UPDATE fails with a GROUP BY; an UPDATE with no values is refused |
| QueryProps.GetPrefixSpec | src/GenericCollection.php:887-902 | no FROM gives no prefix; an unaliased first table gives its name, an aliased one its alias, each followed by a dot on request |
| QueryProps.FullGroupByAsWrittenGarbles | src/GenericCollection.php:1127-1137 | as written, GROUP BY keeps the select's alias keys, so a select `name => this.name` renders `GROUP BY this.namename` |
| QueryProps.FullGroupByStar | src/GenericCollection.php:1129-1131 | setFullGroupBy fails exactly when the select holds `*`, and then changes nothing |
| QueryProps.FullGroupByListsExpressions | src/GenericCollection.php:1121-1141 | corrected: GROUP BY lists the select's expressions not excepted, in order, and HAVING is set |
| QueryProps.SelectVarsSpec | src/GenericCollection.php:1265-1269 | getVars keeps exactly the variables whose flags meet the mask, or all without a mask |
| QueryProps.ParseVarsSpec | src/GenericCollection.php:1425-1446 | parseVars fails exactly when a value is neither scalar, null nor entity; otherwise every name keeps its value, booleans as 0/1 |
| QueryProps.GetVarsSpec | src/GenericCollection.php:1261-1272 | getVars answers each selected name with its parsed value and nothing for others |
| QueryProps.ReplaceLiteralsIdentity | src/GenericCollection.php:1452-1461 | a statement that names no Literal variable is unchanged |
| GenericCollections.ClearFlag | src/GenericCollection.php:1522-1534 | removeVars' loop strips the clause from every flag set and unbinds exactly the names left without flags (see QueryProps.RemoveVarsSpec) |
| GenericCollections.GenericCollection.constructor | src/GenericCollection.php:158-169 | a new collection is in the pristine state: base select and FROM installed, no conditions, binders from 0 |
| GenericCollections.GenericCollection.BindVar | src/GenericCollection.php:1507-1520 | the collection binds as QueryProps.BindVarSpec states: an error on a bound name, otherwise the value and the clause flag |
| GenericCollections.GenericCollection.BindAll | src/GenericCollection.php:1169-1171 | the values are bound in order, stopping at the first bound name (QueryProps.BindAllFails) |
| GenericCollections.GenericCollection.GenerateBinder | src/GenericCollection.php:1552-1558 | the binder is the binder name followed by the counter, which then goes up by one |
| GenericCollections.GenericCollection.RemoveVars | src/GenericCollection.php:1522-1534 | the collection loses the clause's variables as QueryProps.RemoveVarsSpec states |
| GenericCollections.GenericCollection.AddAlias | src/GenericCollection.php:1736-1758 | aliases are registered or refused as QueryProps.AddAliasFails and AddAliasRegisters state |
| GenericCollections.GenericCollection.RemoveAlias | src/GenericCollection.php:1760-1767 | the aliases of the clause are dropped, as QueryProps.DropClauseSpec states |
| GenericCollections.GenericCollection.ProcessWhere | src/GenericCollection.php:1566-1654 | the condition is added as the QueryProps.ProcessWhere* lemmas state for null, single, list, empty and associative values |
| GenericCollections.GenericCollection.InList | src/GenericCollection.php:1613-1635 | the IN loop produces the binder list, the count and the null flag of WhereList (QueryProps.WhereListText, WhereListNull) |
| GenericCollections.GenericCollection.Where | src/GenericCollection.php:737-746 | where() refuses a loaded collection and otherwise appends the condition |
| GenericCollections.GenericCollection.SetWhere | src/GenericCollection.php:716-729 | setWhere() replaces the conditions and their variables, or clears them without an expression |
| GenericCollections.GenericCollection.WhereNot | src/GenericCollection.php:798-807 | whereNot() appends the negated condition |
| GenericCollections.GenericCollection.SetWhereNot | src/GenericCollection.php:781-790 | setWhereNot() replaces the conditions with the negated one |
| GenericCollections.GenericCollection.WhereMatch | src/GenericCollection.php:754-761 | whereMatch() adds one prefixed equality per entry, stopping at the first error |
| GenericCollections.GenericCollection.WhereBetween | src/GenericCollection.php:817-836 | whereBetween() adds a bound for each truthy end, `>=`/`>` below and `<=`/`<` above |
| GenericCollections.GenericCollection.From | src/GenericCollection.php:844-859 | from() appends tables after registering their aliases and binds the values |
| GenericCollections.GenericCollection.SetFrom | src/GenericCollection.php:867-885 | setFrom() replaces the tables, their aliases and their variables |
| GenericCollections.GenericCollection.GetPrefix | src/GenericCollection.php:887-902 | the prefix is the one QueryProps.GetPrefixSpec states |
| GenericCollections.GenericCollection.SetSelect | src/GenericCollection.php:911-930 | setSelect() replaces the select and its variables |
| GenericCollections.GenericCollection.Select | src/GenericCollection.php:938-951 | select() adds columns to the select |
| GenericCollections.GenericCollection.SetTake | src/GenericCollection.php:958-967 | setTake() sets the limit of an unloaded collection |
| GenericCollections.GenericCollection.SetSkip | src/GenericCollection.php:984-993 | setSkip() sets the offset of an unloaded collection |
| GenericCollections.GenericCollection.SetPage | src/GenericCollection.php:1011-1021 | setPage() gives the limit and offset QueryProps.SetPageSpec states |
| GenericCollections.GenericCollection.SetOrderBy | src/GenericCollection.php:1040-1054 | setOrderBy() replaces the order and its variables |
| GenericCollections.GenericCollection.OrderBy | src/GenericCollection.php:1062-1075 | orderBy() adds to the order |
| GenericCollections.GenericCollection.SetGroupBy | src/GenericCollection.php:1084-1099 | setGroupBy() replaces GROUP BY and HAVING and their variables |
| GenericCollections.GenericCollection.SetFullGroupBy | src/GenericCollection.php:1121-1141 | corrected: the method computes Query.SetFullGroupBy, whose GROUP BY lists the expressions (QueryProps.FullGroupByListsExpressions, FullGroupByStar) |
| GenericCollections.GenericCollection.SetJoin | src/GenericCollection.php:1151-1174 | setJoin() drops the JOIN aliases and variables, registers the new aliases and sets the one join when tables are given (QueryProps.SetJoinEmpty) |
| GenericCollections.GenericCollection.Join | src/GenericCollection.php:1184-1203 | join() appends a join after registering its aliases |
| GenericCollections.GenericCollection.SetIndex | src/GenericCollection.php:621-631 | setIndex() sets the index of an unloaded collection |
| GenericCollections.GenericCollection.Init | src/GenericCollection.php:1477-1500 | init() installs the base select and FROM and resets every other modifier and the binders |
| GenericCollections.GenericCollection.Clear | src/GenericCollection.php:538-548 | clear() unloads, and re-runs init() when asked to |
| GenericCollections.GenericCollection.GetVars | src/GenericCollection.php:1261-1272 | the variables returned are those QueryProps.GetVarsSpec states |
| GenericCollections.GenericCollection.GetSql | src/GenericCollection.php:463-479 | the SELECT is built as Query.GetSql, which prefixes a bare `*` for an index and fails for several tables |
| GenericCollections.GenericCollection.GetSqlDelete | src/GenericCollection.php:484-501 | the DELETE is built or refused as QueryProps.DeleteUpdateRejections states |
| GenericCollections.GenericCollection.GetSqlUpdate | src/GenericCollection.php:509-531 | the UPDATE is built or refused as QueryProps.DeleteUpdateRejections states |
| GenericCollections.DropClause | src/GenericCollection.php:1762-1766 | the loop drops exactly the aliases registered under the clause |
| GenericCollections.BindUpdates | src/GenericCollection.php:518-520 | the loop binds every update as Connection::bindVariables does |
| GenericCollections.ParseVars | src/GenericCollection.php:1425-1446 | the loop computes parseVars (QueryProps.ParseVarsSpec) |
| GenericCollections.ReplaceLiterals | src/GenericCollection.php:1452-1461 | the loop substitutes every Literal variable (QueryProps.ReplaceLiteralsIdentity) |
| GenericCollections.GenericCollection.Attach | src/GenericCollection.php:1575-1652 | processWhere after its reset dispatches on null, associative, single, list and empty values as Query.Attach does (QueryProps.ProcessWhereNull, ProcessWhereAssociative, ProcessWhereEmpty) |
| GenericCollections.GenericCollection.AttachSingle | src/GenericCollection.php:1599-1611 | one value gives an equality on a fresh binder, or an IS NULL test (QueryProps.ProcessWhereSingle) |
| GenericCollections.GenericCollection.AttachList | src/GenericCollection.php:1612-1647 | two or more values give the IN list with its null test (QueryProps.ProcessWhereList) |
| GenericCollections.GenericCollection.BetweenBound | src/GenericCollection.php:821-833 | one bound of whereBetween is a comparison on a fresh binder bound to the value |
| Autojoins.WordRun | src/GenericCollection.php:64 | the run of `[A-Za-z0-9_]` characters at p: all of it is word characters and it stops at the end or at a non-word character |
| Autojoins.MatchesDotted | src/Collection.php:439 | every match of `/(?:[A-Za-z0-9_]+\.)+/` is a dotted path: word runs each closed by a dot (the pattern is REGEXP_AUTOJOIN, declared at src/GenericCollection.php line 64) |
| Autojoins.MatchesSound | src/Collection.php:439-441 | preg_match_all's matches lie in the fragment at their offsets, in order and without overlapping |
| Autojoins.ExplodeImplode | src/Collection.php:452 | implode('.') undoes explode('.') |
| Autojoins.ExplodeParts | src/Collection.php:452 | no part of explode('.') holds a dot |
| Autojoins.ExplodeSeveral | src/Collection.php:452-454 | explode gives several parts, and the path is quoted, exactly when the path holds a dot |
| Autojoins.AddJoinOne | src/GenericCollection.php:1184-1203 | join() of one table without values succeeds exactly when the collection is not loaded and the alias is a valid, unregistered identifier; it then appends exactly that join and registers the alias; on failure nothing changes |
| Autojoins.JoinHopJoins | src/Collection.php:483-491 | one hop joins the target under its alias (after the junction table for N:N); it succeeds exactly when the collection is not loaded and the aliases are valid and free, and it only appends joins and aliases |
| Autojoins.JoinHopVia | src/Collection.php:483-488 | the N:N hop joins the junction table under its own name and then the target; both aliases must be valid and free |
| Autojoins.HopsExtends | src/Collection.php:458-495 | a walk along a path only appends joins and registers aliases; nothing else of the state changes |
| Autojoins.CoveredHops | src/Collection.php:461-462 | corrected: a walk whose every relation is already joined under its alias adds nothing and cannot fail |
| Autojoins.HopsCovers | src/Collection.php:461-495 | corrected: after a walk that succeeds, every relation along the path is joined under its prefixed alias |
| Autojoins.UnrelatedCovered | src/Collection.php:463-467 | a path none of whose segments names a relation adds no join |
| Autojoins.ParseResolves | src/Collection.php:441-495 | corrected: after a parse that succeeds, every path of the fragment is registered as an alias or fully joined |
| Autojoins.ParseResolved | src/Collection.php:446-449 | corrected: a parse whose paths are all registered or joined changes nothing and cannot fail |
| Autojoins.ParseAgainAddsNothing | src/Collection.php:434-495 | corrected: parsing the same fragment a second time, after a parse that succeeded, adds no join and leaves the state as it was |
| Autojoins.ParseExpressionQuotes | src/Collection.php:454-457 | corrected: the rewritten fragment is the original with the quote character before and after each reported path of several segments, and nothing else changed |
| Autojoins.ParseText | src/Collection.php:441-457 | corrected: from any position of the fragment, the rest of the parse quotes exactly the spans it reports and copies the text between them |
| Autojoins.ExampleMatches | src/GenericCollection.php:64 | on `a.b.x+c.d.y` the pattern matches `a.b.` at 0 and `c.d.` at 6 |
| Autojoins.ExampleExplode | src/Collection.php:444-452 | with the trailing dot cut off, `a.b.` is the path `a.b`, which explodes into `a` and `b` |
| Autojoins.ExampleQuotes | src/Collection.php:454-457 | on `a.b.x+c.d.y`: quotes at the original offsets give `` `a.b`.`x+c`.d.y ``, quotes at the shifted offsets give `` `a.b`.x+`c.d`.y `` |
| Autojoins.EmptySchemaWalk | src/Collection.php:463-467 | in a schema without relations every walk changes nothing |
| Autojoins.ParseTwo | src/Collection.php:441-457 | corrected: the text of a parse of two two-segment paths is the two quotings in a row, the second shifted by two quote characters when the offsets are corrected |
| Autojoins.QuoteOffsets | src/Collection.php:454-457 | as written: on `a.b.x+c.d.y` the second path is quoted at its offset in the original fragment, giving `` `a.b`.`x+c`.d.y ``; corrected: `` `a.b`.x+`c.d`.y `` |
| Autojoins.AutojoinHopSkip | src/Collection.php:461-495 | as written: once `a` is registered, the path `a.c` stays on the root class and skips the join of `a.c`; corrected: it joins `a.c` |
| Autojoins.HopSkipCorrected | src/Collection.php:461-495 | corrected: with `a` registered, walking `a.c` moves to a's target and joins `a.c` under that alias |
| Autojoins.ParseFrame | src/Collection.php:434-495 | corrected: a parse changes neither the SELECT, WHERE and GROUP BY lists nor the quote character |
| Autojoins.SelectPhaseRewrites | src/Collection.php:407-413 | corrected: the SELECT loop only joins and rewrites SELECT entries; the WHERE and GROUP BY lists are unchanged |
| Autojoins.SelectPhaseShape | src/Collection.php:407-413 | corrected: the SELECT loop keeps every key and leaves the first skipSelectLength entries and the entries that are not strings as they are |
| Autojoins.OrderPhaseSpec | src/Collection.php:415-421 | corrected: the ORDER BY loop parses the string keys into a local copy, so it only adds joins and aliases |
| Autojoins.WherePhaseSpec | src/Collection.php:423-431 | corrected: the WHERE loop only joins and rewrites conditions, keeping their number, the SELECT and the GROUP BY lists |
| Autojoins.GroupPhaseRewrites | src/Collection.php:423-431 | corrected: the GROUP BY loop only joins and rewrites GROUP BY entries |
| Autojoins.GroupPhaseShape | src/Collection.php:423-431 | corrected: the GROUP BY loop keeps every key and leaves the entries that are not strings as they are |
| Autojoins.LaterPhasesSpec | src/Collection.php:415-431 | corrected: the ORDER BY, WHERE and GROUP BY loops together keep the SELECT list and the sizes of the others, and only rewrite string entries |
| Autojoins.AutojoinSpec | src/Collection.php:399-432 | corrected: autojoin() does nothing with smart join off; otherwise it only appends joins, registers aliases and rewrites strings in place, keeping every key, the default SELECT entries and every non-string entry |
| Collections.WhereRecords | src/GenericCollection.php:1600-1610 | a WHERE on one non-null scalar records that value as the only possible value of the expression |
| Collections.PossibleValuesUnderDefaultAlias | src/Collection.php:358-361 | a WHERE on `this.<column>` gives the bare column that possible value here, where the generic collection's lookup finds none |
| Collections.TakeGet | src/Collection.php:211-218 | one pass over a relation removes its key exactly when it is set and leaves every other key |
| Collections.SplitRelationsRest | src/Collection.php:211-218 | after the loop a key is gone exactly when its relation was taken; every other value is unchanged |
| Collections.SplitRelationsTaken | src/Collection.php:211-218 | every taken value is the input's non-null value under one of the structure's relations |
| Collections.SplitRelationsComplete | src/Collection.php:211-218 | every relation that is set in the input is taken |
| Collections.Collection.constructor | src/Collection.php:59-79 | the collection starts with the default from and select, the index `this.<pk>`, smart join on and skipSelectLength the size of the default select |
| Collections.Collection.Create | src/Collection.php:59-79 | the constructor followed by the generic collection's construction, with its error |
| Collections.Collection.SetSmartJoin | src/Collection.php:110-119 | the flag is set; the class changes only to a truthy name of an Entity subclass |
| Collections.Collection.SetSelect | src/Collection.php:345-350 | skipSelectLength becomes 0 and the state is the generic setSelect's |
| Collections.Collection.PossibleValues | src/Collection.php:358-361 | the recorded possible values of the column, or else of `this.<column>`, or none |
| Collections.Collection.JoinHop | src/Collection.php:468-491 | the collection's state and error afterwards are those of one hop |
| Collections.Collection.Hops | src/Collection.php:458-495 | corrected: the collection's state and error afterwards are those of the corrected walk |
| Collections.Collection.ParseExpression | src/Collection.php:434-497 | corrected: state, error and rewritten fragment are those of the corrected parse |
| Collections.Collection.ParseOne | src/Collection.php:442-495 | corrected: one unregistered path: on failure the state and text are the parse's; otherwise the rest of the parse from the new state gives the same outcome |
| Collections.Collection.SelectPhase | src/Collection.php:407-413 | corrected: state and error afterwards are those of the SELECT phase |
| Collections.Collection.OrderPhase | src/Collection.php:415-421 | corrected: state and error afterwards are those of the ORDER BY phase over the old keys |
| Collections.Collection.WherePhase | src/Collection.php:423-431 | corrected: state and error afterwards are those of the WHERE phase |
| Collections.Collection.GroupPhase | src/Collection.php:423-431 | corrected: state and error afterwards are those of the GROUP BY phase |
| Collections.Collection.Autojoin | src/Collection.php:399-432 | corrected: state and error afterwards are those of autojoin() |
| Collections.Collection.GetSql | src/Collection.php:296-301 | corrected: autojoin, then the generic SELECT; an autojoin error is returned as is |
| Collections.Collection.GetSqlDelete | src/Collection.php:321-326 | corrected: autojoin, then the generic DELETE |
| Collections.Collection.GetSqlUpdate | src/Collection.php:310-315 | corrected: autojoin, then the generic UPDATE |
| Collections.Collection.SplitRelationsLoop | src/Collection.php:211-218 | the loop takes out exactly the relations SplitRelations describes |
| Collections.Collection.Update | src/Collection.php:192-228 | an empty input is refused with 'No value to update'; the relation values are taken out; the remaining properties become columns and, if any, are updated through autojoin and the generic UPDATE |
| Unions.Forward | src/UnionCollection.php:506-590 | the forwarded WHERE family leaves exactly as many sub-collections as it was given (Unions.ForwardSpec states the rest) |
| Unions.CompileParts | src/UnionCollection.php:385-389 | getSql's loop leaves exactly as many sub-collections as it was given (Unions.CompilePartsSpec states the texts) |
| Unions.FirstRefusal | src/UnionCollection.php:508-510 | the first sub-collection that throws: every one before it accepts the call and it refuses |
| Unions.LoadedGuard | src/UnionCollection.php:597-683 | once loaded, setTake, setSkip, setPage, setOrderBy, orderBy and fetch throw COLLECTION_ALREADY_LOADED and change nothing (fetch tests the flag at lines 361-363) |
| Unions.SetPageSpec | src/UnionCollection.php:630-640 | setPage stores OFFSET (page-1)*onPage and LIMIT onPage and nothing else |
| Unions.BindVarSpec | src/UnionCollection.php:764-777 | the union's bindVar throws AlreadyExists exactly when the name holds a non-null value, and otherwise binds it and adds the flag |
| Unions.RemoveVarsSpec | src/UnionCollection.php:779-791 | removeVars unsets exactly the binders whose only flag was the cleared one, keeping every other value |
| Unions.ForwardSpec | src/UnionCollection.php:506-590 | a forwarded WHERE call fails exactly when a sub-collection refuses it, with that exception; those before keep their new state, those after are untouched |
| Unions.CompilePartsSpec | src/UnionCollection.php:383-393 | the union's SQL holds every sub-collection's SQL in parentheses, in order, and fails when any of them fails |
| Unions.SuffixWithoutOrder | src/UnionCollection.php:964-981 | without ORDER BY the union's suffix is its LIMIT and OFFSET text alone |
| Unions.SuffixOffsetOnly | src/UnionCollection.php:974-976 | an OFFSET without a LIMIT is preceded by `LIMIT 18446744073709551615` |
| Unions.AddPartVarsKeeps | src/UnionCollection.php:415-417 | `+=` never overwrites: a binder the union already has keeps its value |
| Unions.AddPartVarsFirst | src/UnionCollection.php:415-417 | a new name takes the value of the first sub-collection that binds it |
| Unions.OrderByAsWrittenFailsFresh | src/UnionCollection.php:676 | as written, orderBy() on a union never given setOrderBy() throws TypeError from array_merge on null |
| Unions.OrderBySpec | src/UnionCollection.php:670-683 | corrected: orderBy() on a fresh union stores its list, and after setOrderBy() it appends exactly as the code as written does |
| UnionCollections.UnionCollection.constructor | src/UnionCollection.php:90-97 | a new union holds its sub-collections and no modifier or binder |
| UnionCollections.UnionCollection.BindVar | src/UnionCollection.php:764-777 | the method binds as Unions.BindVar (Unions.BindVarSpec) |
| UnionCollections.UnionCollection.BindAll | src/UnionCollection.php:657-659 | the loop binds each value in turn, stopping at the first refusal |
| UnionCollections.UnionCollection.RemoveVars | src/UnionCollection.php:779-791 | the loop clears the flag as Unions.RemoveVars (Unions.RemoveVarsSpec) |
| UnionCollections.UnionCollection.SetTake | src/UnionCollection.php:597-606 | setTake sets the limit of an unloaded union |
| UnionCollections.UnionCollection.SetSkip | src/UnionCollection.php:613-622 | setSkip sets the offset of an unloaded union |
| UnionCollections.UnionCollection.SetPage | src/UnionCollection.php:630-640 | setPage as Unions.SetPageSpec states |
| UnionCollections.UnionCollection.SetOrderBy | src/UnionCollection.php:648-662 | setOrderBy replaces the order and its binders |
| UnionCollections.UnionCollection.OrderBy | src/UnionCollection.php:670-683 | corrected: orderBy appends to the order, read as empty before any setOrderBy (Unions.OrderBySpec) |
| UnionCollections.UnionCollection.ForwardAll | src/UnionCollection.php:506-590 | the WHERE family is handed to each sub-collection as Unions.ForwardSpec states |
| UnionCollections.UnionCollection.SetWhere | src/UnionCollection.php:506-513 | setWhere is forwarded to every sub-collection |
| UnionCollections.UnionCollection.Where | src/UnionCollection.php:521-528 | where is forwarded to every sub-collection |
| UnionCollections.UnionCollection.WhereMatch | src/UnionCollection.php:536-543 | whereMatch is forwarded to every sub-collection |
| UnionCollections.UnionCollection.WhereBetween | src/UnionCollection.php:553-560 | whereBetween is forwarded to every sub-collection |
| UnionCollections.UnionCollection.SetWhereNot | src/UnionCollection.php:568-575 | setWhereNot is forwarded to every sub-collection |
| UnionCollections.UnionCollection.WhereNot | src/UnionCollection.php:583-590 | whereNot is forwarded to every sub-collection |
| UnionCollections.UnionCollection.GetSql | src/UnionCollection.php:383-393 | the SQL is built as Unions.CompilePartsSpec and SuffixOffsetOnly state |
| UnionCollections.UnionCollection.GetVars | src/UnionCollection.php:403-420 | the binders are the union's own that meet the mask, then each sub-collection's new names (Unions.AddPartVarsKeeps, AddPartVarsFirst) |
| UnionCollections.ForwardLoop | src/UnionCollection.php:508-510 | the loop over the sub-collections computes Unions.Forward |
| UnionCollections.CompileLoop | src/UnionCollection.php:385-387 | the loop over the sub-collections computes Unions.CompileParts |
| UnionCollections.OwnVarsLoop | src/UnionCollection.php:407-411 | the loop keeps exactly the union's binders whose flags meet the mask, in order |
| Entities.TypeName | src/Entity.php:290 | the type name castScalar receives is never "double", since floats are not in the model |
| Entities.UnsetAllGet | src/Entity.php:134 | after setParent's unsets a relation's name is gone from the declared fields and every other field keeps its value |
| Entities.UnsetKeepsDeclared | src/Entity.php:134 | the fields left are declared fields named after no relation |
| Entities.SeedKeepsShadows | src/Entity.php:117-120 | a relation that already has a foreign-key shadow keeps it unchanged |
| Entities.SeedShrinks | src/Entity.php:117-120 | the seeding only removes keys from the property bag |
| Entities.SeedShadowsKeyHolders | src/Entity.php:117-120 | every key-holder relation ends up with a foreign-key shadow |
| Entities.SeedMovesSourceColumn | src/Entity.php:114-120 | a key-holder relation without a shadow, sharing its name and source column with no other relation, is shadowed by the bag's source-column value (null when absent), which leaves the bag |
| Entities.SeedAndUnset | src/Entity.php:113-135 | setParent's loop seeds the shadows, empties the bag's source columns and unsets the relation fields, keeping every map free of repeated keys |
| Entities.PrefixedDataGet | src/Entity.php:601-606 | corrected: the data built for a relation holds exactly the bag's entries whose name starts with `relation_`, under the rest of the name |
| Entities.ContainingDataTakesInnerMatch | src/Entity.php:601-606 | as written (a `contains` test and a cut at the prefix's length): for relation `type`, the column `subtype_id` of another relation is taken, under the key `pe_id` |
| Entities.PrefixedDataSkipsInnerMatch | src/Entity.php:601 | corrected: `subtype_id` is not a column of relation `type` |
| Entities.ShadowSetSpec | src/Entity.php:666-674 | writing a shadow keeps its place and its keys; it holds null for null and the string form for a scalar or an entity |
| Entities.CacheSetUnique | src/Entity.php:668-678 | the relation cache then holds the entity or collection assigned and nothing for a scalar or null, without repeated keys |
| Entities.ValueOf | src/Entity.php:264-291 | getValue answers from the shadow first; a declared field read for the active mutation gives the field; a missing mutation or a name missing from the bag is a NotExists error naming it |
| Entities.IssetReadable | src/Entity.php:654-657 | a name that `__isset` admits can be read without an error |
| Entities.ShadowSetThenGet | src/Entity.php:664-674 | after `__set` of null, a scalar or an entity on a foreign-key name, the name reads back as the string form written, and it is set unless null was written and it is not in the bag |
| Entities.BagSetThenGet | src/Entity.php:680-682 | after `__set` on another name the name is set, and an undeclared name reads back as the value written |
| Entities.SetValueFails | src/Entity.php:230-257 | setValue fails exactly on an unknown mutation code when it switches mutation and the property is not a set field read for the active mutation; a failure leaves the fields and the bag as they were |
| Entities.SetValueUnique | src/Entity.php:230-257 | setValue keeps the shadow, field and bag maps free of repeated keys and declares no new field |
| Entities.SetValueThenGet | src/Entity.php:230-291 | getValue reads back what setValue wrote: always on a foreign-key name, and on an undeclared name when the mutation code is known |
| Entities.RelatedOfCached | src/Entity.php:626-648 | a relation read once is cached: reading it again returns the same, whatever the repository would now return, and leaves the cache alone |
| Entities.RelatedOfFails | src/Entity.php:636-640 | only a missing relation or a failed fetch is an error, and the cache then does not change |
| Entities.RelatedOfBuilt | src/Entity.php:642-644 | a key-holder relation whose target key is set in the bag is built from the bag, each of its keys read from `relation_key` |
| Entities.Entity.constructor | src/Entity.php:54-72 | a new entity without parent or values has the class's defaults, the given mutations and no bag, shadows or cached relations |
| Entities.Entity.MutationSuffix | src/Entity.php:562-565 | the suffix is "" or an available suffix; a truthy known code gives its own suffix and a falsy one the active mutation's |
| Entities.Entity.GetPK | src/Entity.php:199-222 | without a parent the first bag value when it is truthy. With one: the PK field when set; else, for an undeclared name that `__isset` admits (a bag entry or a set foreign key, lines 654-657), what `__get` reads (lines 626-648: the bag value, the cached relation, or the relation it builds or fetches, whose error is passed on); else the bag's PK value when set; else a PK_IS_NOT_SET error. Only an integer or a string is returned: an entity, null or anything else is a TypeError of the return type |
| Entities.Entity.MagicSet | src/Entity.php:664-683 | `__set` on a foreign-key name writes the shadow and the cache as the two step lemmas say, and on any other name puts the value in the bag; nothing else changes |
| Entities.Entity.Assign | src/Entity.php:664-683 | an assignment from outside writes a declared field directly and passes any other name to `__set` |
| Entities.Entity.SetValue | src/Entity.php:230-257 | setValue changes the shadow, fields and bag exactly as SetValueOf computes and returns its error |
| Entities.Entity.SetParent | src/Entity.php:108-136 | the same parent changes nothing; otherwise the parent is set and the shadows, bag and fields become those of setParent's loop |
| Entities.Entity.RelationFromProperties | src/Entity.php:593-611 | corrected: the loop collects PrefixedData of the bag for `relation_` |
| Entities.Entity.MagicGet | src/Entity.php:626-648 | corrected: `__get` returns the bag value, else the cached relation, else the relation built from the bag (by the prefix test) or fetched, caching it; an unknown name is a NotExists error |
| ArrayWrappers.LoadParentKeeps | src/ArrayWrapper.php:138-149 | an entity that already has a parent is returned as it is |
| ArrayWrappers.AttachGet | src/ArrayWrapper.php:143-145 | attaching replaces exactly the properties named in the child-parent map, each by a wrapper of the value it had |
| ArrayWrappers.LoadParentAttaches | src/ArrayWrapper.php:140-146 | an entity without a parent gets the wrapper's parent, and each property of the child-parent map becomes a nested wrapper of its former value, passing the map on only when recursive |
| ArrayWrappers.LoadParentIdempotent | src/ArrayWrapper.php:140 | a loaded entity has a parent, so loading it again changes nothing |
| ArrayWrappers.AttachLoop | src/ArrayWrapper.php:143-145 | the loop over the child-parent map computes the attached properties |
| ArrayWrappers.ArrayWrapper.constructor | src/ArrayWrapper.php:39-45 | the wrapper holds the source, parent, child-parent map and recursion flag, with the cursor on the first entry |
| ArrayWrappers.ArrayWrapper.OffsetSet | src/ArrayWrapper.php:115-118 | the entry is written, no other key changes, the count grows by one exactly for a new key, and the offset then exists exactly when the value is not null |
| ArrayWrappers.ArrayWrapper.OffsetUnset | src/ArrayWrapper.php:124-127 | only that key goes, the offset no longer exists, and the count drops by one exactly when the key was present |
| ArrayWrappers.ArrayWrapper.OffsetGet | src/ArrayWrapper.php:105-108 | a missing or null entry makes the call of hasParent() on null raise PHP's \Error (NullCall); otherwise the entity is loaded, in place, and returned |
| ArrayWrappers.ArrayWrapper.Key | src/ArrayWrapper.php:70-73 | the key under the cursor, a key of the source, and null exactly past the end |
| ArrayWrappers.ArrayWrapper.Rewind | src/ArrayWrapper.php:86-89 | the cursor returns to the first key; the wrapper is then valid exactly when the source is not empty |
| ArrayWrappers.ArrayWrapper.Next | src/ArrayWrapper.php:61-64 | the cursor moves by one, and stays put past the end |
| ArrayWrappers.ArrayWrapper.Current | src/ArrayWrapper.php:51-56 | the entity under the cursor, loaded in place; null past the end and for a null entry, with nothing changed |
| DIConnections.SuffixOf | src/DIConnection.php:135-138 | reading the suffix before any mutation is set raises PHP's \Error; an unknown code gives "" |
| DIConnections.SuffixOfAvailable | src/DIConnection.php:137 | the suffix of an available mutation is the one listed first under its code |
| DIConnections.DIConnection.constructor | src/DIConnection.php:15-25 | a new connection has no mutation set and empty available and fallback lists |
| DIConnections.DIConnection.Mutation | src/DIConnection.php:130-133 | `getMutation` returns the active code, and raises \Error before one is set |
| DIConnections.DIConnection.SetFallbackMutations | src/DIConnection.php:108-111 | only the fallback list changes |
| DIConnections.DIConnection.SetMutation | src/DIConnection.php:121-128 | it fails (InvalidArgument) exactly for a code that is not available, changing nothing; otherwise the code becomes active and its suffix is the one listed under it |
| DIConnections.DIConnection.SetAvailableMutations | src/DIConnection.php:161-165 | the list is stored and its first code (or "" for an empty list) becomes active, with its suffix |
| DIConnections.DIConnection.BindVariables | src/DIConnection.php:176-179 | Helpers' bindVariables with the available mutations: an array value fails exactly when one of its keys is not an available code |
| Repositories.Renamed | src/Repository.php:537-545 | each entry keeps its value and gets, in order, the key propertiesToColumns gives it |
| Repositories.PropertiesToColumnsGet | src/Repository.php:532-548 | a value whose new key no other entry shares is found under that key: an unknown property or integer key stays as it is, a known property is renamed to its column unless arrays are skipped and the value is an array |
| Repositories.PropertiesToColumnsKeys | src/Repository.php:532-548 | no key appears in the result unless some entry is renamed to it |
| Repositories.PropertiesToColumnsLoop | src/Repository.php:532-548 | the loop computes propertiesToColumns |
| Repositories.DefaultFromPrefix | src/Repository.php:481-484 | a collection whose FROM is the default one has `this.` (or `this`) as its prefix |
| Repositories.OneSpec | src/Repository.php:154-175 | a condition that is not an array, a string or an integer is refused before any query; a scalar is looked up by the primary key under `this.`; an array is matched under `this.` |
| Repositories.FirstUpper | src/Repository.php:500 | the first letter is upper-cased and the rest of the name is kept |
| Repositories.FilterFails | src/Repository.php:493-524 | filter() fails exactly when it is not silent and some string-keyed filter names no method |
| Repositories.FilterCalls | src/Repository.php:495-506 | only existing filter methods are called, and when nothing fails every string-keyed filter whose method exists is called with its value |
| Repositories.FilterLoop | src/Repository.php:493-524 | the loop computes the calls and the failure of filter() |
| Repositories.CreateRelationsSpec | src/Repository.php:561-581 | with distinct relation names, an array under a key-holder relation is replaced by what its own sync returns; an array under another relation leaves the row and is returned as a list under that name; a relation without an array changes nothing |
| Repositories.CreateRelationsOthers | src/Repository.php:561-581 | keys that name no relation keep their values and only relation names are returned |
| Repositories.CreateRelationsLoop | src/Repository.php:561-581 | the loop computes the row and the returned relations of createRelations() |
| Repositories.UpdatePropsSpec | src/Repository.php:241-260 | corrected: the update list fails exactly when an entry names neither a relation nor a column; otherwise Literals stay, each relation name leaves the list, whatever its key, and is recorded, each other name becomes its column name under its key, and no key is added |
| Repositories.UpdatePropsOnlyRelations | src/Repository.php:241-260 | corrected: a list that names only relations of the row leaves nothing to update |
| Repositories.UpdatePropsAsWrittenKeepsRelation | src/Repository.php:247-249 | as written, `['tags']` keeps its entry because it is unset by name, not by its key 0; the corrected list drops it |
| Repositories.RelationReachesDuplicateUpdate | src/Repository.php:249-276 | as written, the entry left behind reaches ON DUPLICATE KEY UPDATE as a column `tags`; the corrected empty list writes no such clause |
| Repositories.SyncUpdatesOnlyRelations | src/Repository.php:241-276 | corrected: with a list naming only relations, syncOne() inserts with IGNORE and writes no ON DUPLICATE KEY UPDATE clause |
| Repositories.PkAfterInsertSpec | src/Repository.php:283-285 | after the insert an auto-increment entity has its key; a given key and a non-auto-increment row are kept; no other entry changes |
| Repositories.ResyncedSpec | src/Repository.php:299-307 | a relation is related again exactly when the row was inserted, all columns are updated or the update list named it |
| Repositories.SyncManyUpdates | src/Repository.php:352-360 | the update list fails exactly when a name is not a column, at the first such name; otherwise every name becomes its column's name in place |
| Repositories.SyncManyAffected | src/Repository.php:416 | syncMany() counts the affected rows of every chunk |
| Repositories.SyncManyKept | src/Repository.php:394-421 | when every chunk keeps its keys, the result is the keys the rows carried, in order |
| Repositories.SyncManyDerived | src/Repository.php:419-423 | when the last chunk derives its keys they are lastInsertId - affected .. lastInsertId - 1, with every chunk's rows counted |
| Repositories.SyncManyCollectionEmpty | src/Repository.php:427 | without keys the collection is filtered by `(1=0)` alone and binds nothing new |
| RelationWrites.Open | src/RelationCollection.php:32-39 | the constructor refuses a relation whose source holds the key with KEY_HOLDER_NOT_ALLOWED, exactly then, and otherwise keeps the key value as a string |
| RelationWrites.BuildJunctionRows | src/RelationCollection.php:64-74 | relate()'s loop over the keys builds exactly the junction rows JunctionRows describes, one per key, in order |
| RelationWrites.JunctionRowsAt | src/RelationCollection.php:66-73 | the i-th junction row is the row of the i-th key: owner in the source column, key (or its index merged with a nested key) in the target column, plus the generated primary key when a key name is given |
| RelationWrites.RelatedRowMatches | src/RelationCollection.php:66-130 | every junction row relate() inserts for a scalar key meets both WHERE conditions unrelate() deletes by |
| RelationWrites.UnrelateUndoesRelate | src/RelationCollection.php:59-131 | on an N:N relation, unrelate() of keys that parseVars accepts (scalars, null, entities) succeeds, and unrelating the keys just related (owner not yet paired with them) restores the junction table |
| RelationWrites.RelateIgnoresUnchecked | src/RelationCollection.php:77 | relate() on an N:N relation inserts one row per key into the junction table, with INSERT IGNORE exactly when the keys are not checked |
| RelationWrites.DesiredFails | src/RelationCollection.php:104 | the desired-key map cannot be built exactly when one of the requested values is not a valid array key |
| RelationWrites.DesiredKeys | src/RelationCollection.php:104 | the desired keys are exactly the keys the requested values make, each once |
| RelationWrites.MissingSpec | src/RelationCollection.php:106 | array_diff_key leaves exactly the desired keys that no target row has, each once |
| RelationWrites.RelateChecksKeys | src/RelationCollection.php:89-108 | with the check on a 1:N relation, the query for the found keys throws INVALID_BINDER_VAR exactly when a key is not a scalar, null or an entity, nested key arrays included, so the InvalidArgumentException test after it never fires; with string and integer keys NotFound is thrown exactly when some requested key has no target row, listing exactly the missing keys |
| RelationWrites.RelateUncheckedUpdates | src/RelationCollection.php:89-111 | without the check, relate() on a 1:N relation updates the target key column of the target table exactly when every key survives parseVars, and otherwise throws INVALID_BINDER_VAR |
| RelationWrites.RelateManyToOneLinks | src/RelationCollection.php:90-111 | relate() on a 1:N relation writes the owner's key into the target key of exactly the target rows whose uuid was requested, and leaves every other row as it was |
| RelationWrites.UnrelateOverridesRelate | src/RelationCollection.php:111-137 | on a 1:N relation, after a relate() that succeeds, unrelate() of the same keys succeeds too and leaves the table as unrelating alone does |
| RelationWrites.UnrelateAllEmpties | src/RelationCollection.php:144-163 | corrected: after unrelateAll() no junction row names the owner (N:N) and no target row holds the owner's key in the target key column (1:N) |
| RelationWrites.UnrelateAllAsWrittenMisses | src/RelationCollection.php:159-162 | as written: filtering by the relation's source key leaves a target row that holds the owner's key in the target key column untouched, where the corrected statement clears it |
| RelationWrites.RelationFilterSpec | src/RelationCollection.php:165-179 | init() on a state without binders succeeds and filters the target rows to those related to the owner: through the junction join on via for N:N, by the target key for 1:N |
| RelationWrites.JunctionFilter | src/RelationCollection.php:174-175 | the N:N branch of init(): the join of the junction table as via, then a WHERE on its source column by the owner's key |
| RelationWrites.SetJoinVia | src/RelationCollection.php:174 | setJoin(['via' => $via], condition) succeeds when via is free or already a join alias, adds exactly that join and registers via as a join alias |
| RelationWrites.SetWhereOwner | src/RelationCollection.php:175-177 | setWhere on the owner's key (a scalar or a one-element list) filters by that column and value |
| RelationWrites.WhereAfterJoin | src/RelationCollection.php:175 | the WHERE after the join keeps the join and the aliases and filters by the owner's key |
| RelationCollections.RelationCollection.constructor | src/RelationCollection.php:32-35 | the collection keeps its relation and the key value |
| RelationCollections.RelationCollection.Create | src/RelationCollection.php:32-43 | a key holder is refused with KEY_HOLDER_NOT_ALLOWED before anything is built; otherwise a fresh collection over the target whose state is the initial state after init()'s filter, or the filter's error (the filter of init, lines 165-179) |
| RelationCollections.RelationCollection.Filter | src/RelationCollection.php:169-178 | the collection's state afterwards is RelationFilter of the old one, and the error is the filter's |
| RelationCollections.RelationCollection.ClearIfLoaded | src/RelationCollection.php:55-57 | afterwards the collection is not loaded and nothing else of its state has changed |
| RelationCollections.RelationCollection.Relate | src/RelationCollection.php:53-112 | clears a loaded collection; N:N yields the junction insert, 1:N the update, or INVALID_BINDER_VAR for a key parseVars refuses, or with the check the NotFound error |
| RelationCollections.RelationCollection.Unrelate | src/RelationCollection.php:119-138 | clears a loaded collection; throws INVALID_BINDER_VAR exactly when a key is not a scalar, null or an entity (parseVars, at the delete or update); otherwise yields the delete of the junction rows (N:N) or the update that nulls the target key (1:N) |
| RelationCollections.RelationCollection.UnrelateAll | src/RelationCollection.php:144-163 | corrected: clears a loaded collection and yields the delete of all the owner's junction rows (N:N) or the update that nulls the target key of the owner's target rows (1:N) |
| Connections.QuoteChar | src/Connection.php:69 | the identifier quote is a backtick for the mysql driver and a double quote for any other |
| Connections.QuoteIdentifierShape | src/Connection.php:141-144 | a quoted identifier is the name between two copies of the driver's quote character |
| Connections.GeneratePrimaryKey | src/Connection.php:532-537 | without a generator there is no key; a generator answer is cast to a string (an array gives "Array"), and only an object without `__toString` fails, with PHP's \Error (NoStringForm) |
| Connections.PrepareInputArraySpec | src/Connection.php:586-609 | without a truthy PK name the row and keys are unchanged; a set PK is recorded; a missing PK gets the truthy generated key, which is recorded; otherwise nothing changes |
| Connections.AsList | src/Connection.php:388-394 | `array_values`/`array_keys`: the list keeps the items in order under the keys 0..n-1 |
| Connections.Assignments | src/Connection.php:405-421 | corrected: the ON DUPLICATE KEY UPDATE list has one assignment per entry, in order |
| Connections.DefaultUpdates | src/Connection.php:403 | an empty or missing update list stands for the last row's columns, in order |
| Connections.BindRowLoop | src/Connection.php:382-384 | the loop binds a row's values as the row binder says |
| Connections.AssignmentsLoop | src/Connection.php:399-422 | corrected: the loop writes the assignments, one per column, joined by commas |
| Connections.RowTextOf | src/Connection.php:386-394 | the first row writes `INSERT [IGNORE] INTO table (columns) VALUES`, the others a comma, and each its binders in brackets |
| Connections.InsertRowsLoop | src/Connection.php:367-397 | the loop over the rows fails as InsertRows does and otherwise produces the rows' text, the bound values and the last row's binders |
| Connections.GetSqlInsert | src/Connection.php:359-427 | corrected: the method computes SqlInsert, whose assignments are written once each |
| ConnectionProps.AssignmentAsWrittenTwice | src/Connection.php:414-419 | as written, a truthy checked key makes every assignment appear twice: the checked one followed by the plain `name=VALUES(name)` |
| ConnectionProps.AssignmentAsWrittenExample | src/Connection.php:414-419 | as written, with checked key `id` the column `a` gets `a=IF(...)a=VALUES(a)` |
| ConnectionProps.AssignmentOnce | src/Connection.php:410-419 | corrected: a Literal writes its SQL; without a checked key a column writes `name=VALUES(name)`, with one the checked expression, once |
| ConnectionProps.RowBinds | src/Connection.php:382-384 | each column of a row is bound as `:column` + row number, in order |
| ConnectionProps.BindRowScalar | src/Connection.php:382-384 | a row of scalars always binds, adding exactly its binder names to the variables |
| ConnectionProps.BindRowBinds | src/Connection.php:382-384 | a row of scalars with distinct columns adds one binder per column, in order |
| ConnectionProps.InsertRowsErrors | src/Connection.php:367-378 | over rows of scalars the loop fails exactly when the first row has no columns (NoColumns) or a row's count differs from the first's (ColumnCountMismatch) |
| ConnectionProps.InsertRowsParts | src/Connection.php:367-397 | every row adds one binder list, in order |
| ConnectionProps.InsertRowsKeys | src/Connection.php:367-397 | the variables are exactly the binder names of all rows |
| ConnectionProps.HeaderText | src/Connection.php:386-389 | the first row's text is the INSERT header with its column list |
| ConnectionProps.SqlInsertErrors | src/Connection.php:367-378 | getSqlInsert fails exactly when the first row has no columns or the column counts differ, with that error |
| ConnectionProps.SqlInsertText | src/Connection.php:359-427 | corrected: the statement is the rows' text followed by the ON DUPLICATE KEY UPDATE part built from the last row's binders |
| ConnectionProps.SqlInsertHeader | src/Connection.php:386-389 | the statement starts with the INSERT header of the first row |
| ConnectionProps.SqlInsertVars | src/Connection.php:424 | the variables returned are exactly the binder names of all rows |
| ConnectionProps.DefaultDuplicatePart | src/Connection.php:399-422 | without a checked key, a missing update list updates every column of the last row with VALUES(column), and an empty list writes no clause |
| ConnectionProps.LastRowBinds | src/Connection.php:380-384 | the binders left after the loop are the last row's |
| ConnectionProps.SqlInsertDefaultUpdate | src/Connection.php:399-422 | with no update list the statement updates every column of the last row on a duplicate key |
| ConnectionProps.SqlInsertNoUpdate | src/Connection.php:399 | with an empty update list the statement is the insert alone |

## Left out

- Entities.Entity.SetParent: models `setParent($parent, false)` only. The default recursive call also re-parents the cached related entities and re-binds the cached collections to their target repositories (src/Entity.php:124-131). Those objects live in other repositories, which are not part of this model.
- ArrayWrappers.LoadParent: sets only the entity's parent and wraps its child properties. Left out:
  - what setParent does to the entity (foreign-key seeding and unsetting the declared fields);
  - the TypeError that `new ArrayWrapper(...)` raises when a child property is not an array;
  - that the wrapped entity is the same object the caller holds (aliasing).
- ArrayWrappers.ArrayWrapper.OffsetSet: a null offset appends in PHP (`$a[] = $v`). The model writes under the key it is given.
- Expressions.Format: formats only `%s` and `%%`. Every other vsprintf conversion (`%d`, `%b`, `%u`, `%x`, `%f`, positional `%1$s`, widths and flags) gives None, as too few arguments do. PHP would format them; floats and number formatting are not modelled.
- Query.ReplaceLiterals: replaces `:name` literally. The source goes through preg_replace (src/GenericCollection.php:1452-1461, src/UnionCollection.php:892-896), where `$n`, `${n}` and `\n` in a Literal's SQL are back-references, and a binder name holding regex metacharacters changes the pattern.
- Helpers.CastScalar: an object cast to 'integer' is returned unchanged. `intval` of an object gives 1 (src/Helpers.php:257). Casts to 'double' give None, because floats are not modelled.
- Helpers.StringIntVal: reads whitespace, a sign and decimal digits. Exponent notation (`"1e3"` gives 1000) and saturation at PHP_INT_MAX are not modelled, because integers are unbounded here.
- Helpers.Dedupe: compares strings exactly. `array_unique(..., SORT_REGULAR)` (src/Helpers.php:88) compares loosely, so numeric strings such as `"1"` and `"01"` count as one there.
- Helpers.CreateSqlClauseString: the call `setIndex(null)` on a collection passed as a fragment (src/Helpers.php:145) is left out. Fragments here are strings; collections as values are not modelled.
- Meta.Table.constructor: the derived table name lower-cases the ASCII letters A-Z only (Php.Lower, through Meta.TableNameFromClass). `Strings::lower` (src/Meta/Table.php:85) is `mb_strtolower`, which also maps non-ASCII upper-case letters; that multibyte case mapping is not modelled, and Meta.TableNameShape and Meta.TableNameIdempotent are stated for the ASCII lower-casing.
- Entities.Entity.GetPK: reading a set foreign key through `__get` also stores the loaded relation in the relation cache (src/Entity.php:647). GetPK is a function here and leaves the cache as it was; Entities.Entity.MagicGet models that caching.
- Helpers.GetBestSimilarString: the distances (Helpers.Lev) count characters. PHP's `levenshtein` (src/Helpers.php:90) counts bytes, so for names with multibyte characters the distance, and with it the suggestion, can differ. The threshold uses `Strings::length`, which counts characters as here.
- GenericCollections.GenericCollection.BindAll: the values array that setFrom, from, setSelect, select, setOrderBy, orderBy, setGroupBy, setJoin and join bind is keyed by strings here. An integer key makes `bindVar(string $name, ...)` throw a TypeError under strict types (src/GenericCollection.php:1507); that error is not modelled.
- Repositories.FilterMethod: compares method names exactly, and FirstUpper upper-cases ASCII letters only. PHP's `method_exists` ignores case, and `Strings::firstUpper` is multibyte-aware.
- Repositories.SyncManyUpdates: models the rename of the update list only. The per-row relate of the join relations and the 'Primary key not found for joining relations.' InvalidArgument (src/Repository.php:398-405) need the database and a relation collection per row, and are left out.
- RelationWrites.ValueKey: a requested key that is null, a boolean or an entity gives a TypeError in a checked 1:N relate. `array_combine` would turn it into a string key instead (null and false to `""`, true to `"1"`, objects through `__toString`).
- RelationWrites.Apply: the effect of a statement on a table is a model, not the database. INSERT IGNORE appends its rows like INSERT, because there are no unique indexes here. A condition holds by equality of model values, not by SQL comparison and collation. rowCount, the number relate, unrelate and unrelateAll return, is not modelled.
- RelationCollections.RelationCollection.Relate: the keys found by the query for the requested keys (`toArrayOf($pkName)`) are a parameter, `found`. So are the generated junction keys, `generated`.
- Collections.Collection.Update: models update() on an array only. The object input (`Helpers::toArrayRecursive`) and the InvalidArgument for other types are left out. The per-id writes of the relations it takes out (unrelateAll, relate, syncOne) and the onUpdate callbacks (src/Collection.php:229-256) are also left out: they need the ids the database returns. The method returns the taken relations instead.
- Collections.Collection.SetSmartJoin: `is_subclass_of($entityClass, Entity::class)` is a parameter, `isEntity`.
- Autojoins.RelationOf: a class missing from the schema has no relations here. SchemaManager::getStructure would fail on it.
- Autojoins.AutojoinSpec: does not state that a second autojoin() adds no join. The second run reads the fragments the first one quoted, and the no-new-join property is proved per fragment only (Autojoins.ParseAgainAddsNothing).
- Autojoins.ParseAgainAddsNothing: proved for the corrected walk and offsets that Collections.Collection uses. The lemmas about the walk assume a one-character quote, which both quote characters of the connection are.
- Collection::delete() and its onDelete callbacks: only the SQL (Collections.Collection.GetSqlDelete) is modelled. Running it and the callbacks belong to the database and the application.
- Connections: the PDO calls (prepare, execute, lastInsertId) and the key generator's result are parameters.
- Floats: values of type float, castScalar to 'double' and number formatting are not modelled.

## Findings

| source | as written | input that shows it | evidently intended | confidence | as-written member | corrected member |
|---|---|---|---|---|---|---|
| src/Connection.php:414-419 | with a truthy checked key, each ON DUPLICATE KEY UPDATE column gets the checked assignment and then, with no comma between them, the plain `name=VALUES(name)` | checked key `id`, column `a`: `a=IF(id != VALUES(id), IF (0, a, NULL), VALUES(a))a=VALUES(a)` | the checked assignment instead of the plain one, once per column | high, not executed | Connections.AssignmentAsWritten, ConnectionProps.AssignmentAsWrittenTwice | Connections.Assignment, ConnectionProps.AssignmentOnce |
| src/Entity.php:601-606 | the data of a relation built from the bag keeps every property that contains `name_` and cuts the first strlen(`name_`) characters | relation `type`, property `subtype_id`: it is taken, under the key `pe_id` | keep only the properties that start with `name_`, under the rest of the name | high, not executed | Entities.ContainingData, Entities.ContainingDataTakesInnerMatch | Entities.PrefixedData, Entities.PrefixedDataGet |
| src/Repository.php:247-249 | syncOne's update list drops a relation entry with `unset($updateProps[$name])`, by the relation's name rather than the key it iterates | `updateProps = ['tags']` with `tags` a join relation: the entry under key 0 stays and reaches ON DUPLICATE KEY UPDATE as a column `tags` | unset the iterated key, so that relations never reach the column list | high, not executed | Repositories.UpdatePropsAsWritten, Repositories.UpdatePropsAsWrittenKeepsRelation, Repositories.RelationReachesDuplicateUpdate | Repositories.UpdateProps, Repositories.UpdatePropsSpec |
| src/GenericCollection.php:1127-1137 | setFullGroupBy stores the keyed SELECT list as GROUP BY, which is rendered with an empty glue between key and value | select `name => this.name`: ` GROUP BY this.namename` | GROUP BY the selected expressions | high, not executed | Query.SetFullGroupByAsWritten, QueryProps.FullGroupByAsWrittenGarbles | Query.SetFullGroupBy, QueryProps.FullGroupByListsExpressions |
| src/UnionCollection.php:676 | orderBy() merges into an ORDER BY that the constructor never sets | orderBy(['a' => 'ASC']) on a fresh union: array_merge(null, ...) throws TypeError | an empty ORDER BY before the first setOrderBy | high, not executed | Unions.OrderByAsWritten, Unions.OrderByAsWrittenFailsFresh | Unions.OrderBy, Unions.OrderBySpec |
| src/Meta/Structure.php:239-241 | getColumns keeps a column when (includePK and it is not the PK) or (includeFK and it is not a FK), which swaps the two flags | getColumns(true, false) drops the PK and keeps the FKs; getColumns(false, true) keeps the PK | drop the PK unless includePK, drop the FKs unless includeFK | medium, not executed | Structures.GetColumnsAsWritten, Structures.GetColumnsAsWrittenSwapsFlags | Structures.GetColumns |
| src/RelationCollection.php:159-162 | unrelateAll() on a 1:N relation selects the target rows whose source-key column (the owner's own key column) equals the owner's key | relation `items` (source key `uuid`, target key `fk_s`), owner `s1`, target row `{uuid: t1, fk_s: s1}`: nothing is cleared | select the rows whose target-key column holds the owner's key, as relate() and init() do | medium, not executed | RelationWrites.UnrelateAllAsWritten, RelationWrites.UnrelateAllAsWrittenMisses | RelationWrites.UnrelateAll, RelationWrites.UnrelateAllEmpties |
| src/Collection.php:461-495 | the walk advances the class and the alias prefix only inside `if (!isset($this->aliases[$alias]))`, so a registered segment leaves the walk on the old class | path `a.c` with `a` already joined and `c` a relation of a's class: no join of `a.c` | move to the registered relation's target and prefix, and join the next segment from there | medium, not executed | Autojoins.HopsAsWritten, Autojoins.AutojoinHopSkip | Autojoins.Hops, Autojoins.HopsCovers |
| src/Collection.php:454-457 | the quotes go at the path's offset in the original fragment, although earlier quotes have already shifted the text | `a.b.x+c.d.y`: `` `a.b`.`x+c`.d.y `` | shift each offset by the quotes already inserted: `` `a.b`.x+`c.d`.y `` | high, not executed | Autojoins.ParseExpressionAsWritten, Autojoins.QuoteOffsets | Autojoins.ParseExpression, Autojoins.ParseExpressionQuotes |
