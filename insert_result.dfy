/** StORM\InsertResult: what an INSERT reports back. Its fields are set once by the
    constructor, so it is a value; the database's answers (affected rows, the last insert
    id before and after) are its inputs. */
module InsertResults {
  import opened Php
  import opened Errors

  /** PDO's rowCount for an `ON DUPLICATE KEY UPDATE` that updated the row */
  const UpdateAffectedCount := 2

  datatype InsertResult = InsertResult(
    tableName: string,
    multiple: bool,
    ignore: bool,
    rowCount: int,
    idBefore: int,
    idAfter: Option<int>,
    primaryKeys: seq<string>)

  /** `$idAfter` in integer arithmetic: null counts as 0 */
  function IdAfterValue(r: InsertResult): int {
    if r.idAfter.None? then 0 else r.idAfter.value
  }

  /** the keys the caller supplied, as PHP values */
  function KeyValues(keys: seq<string>): (r: seq<Value>)
    ensures |r| == |keys| && forall i :: 0 <= i < |keys| ==> r[i] == Str(keys[i])
  {
    if keys == [] then [] else [Str(keys[0])] + KeyValues(keys[1..])
  }

  function IntValues(ns: seq<int>): (r: seq<Value>)
    ensures |r| == |ns| && forall i :: 0 <= i < |ns| ==> r[i] == Int(ns[i])
  {
    if ns == [] then [] else [Int(ns[0])] + IntValues(ns[1..])
  }

  /** `getPrimaryKeys()`: the supplied keys, or the auto-increment ids the insert used */
  function GetPrimaryKeys(r: InsertResult): Result<seq<Value>> {
    if r.primaryKeys == [] && r.ignore && r.multiple then Err(InvalidState(IgnoreCode))
    else if r.primaryKeys == [] && r.idAfter != Some(r.idBefore) then
      Ok(IntValues(Range(IdAfterValue(r) - r.rowCount, IdAfterValue(r) - 1)))
    else Ok(KeyValues(r.primaryKeys))
  }

  /** `isSynced()`: only a single-row insert can tell */
  function IsSynced(r: InsertResult): Result<bool> {
    if r.multiple then Err(InvalidState(Synced)) else Ok(r.rowCount == UpdateAffectedCount)
  }

  /** `getRowCount()` */
  function GetRowCount(r: InsertResult): int {
    r.rowCount
  }

  /** `getLastInsertedId()` */
  function GetLastInsertedId(r: InsertResult): Option<int> {
    r.idAfter
  }

  // ---------------------------------------------------------------------
  // Properties

  /** Keys supplied by the caller come back unchanged. */
  lemma ExplicitKeys(r: InsertResult)
    requires r.primaryKeys != []
    ensures var k := GetPrimaryKeys(r);
      k.Ok? && |k.value| == |r.primaryKeys|
      && forall i :: 0 <= i < |r.primaryKeys| ==> k.value[i] == Str(r.primaryKeys[i])
  {
  }

  /** Without supplied keys, an INSERT IGNORE of several rows cannot name its keys. */
  lemma IgnoreMultipleFails(r: InsertResult)
    ensures GetPrimaryKeys(r).Err? <==> r.primaryKeys == [] && r.ignore && r.multiple
    ensures GetPrimaryKeys(r).Err? ==> GetPrimaryKeys(r).error == InvalidState(IgnoreCode)
  {
  }

  /** Without supplied keys, a moved auto-increment id gives the rowCount ids that end just
      below the new id, in ascending order. */
  lemma DerivedKeys(r: InsertResult)
    requires r.primaryKeys == [] && !(r.ignore && r.multiple)
    requires r.idAfter.Some? && r.idAfter.value != r.idBefore && r.rowCount >= 1
    ensures var k := GetPrimaryKeys(r);
      k.Ok? && |k.value| == r.rowCount
      && forall i :: 0 <= i < r.rowCount ==> k.value[i] == Int(r.idAfter.value - r.rowCount + i)
  {
  }

  /** An instance: three rows that move the id from 10 to 13 give the keys [10, 11, 12]. */
  lemma DerivedKeysExample()
    ensures GetPrimaryKeys(InsertResult("t", true, false, 3, 10, Some(13), [])) == Ok([Int(10), Int(11), Int(12)])
  {
    var r := InsertResult("t", true, false, 3, 10, Some(13), []);
    var k := GetPrimaryKeys(r);
    assert |k.value| == 3;
    assert k.value[0] == Int(10) && k.value[1] == Int(11) && k.value[2] == Int(12);
    assert k.value == [Int(10), Int(11), Int(12)];
  }

  /** Without supplied keys, an unmoved id means no keys. */
  lemma UnmovedIdNoKeys(r: InsertResult)
    requires r.primaryKeys == [] && !(r.ignore && r.multiple) && r.idAfter == Some(r.idBefore)
    ensures GetPrimaryKeys(r) == Ok([])
  {
  }

  /** isSynced refuses a multiple insert and otherwise means "the row was updated". */
  lemma IsSyncedSpec(r: InsertResult)
    ensures IsSynced(r).Err? <==> r.multiple
    ensures IsSynced(r).Ok? ==> (IsSynced(r).value <==> r.rowCount == 2)
  {
  }
}
