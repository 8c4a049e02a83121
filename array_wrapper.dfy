/** StORM\ArrayWrapper: an array of entities read through ArrayAccess and Iterator, which
    attaches its parent (a repository or collection) to each entity it hands out that has
    none, and wraps the entity's configured child properties in nested wrappers. */
module ArrayWrappers {
  import opened Php
  import opened Errors

  /** the value of an entity property: a plain value, or a nested wrapper with its
      parent, the child-parent map it passes on, its recursion flag and what it wraps */
  datatype Link =
    | Raw(v: Value)
    | Wrapped(parent: nat, childParents: seq<(string, nat)>, passRecursive: bool, source: Link)

  /** an entity as the wrapper sees it: the identity of its parent, if any, and its properties */
  datatype Row = Row(parent: Option<nat>, props: seq<(string, Link)>)

  /** `$value->$property`; a property the entity lacks reads as null */
  function LinkOf(props: seq<(string, Link)>, property: string): Link {
    match Get(props, property)
    case Some(l) => l
    case None => Raw(Null)
  }

  /** the properties after the loop of loadParent over the first |cps| child parents:
      each named property is replaced by a nested wrapper of its current value */
  function Attach(props: seq<(string, Link)>, cps: seq<(string, nat)>, passOn: seq<(string, nat)>,
                  passRecursive: bool): seq<(string, Link)>
    decreases |cps|
  {
    if cps == [] then props
    else
      var before := Attach(props, cps[..|cps| - 1], passOn, passRecursive);
      var (property, parent) := cps[|cps| - 1];
      Put(before, property, Wrapped(parent, passOn, passRecursive, LinkOf(before, property)))
  }

  /** `loadParent($value)`: an entity that has a parent is returned untouched; any other
      gets `parent`, and its child properties are wrapped, passing the child-parent map
      on only when `passRecursive` is set */
  function LoadParent(row: Row, parent: nat, childParents: seq<(string, nat)>, passRecursive: bool): Row {
    if row.parent.Some? then row
    else Row(Some(parent), Attach(row.props, childParents, if passRecursive then childParents else [], passRecursive))
  }

  /** An entity that already has a parent is returned as it is. */
  lemma LoadParentKeeps(row: Row, parent: nat, childParents: seq<(string, nat)>, passRecursive: bool)
    requires row.parent.Some?
    ensures LoadParent(row, parent, childParents, passRecursive) == row
  {
  }

  lemma GetPutLink(a: seq<(string, Link)>, k: string, v: Link, k': string)
    ensures Get(Put(a, k, v), k') == if k' == k then Some(v) else Get(a, k')
  {
    GetPut(a, k, v, k');
  }

  /** Attach replaces exactly the named properties, each by a wrapper of the value it had. */
  lemma {:induction false} AttachGet(props: seq<(string, Link)>, cps: seq<(string, nat)>, passOn: seq<(string, nat)>,
                                     passRecursive: bool, k: string)
    requires UniqueKeys(cps)
    ensures Get(Attach(props, cps, passOn, passRecursive), k)
            == if k in Keys(cps) then Some(Wrapped(Get(cps, k).value, passOn, passRecursive, LinkOf(props, k)))
               else Get(props, k)
    decreases |cps|
  {
    if cps != [] {
      var init := cps[..|cps| - 1];
      var (property, parent) := cps[|cps| - 1];
      assert cps == init + [(property, parent)];
      KeysConcat(init, [(property, parent)]);
      assert Keys(cps) == Keys(init) + [property];
      DistinctPrefix(Keys(cps), |init|);
      assert Keys(init) == Keys(cps)[..|init|];
      assert property !in Keys(init) by {
        assert Keys(cps)[|init|] == property;
      }
      var before := Attach(props, init, passOn, passRecursive);
      AttachGet(props, init, passOn, passRecursive, k);
      AttachGet(props, init, passOn, passRecursive, property);
      GetPutLink(before, property, Wrapped(parent, passOn, passRecursive, LinkOf(before, property)), k);
      GetConcat(init, [(property, parent)], k);
    }
  }

  lemma DistinctPrefix<T>(s: seq<T>, n: nat)
    requires Distinct(s) && n <= |s|
    ensures Distinct(s[..n])
  {
  }

  /** An entity without a parent gets the wrapper's parent, and each child property
      named in the child-parent map becomes a nested wrapper of its former value. */
  lemma LoadParentAttaches(row: Row, parent: nat, childParents: seq<(string, nat)>, passRecursive: bool, k: string)
    requires row.parent.None? && UniqueKeys(childParents)
    ensures LoadParent(row, parent, childParents, passRecursive).parent == Some(parent)
    ensures Get(LoadParent(row, parent, childParents, passRecursive).props, k)
            == if k in Keys(childParents)
               then Some(Wrapped(Get(childParents, k).value, if passRecursive then childParents else [],
                                 passRecursive, LinkOf(row.props, k)))
               else Get(row.props, k)
  {
    AttachGet(row.props, childParents, if passRecursive then childParents else [], passRecursive, k);
  }

  /** A loaded entity has a parent, so loading it again changes nothing. */
  lemma LoadParentIdempotent(row: Row, parent: nat, childParents: seq<(string, nat)>, passRecursive: bool)
    ensures var once := LoadParent(row, parent, childParents, passRecursive);
            LoadParent(once, parent, childParents, passRecursive) == once
  {
  }

  /** the loop of loadParent over the child-parent map */
  method AttachLoop(props: seq<(string, Link)>, cps: seq<(string, nat)>, passOn: seq<(string, nat)>,
                    passRecursive: bool) returns (r: seq<(string, Link)>)
    ensures r == Attach(props, cps, passOn, passRecursive)
  {
    r := props;
    var i := 0;
    while i < |cps|
      invariant 0 <= i <= |cps|
      invariant r == Attach(props, cps[..i], passOn, passRecursive)
    {
      var (property, parent) := cps[i];
      assert cps[..i + 1][..i] == cps[..i];
      r := Put(r, property, Wrapped(parent, passOn, passRecursive, LinkOf(r, property)));
      i := i + 1;
    }
    assert cps[..i] == cps;
  }

  /** the position of key k in the array, when present */
  function IndexOf(a: seq<(Key, Option<Row>)>, k: Key): (r: Option<nat>)
    ensures r.Some? <==> k in Keys(a)
    ensures r.Some? ==> r.value < |a| && a[r.value].0 == k
  {
    if a == [] then None
    else if a[0].0 == k then Some(0)
    else match IndexOf(a[1..], k)
      case None => None
      case Some(i) => Some(i + 1)
  }

  class ArrayWrapper {
    /** the wrapped array; null entries are None */
    var source: seq<(Key, Option<Row>)>
    /** the array's internal cursor, as a position */
    var position: nat
    var parent: nat
    var childParents: seq<(string, nat)>
    var passRecursive: bool

    /** a PHP array repeats no key, and its cursor is at an element or just past the last */
    ghost predicate Sound()
      reads this
    {
      UniqueKeys(source) && UniqueKeys(childParents) && position <= |source|
    }

    constructor (source: seq<(Key, Option<Row>)>, parent: nat, childParents: seq<(string, nat)>, passRecursive: bool)
      requires UniqueKeys(source) && UniqueKeys(childParents)
      ensures Sound()
      ensures this.source == source && this.parent == parent && this.childParents == childParents
      ensures this.passRecursive == passRecursive && position == 0
    {
      this.source := source;
      this.parent := parent;
      this.childParents := childParents;
      this.passRecursive := passRecursive;
      position := 0;
    }

    /** `count()` */
    function Count(): nat
      reads this
    {
      |source|
    }

    /** `offsetExists($offset)`: isset, so a null entry does not exist */
    predicate OffsetExists(offset: Key)
      reads this
    {
      Get(source, offset).Some? && Get(source, offset).value.Some?
    }

    /** `offsetSet($offset, $value)` */
    method OffsetSet(offset: Key, value: Option<Row>)
      requires Sound()
      modifies this
      ensures Sound()
      ensures source == Put(old(source), offset, value)
      ensures position == old(position) && parent == old(parent) && childParents == old(childParents)
      ensures passRecursive == old(passRecursive)
      ensures Get(source, offset) == Some(value)
      ensures forall k :: k != offset ==> Get(source, k) == Get(old(source), k)
      ensures Count() == old(Count()) + if offset in Keys(old(source)) then 0 else 1
      ensures OffsetExists(offset) <==> value.Some?
    {
      PutUnique(source, offset, value);
      PutKeys(source, offset, value);
      forall k ensures Get(Put(source, offset, value), k) == if k == offset then Some(value) else Get(source, k) {
        GetPut(source, offset, value, k);
      }
      source := Put(source, offset, value);
    }

    /** `offsetUnset($offset)`: only that key goes; the cursor stays on its element */
    method OffsetUnset(offset: Key)
      requires Sound()
      modifies this
      ensures Sound()
      ensures source == Remove(old(source), offset)
      ensures parent == old(parent) && childParents == old(childParents) && passRecursive == old(passRecursive)
      ensures !OffsetExists(offset)
      ensures forall k :: k != offset ==> Get(source, k) == Get(old(source), k)
      ensures Count() == old(Count()) - if offset in Keys(old(source)) then 1 else 0
    {
      var at := IndexOf(source, offset);
      RemoveUnique(source, offset);
      RemoveCount(source, offset);
      source := Remove(source, offset);
      if at.Some? && at.value < position {
        position := position - 1;
      }
    }

    /** `offsetGet($offset)`: a missing or null entry has no entity to load: the
        call of hasParent() on null raises PHP's \Error; otherwise the entity is loaded, in place */
    method OffsetGet(offset: Key) returns (r: Result<Row>)
      requires Sound()
      modifies this
      ensures Sound()
      ensures r.Ok? <==> old(OffsetExists(offset))
      ensures r.Err? ==> r.error == NullCall && source == old(source)
      ensures r.Ok? ==> r.value == LoadParent(Get(old(source), offset).value.value, parent, childParents, passRecursive)
                        && source == Put(old(source), offset, Some(r.value))
      ensures position == old(position) && parent == old(parent) && childParents == old(childParents)
      ensures passRecursive == old(passRecursive)
    {
      var entry := Get(source, offset);
      if entry.None? || entry.value.None? {
        return Err(NullCall);
      }
      var row := entry.value.value;
      if row.parent.None? {
        var props := AttachLoop(row.props, childParents, if passRecursive then childParents else [], passRecursive);
        row := Row(Some(parent), props);
      }
      PutUnique(source, offset, Some(row));
      PutKeys(source, offset, Some(row));
      source := Put(source, offset, Some(row));
      return Ok(row);
    }

    /** `key()`: the key under the cursor, or null past the end */
    function Key(): (r: Option<Key>)
      reads this
      requires Sound()
      ensures r.Some? <==> position < |source|
      ensures r.Some? ==> r.value in Keys(source)
    {
      if position < |source| then Some(source[position].0) else None
    }

    /** `valid()`: the cursor is at an element */
    predicate Valid()
      reads this
    {
      position < |source|
    }

    /** `rewind()` */
    method Rewind()
      requires Sound()
      modifies this
      ensures Sound()
      ensures source == old(source) && parent == old(parent) && childParents == old(childParents)
      ensures passRecursive == old(passRecursive)
      ensures Valid() <==> source != []
      ensures source != [] ==> Key() == Some(source[0].0)
    {
      position := 0;
    }

    /** `next()`: past the end the cursor stays there */
    method Next()
      requires Sound()
      modifies this
      ensures Sound()
      ensures source == old(source) && parent == old(parent) && childParents == old(childParents)
      ensures passRecursive == old(passRecursive)
      ensures position == if old(position) < |source| then old(position) + 1 else old(position)
    {
      if position < |source| {
        position := position + 1;
      }
    }

    /** `current()`: the entity under the cursor, loaded in place, or null past the end
        and for a null entry */
    method Current() returns (r: Option<Row>)
      requires Sound()
      modifies this
      ensures Sound()
      ensures position == old(position) && parent == old(parent) && childParents == old(childParents)
      ensures passRecursive == old(passRecursive)
      ensures r.Some? <==> old(Valid()) && old(source[position].1).Some?
      ensures r.Some? ==> r.value == LoadParent(old(source[position].1).value, parent, childParents, passRecursive)
                          && source == old(source)[position := (old(source[position].0), r)]
      ensures r.None? ==> source == old(source)
    {
      if position >= |source| || source[position].1.None? {
        return None;
      }
      var row := source[position].1.value;
      if row.parent.None? {
        var props := AttachLoop(row.props, childParents, if passRecursive then childParents else [], passRecursive);
        row := Row(Some(parent), props);
      }
      var k := source[position].0;
      KeysUpdate(source, position, Some(row));
      source := source[position := (k, Some(row))];
      return Some(row);
    }
  }

  /** Removing a present key shortens the array by one. */
  lemma {:induction false} RemoveCount<V>(a: seq<(Key, V)>, k: Key)
    requires UniqueKeys(a)
    ensures |Remove(a, k)| == |a| - if k in Keys(a) then 1 else 0
  {
    if a != [] {
      assert Keys(a) == [a[0].0] + Keys(a[1..]);
      DistinctTail(Keys(a));
      assert Keys(a[1..]) == Keys(a)[1..];
      RemoveCount(a[1..], k);
      if a[0].0 == k {
        assert k !in Keys(a[1..]) by {
          assert Keys(a)[0] == k;
        }
      }
    }
  }

  lemma DistinctTail<T>(s: seq<T>)
    requires Distinct(s) && s != []
    ensures Distinct(s[1..])
  {
  }

  /** Replacing the value at a position keeps the keys. */
  lemma KeysUpdate<V>(a: seq<(Key, V)>, i: nat, v: V)
    requires i < |a|
    ensures Keys(a[i := (a[i].0, v)]) == Keys(a)
  {
  }
}
