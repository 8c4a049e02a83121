/** The mutation (language) settings of StORM\DIConnection: the available mutations,
    code => column suffix, and the active one. */
module DIConnections {
  import opened Php
  import opened Errors
  import opened Helpers

  /** `$availableMutations[$this->mutation] ?? ''`: the index is read before `??` applies,
      so an uninitialised mutation raises \Error */
  function SuffixOf(available: seq<(string, string)>, mutation: Option<string>): (r: Result<string>)
    ensures r.Err? <==> mutation.None?
    ensures r.Err? ==> r.error == Uninitialized
    ensures mutation.Some? && mutation.value !in Keys(available) ==> r == Ok("")
  {
    if mutation.None? then Err(Uninitialized)
    else match Get(available, mutation.value)
      case Some(suffix) => Ok(suffix)
      case None => Ok("")
  }

  /** The suffix of an available mutation is the one listed first under its code. */
  lemma SuffixOfAvailable(available: seq<(string, string)>, code: string)
    requires code in Keys(available)
    ensures SuffixOf(available, Some(code)).Ok?
    ensures exists i :: 0 <= i < |available| && available[i] == (code, SuffixOf(available, Some(code)).value)
                        && forall j :: 0 <= j < i ==> available[j].0 != code
  {
    GetFirst(available, code);
  }

  lemma {:induction false} GetFirst(available: seq<(string, string)>, code: string)
    requires code in Keys(available)
    ensures Get(available, code).Some?
    ensures exists i :: 0 <= i < |available| && available[i] == (code, Get(available, code).value)
                        && forall j :: 0 <= j < i ==> available[j].0 != code
  {
    assert Keys(available) == [available[0].0] + Keys(available[1..]);
    if available[0].0 != code {
      GetFirst(available[1..], code);
      var i :| 0 <= i < |available[1..]| && available[1..][i] == (code, Get(available[1..], code).value)
               && forall j :: 0 <= j < i ==> available[1..][j].0 != code;
      assert available[i + 1] == available[1..][i];
      forall j | 0 <= j < i + 1 ensures available[j].0 != code {
        if j > 0 { assert available[j] == available[1..][j - 1]; }
      }
    }
  }

  class DIConnection {
    /** the active mutation code; None while the typed property is uninitialised */
    var mutation: Option<string>
    var availableMutations: seq<(string, string)>
    var fallbackMutations: seq<(string, string)>

    constructor ()
      ensures mutation == None && availableMutations == [] && fallbackMutations == []
    {
      mutation, availableMutations, fallbackMutations := None, [], [];
    }

    /** `getMutation()`: the active code; reading it before any is set raises \Error */
    function Mutation(): (r: Result<string>)
      reads this
      ensures r.Ok? <==> mutation.Some?
      ensures r.Ok? ==> r.value == mutation.value
    {
      if mutation.None? then Err(Uninitialized) else Ok(mutation.value)
    }

    /** `getMutationSuffix()` */
    function MutationSuffix(): Result<string>
      reads this
    {
      SuffixOf(availableMutations, mutation)
    }

    /** `setFallbackMutations($fallbackMutations)` */
    method SetFallbackMutations(fallback: seq<(string, string)>)
      modifies this
      ensures fallbackMutations == fallback
      ensures mutation == old(mutation) && availableMutations == old(availableMutations)
    {
      fallbackMutations := fallback;
    }

    /** `setMutation($mutation)`: only an available code can become active */
    method SetMutation(code: string) returns (err: Option<Error>)
      modifies this
      ensures err.Some? <==> code !in Keys(availableMutations)
      ensures err.Some? ==> err == Some(InvalidArgument(UnknownMutation(code))) && mutation == old(mutation)
      ensures err.None? ==> mutation == Some(code)
                            && exists i :: 0 <= i < |availableMutations| && MutationSuffix().Ok? && availableMutations[i] == (code, MutationSuffix().value)
      ensures availableMutations == old(availableMutations) && fallbackMutations == old(fallbackMutations)
    {
      if Get(availableMutations, code).None? {
        return Some(InvalidArgument(UnknownMutation(code)));
      }
      mutation := Some(code);
      SuffixOfAvailable(availableMutations, code);
      return None;
    }

    /** `setAvailableMutations($mutations)`: the first code becomes active (`(string) key([])`
        is the empty string) */
    method SetAvailableMutations(ms: seq<(string, string)>)
      modifies this
      ensures availableMutations == ms && fallbackMutations == old(fallbackMutations)
      ensures mutation == Some(if ms == [] then "" else ms[0].0)
      ensures MutationSuffix() == Ok(if ms == [] then "" else ms[0].1)
    {
      availableMutations := ms;
      mutation := Some(if ms == [] then "" else ms[0].0);
    }

    /** `bindVariables(...)`: Helpers::bindVariables with the available mutations, so an
        array value fails exactly when one of its keys is not an available code */
    method BindVariables(property: string, raw: Value, b: Bound, varPrefix: string, varPostfix: string,
                         prefix: string) returns (r: Result<Bound>)
      ensures r == Helpers.BindVariables(property, raw, b, varPrefix, varPostfix, availableMutations, prefix)
      ensures raw.Arr? ==> (r.Err? <==> exists i :: 0 <= i < |raw.entries|
                                                   && KeyString(raw.entries[i].0) !in Keys(availableMutations))
    {
      r := Helpers.BindVariables(property, raw, b, varPrefix, varPostfix, availableMutations, prefix);
      if raw.Arr? {
        BindMutationsFails(raw.entries, BinderColumn(property), b, varPrefix, varPostfix, availableMutations, prefix);
      }
    }
  }
}
