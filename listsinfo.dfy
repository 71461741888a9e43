/**
  The list id and list name dictionaries, built from a lists response that
  each manager fetches from the service at most once, and the stand-alone
  helper that asks the service for the list names.
*/
module ListsInfo {
  import opened Wrappers
  import opened Responses

  // ---------------------------------------------------------------------------
  // Dictionary updates (src/ListsInfoManager.py:69-71)
  // ---------------------------------------------------------------------------

  /** `m` after `m[k] = v` for each pair in order. */
  function Put(m: map<string, string>, ps: seq<(string, string)>): map<string, string>
  {
    if |ps| == 0 then m else Put(m, ps[..|ps| - 1])[ps[|ps| - 1].0 := ps[|ps| - 1].1]
  }

  /** The index of the last pair whose key is `k`. */
  function LastFor(ps: seq<(string, string)>, k: string): (r: Option<nat>)
    ensures r.Some? ==> r.value < |ps| && ps[r.value].0 == k
    ensures r.Some? ==> forall i :: r.value < i < |ps| ==> ps[i].0 != k
    ensures r.None? <==> forall i :: 0 <= i < |ps| ==> ps[i].0 != k
  {
    if |ps| == 0 then None
    else if ps[|ps| - 1].0 == k then Some(|ps| - 1)
    else LastFor(ps[..|ps| - 1], k)
  }

  /**
    After the updates a key is present iff it was already or some pair had it;
    its value is that of the last pair with that key, or else the old value.
  */
  lemma {:induction false} PutLookup(m: map<string, string>, ps: seq<(string, string)>, k: string)
    ensures k in Put(m, ps) <==> k in m || LastFor(ps, k).Some?
    ensures LastFor(ps, k).Some? ==> Put(m, ps)[k] == ps[LastFor(ps, k).value].1
    ensures LastFor(ps, k).None? && k in m ==> Put(m, ps)[k] == m[k]
  {
    if |ps| > 0 {
      PutLookup(m, ps[..|ps| - 1], k);
    }
  }

  /** Each pair that no later pair overrides is in the result: the later element wins. */
  lemma LaterWins(m: map<string, string>, ps: seq<(string, string)>, i: nat)
    requires i < |ps|
    requires forall k :: i < k < |ps| ==> ps[k].0 != ps[i].0
    ensures ps[i].0 in Put(m, ps) && Put(m, ps)[ps[i].0] == ps[i].1
  {
    PutLookup(m, ps, ps[i].0);
    var last := LastFor(ps, ps[i].0).value;
    assert last == i;
  }

  /** Updates only add or overwrite entries: no key is ever removed. */
  lemma PutKeepsKeys(m: map<string, string>, ps: seq<(string, string)>)
    ensures m.Keys <= Put(m, ps).Keys
  {
    forall k | k in m
      ensures k in Put(m, ps)
    {
      PutLookup(m, ps, k);
    }
  }

  /** One more pair is one more update. */
  lemma PutStep(m: map<string, string>, ps: seq<(string, string)>, i: nat)
    requires i < |ps|
    ensures Put(m, ps[..i + 1]) == Put(m, ps[..i])[ps[i].0 := ps[i].1]
  {
    assert ps[..i + 1][..i] == ps[..i];
  }

  /** (id, name) of each entry. */
  function IdNamePairs(es: seq<ListEntry>): (r: seq<(string, string)>)
    ensures |r| == |es| && forall i :: 0 <= i < |es| ==> r[i] == (es[i].id, es[i].name)
  {
    if |es| == 0 then [] else [(es[0].id, es[0].name)] + IdNamePairs(es[1..])
  }

  /** (name, id) of each entry. */
  function NameIdPairs(es: seq<ListEntry>): (r: seq<(string, string)>)
    ensures |r| == |es| && forall i :: 0 <= i < |es| ==> r[i] == (es[i].name, es[i].id)
  {
    if |es| == 0 then [] else [(es[0].name, es[0].id)] + NameIdPairs(es[1..])
  }

  /** The names of the entries, in response order. */
  function Names(es: seq<ListEntry>): (r: seq<string>)
    ensures |r| == |es| && forall i :: 0 <= i < |es| ==> r[i] == es[i].name
  {
    if |es| == 0 then [] else [es[0].name] + Names(es[1..])
  }

  /** `ListsInfoManager`. */
  class ListsInfoManager {
    /** list id to list name */
    var forward: map<string, string>
    /** list name to list id */
    var reverse: map<string, string>
    /** the lists response, once fetched */
    var cached: Option<seq<ListEntry>>

    constructor ()
      ensures forward == map[] && reverse == map[] && cached == None
    {
      forward := map[];
      reverse := map[];
      cached := None;
    }

    /**
      `_getTheRtmListsRepresentation`: queries the service only when nothing is
      cached; `listsResponse` is what `rtm.lists.getList` would answer now.
    */
    method GetTheRtmListsRepresentation(listsResponse: Result<seq<ListEntry>, Error>) returns (r: Result<(), Error>)
      modifies this`cached
      ensures old(cached).Some? ==> cached == old(cached) && r.Success?
      ensures old(cached).None? && listsResponse.Success? ==> cached == Some(listsResponse.value) && r.Success?
      ensures old(cached).None? && listsResponse.Failure? ==> cached == None && r == Failure(listsResponse.error)
    {
      if cached.Some? {
        return Success(());
      }
      match listsResponse
      case Failure(e) => r := Failure(e);
      case Success(es) =>
        cached := Some(es);
        r := Success(());
    }

    /**
      `buildTheListsDictionary`: records every entry of the (possibly earlier)
      lists response in both dictionaries, later entries winning.
    */
    method BuildTheListsDictionary(listsResponse: Result<seq<ListEntry>, Error>) returns (r: Result<(), Error>)
      modifies this
      ensures BuiltFrom(old(forward), old(reverse), old(cached), listsResponse, r)
    {
      r := GetTheRtmListsRepresentation(listsResponse);
      if r.Failure? {
        assert forward == old(forward) && reverse == old(reverse);
        return;
      }
      RecordEntries(cached.value);
    }

    /** The loop of `buildTheListsDictionary`: each entry into both dictionaries, in order. */
    method RecordEntries(es: seq<ListEntry>)
      modifies this`forward, this`reverse
      ensures forward == Put(old(forward), IdNamePairs(es))
      ensures reverse == Put(old(reverse), NameIdPairs(es))
    {
      ghost var ids, names := IdNamePairs(es), NameIdPairs(es);
      ghost var forward0, reverse0 := forward, reverse;
      var byId, byName := forward, reverse;
      var i := 0;
      while i < |es|
        invariant 0 <= i <= |es|
        invariant byId == Put(forward0, ids[..i])
        invariant byName == Put(reverse0, names[..i])
      {
        PutStep(forward0, ids, i);
        PutStep(reverse0, names, i);
        assert ids[i] == (es[i].id, es[i].name) && names[i] == (es[i].name, es[i].id);
        byId := byId[es[i].id := es[i].name];
        byName := byName[es[i].name := es[i].id];
        i := i + 1;
      }
      assert ids[..i] == ids;
      assert names[..i] == names;
      forward, reverse := byId, byName;
    }

    /**
      The state a build leaves, from the dictionaries and cache it started with:
      the cache is fetched only when empty; on failure the dictionaries are as
      they were; on success each entry of the cached response is recorded.
    */
    ghost predicate BuiltFrom(forward0: map<string, string>, reverse0: map<string, string>,
                              cached0: Option<seq<ListEntry>>, listsResponse: Result<seq<ListEntry>, Error>,
                              r: Result<(), Error>)
      reads this
    {
      && (cached0.Some? ==> cached == cached0)
      && (cached0.None? ==> cached == if listsResponse.Success? then Some(listsResponse.value) else None)
      && (r.Failure? <==> cached0.None? && listsResponse.Failure?)
      && (r.Failure? ==> r.error == listsResponse.error && forward == forward0 && reverse == reverse0)
      && (r.Success? ==>
            && cached.Some?
            && forward == Put(forward0, IdNamePairs(cached.value))
            && reverse == Put(reverse0, NameIdPairs(cached.value)))
    }

    /** `getListName`: the name of a known id; an unknown id leaves `name` unbound. */
    function GetListName(listId: string): (r: Result<string, Error>)
      reads this
      ensures r.Success? <==> listId in forward
      ensures r.Success? ==> r.value == forward[listId]
      ensures r.Failure? ==> r.error == UnboundLocalError
    {
      if listId in forward then Success(forward[listId]) else Failure(UnboundLocalError)
    }

    /** `getListId`: the id of a known name; KeyError for an unknown one. */
    function GetListId(listName: string): (r: Result<string, Error>)
      reads this
      ensures r.Success? <==> listName in reverse
      ensures r.Success? ==> r.value == reverse[listName]
      ensures r.Failure? ==> r.error == KeyError
    {
      if listName in reverse then Success(reverse[listName]) else Failure(KeyError)
    }
  }

  /**
    After a build from a fresh dictionary, the id of every list of the response
    maps to its name, unless a later list has the same id.
  */
  lemma BuiltForwardLookup(es: seq<ListEntry>, i: nat)
    requires i < |es| && forall k :: i < k < |es| ==> es[k].id != es[i].id
    ensures es[i].id in Put(map[], IdNamePairs(es)) && Put(map[], IdNamePairs(es))[es[i].id] == es[i].name
  {
    var ps := IdNamePairs(es);
    assert forall k :: i < k < |ps| ==> ps[k].0 != ps[i].0;
    LaterWins(map[], ps, i);
  }

  /**
    After a build from a fresh dictionary, the name of every list of the
    response maps to its id, unless a later list has the same name.
  */
  lemma BuiltReverseLookup(es: seq<ListEntry>, i: nat)
    requires i < |es| && forall k :: i < k < |es| ==> es[k].name != es[i].name
    ensures es[i].name in Put(map[], NameIdPairs(es)) && Put(map[], NameIdPairs(es))[es[i].name] == es[i].id
  {
    var ps := NameIdPairs(es);
    assert forall k :: i < k < |ps| ==> ps[k].0 != ps[i].0;
    LaterWins(map[], ps, i);
  }

  /**
    `getTheCategoriesListStatically`: no stored token, or a token the service
    rejects, gives no names; otherwise the names of the lists in response order.
    `storedToken` is what the token file holds, `tokenValid` the answer of
    `token_valid` for a client holding it, `listsResponse` the answer of
    `rtm.lists.getList`.
  */
  method GetTheCategoriesListStatically(storedToken: Option<string>, tokenValid: Result<bool, Error>,
                                        listsResponse: Result<seq<ListEntry>, Error>)
    returns (r: Result<seq<string>, Error>)
    ensures storedToken.None? ==> r == Success([])
    ensures storedToken.Some? && tokenValid.Failure? ==> r == Failure(tokenValid.error)
    ensures storedToken.Some? && tokenValid == Success(false) ==> r == Success([])
    ensures storedToken.Some? && tokenValid == Success(true) ==>
              r == if listsResponse.Success? then Success(Names(listsResponse.value)) else Failure(listsResponse.error)
  {
    var listsNames: seq<string> := [];
    if storedToken.None? {
      return Success(listsNames);
    }
    match tokenValid
    case Failure(e) => return Failure(e);
    case Success(valid) =>
      if !valid {
        return Success(listsNames);
      }
    match listsResponse
    case Failure(e) => return Failure(e);
    case Success(es) =>
      var i := 0;
      while i < |es|
        invariant 0 <= i <= |es|
        invariant listsNames == Names(es[..i])
      {
        listsNames := listsNames + [es[i].name];
        assert Names(es[..i + 1]) == Names(es[..i]) + [es[i].name];
        i := i + 1;
      }
      assert es[..i] == es;
      r := Success(listsNames);
  }
}
