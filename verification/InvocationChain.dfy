/** Merging the chaincodes and collections found in a proposal response into an invocation chain. */
module InvocationChain {
  import opened Wrappers

  datatype Call = Call(id: string, collections: seq<string>)

  datatype Merge<T> = Merge(result: T, changed: bool)

  // ---------------------------------------------------------------------------------------------
  // What is computed
  // ---------------------------------------------------------------------------------------------

  /** The collections of both calls: those of the first, then the missing ones of the second, each once. */
  function Union(first: seq<string>, second: seq<string>): seq<string>
    decreases |second|
  {
    if second == [] then first
    else Union(if second[0] in first then first else first + [second[0]], second[1..])
  }

  /** The first call of the chain with the given chaincode ID. */
  function Find(chain: seq<Call>, id: string): Option<Call> {
    if chain == [] then None
    else if chain[0].id == id then Some(chain[0])
    else Find(chain[1..], id)
  }

  function MergedCall(chain: seq<Call>, r: Call): Merge<Call> {
    match Find(chain, r.id)
    case None => Merge(r, true)
    case Some(c) =>
      Merge(Call(c.id, Union(c.collections, r.collections)), exists x :: x in r.collections && x !in c.collections)
  }

  function MergedChain(chain: seq<Call>, response: seq<Call>, filter: string -> bool): Merge<seq<Call>> {
    if response == [] then Merge([], false)
    else
      var rest := MergedChain(chain, response[..|response| - 1], filter);
      var r := response[|response| - 1];
      if !filter(r.id) then rest
      else
        var m := MergedCall(chain, r);
        Merge(rest.result + [m.result], rest.changed || m.changed)
  }

  // ---------------------------------------------------------------------------------------------
  // How the source computes it
  // ---------------------------------------------------------------------------------------------

  method GetCall(chain: seq<Call>, id: string) returns (r: Option<Call>)
    ensures r == Find(chain, id)
  {
    for i := 0 to |chain|
      invariant Find(chain, id) == Find(chain[i..], id)
    {
      assert chain[i..][1..] == chain[i + 1..];
      if chain[i].id == id {
        return Some(chain[i]);
      }
    }
    return None;
  }

  method MergeCollections(c1: Call, c2: Call) returns (c: Call, merged: bool)
    ensures c == Call(c1.id, Union(c1.collections, c2.collections))
    ensures merged <==> exists x :: x in c2.collections && x !in c1.collections
  {
    var collections := c1.collections;
    merged := false;
    for i := 0 to |c2.collections|
      invariant Union(collections, c2.collections[i..]) == Union(c1.collections, c2.collections)
      invariant forall x :: x in collections <==> x in c1.collections || x in c2.collections[..i]
      invariant merged <==> exists x :: x in c2.collections[..i] && x !in c1.collections
    {
      var x := c2.collections[i];
      assert c2.collections[i..][1..] == c2.collections[i + 1..];
      assert c2.collections[..i + 1] == c2.collections[..i] + [x];
      if x !in collections {
        collections := collections + [x];
        assert x in c2.collections[..i + 1] && x !in c1.collections;
        merged := true;
      }
    }
    assert c2.collections[..|c2.collections|] == c2.collections;
    c := Call(c1.id, collections);
  }

  method MergeCall(chain: seq<Call>, r: Call) returns (m: Merge<Call>)
    ensures m == MergedCall(chain, r)
  {
    var found := GetCall(chain, r.id);
    if found.Some? {
      var c, merged := MergeCollections(found.value, r);
      return Merge(c, merged);
    }
    return Merge(r, true);
  }

  method MergeInvocationChains(chain: seq<Call>, response: seq<Call>, filter: string -> bool)
    returns (m: Merge<seq<Call>>)
    ensures m == MergedChain(chain, response, filter)
  {
    var merged: seq<Call>, changed := [], false;
    for i := 0 to |response|
      invariant Merge(merged, changed) == MergedChain(chain, response[..i], filter)
    {
      assert response[..i + 1][..i] == response[..i];
      if !filter(response[i].id) {
        continue;
      }
      var c := MergeCall(chain, response[i]);
      if c.changed {
        changed := true;
      }
      merged := merged + [c.result];
    }
    assert response[..|response|] == response;
    m := Merge(merged, changed);
  }

  // ---------------------------------------------------------------------------------------------
  // What merging promises
  // ---------------------------------------------------------------------------------------------

  /** A union extends the first list and adds exactly what was missing. */
  lemma {:induction false} UnionExtends(first: seq<string>, second: seq<string>)
    ensures first <= Union(first, second)
    ensures forall x :: x in Union(first, second) <==> x in first || x in second
    decreases |second|
  {
    if second != [] {
      UnionExtends(if second[0] in first then first else first + [second[0]], second[1..]);
      assert second == [second[0]] + second[1..];
    }
  }

  lemma {:induction false} UnionIdle(first: seq<string>, second: seq<string>)
    requires forall x | x in second :: x in first
    ensures Union(first, second) == first
    decreases |second|
  {
    if second != [] {
      assert second[0] in second;
      UnionIdle(first, second[1..]);
    }
  }

  /** A response call that the filter lets through and that the chain does not cover. */
  predicate Uncovered(chain: seq<Call>, r: Call, filter: string -> bool) {
    && filter(r.id)
    && (Find(chain, r.id).None? || exists x :: x in r.collections && x !in Find(chain, r.id).value.collections)
  }

  /** A change is reported exactly when some response call is not covered by the original chain. */
  lemma {:induction false} ChangedIffUncovered(chain: seq<Call>, response: seq<Call>, filter: string -> bool)
    ensures MergedChain(chain, response, filter).changed
        <==> exists i :: 0 <= i < |response| && Uncovered(chain, response[i], filter)
    decreases |response|
  {
    if response != [] {
      var init, r := response[..|response| - 1], response[|response| - 1];
      ChangedIffUncovered(chain, init, filter);
      if i :| 0 <= i < |init| && Uncovered(chain, init[i], filter) {
        assert response[i] == init[i];
      }
      assert Uncovered(chain, r, filter) <==> filter(r.id) && MergedCall(chain, r).changed;
    }
  }

  /** Every call found in the merged chain is the merge of the response call with that ID. */
  lemma {:induction false} FindMerged(chain: seq<Call>, response: seq<Call>, filter: string -> bool, k: nat)
    requires k < |response| && filter(response[k].id)
    requires forall i, j | 0 <= i < j < |response| :: response[i].id != response[j].id
    ensures Find(MergedChain(chain, response, filter).result, response[k].id)
      == Some(MergedCall(chain, response[k]).result)
    decreases |response|
  {
    var init, r := response[..|response| - 1], response[|response| - 1];
    var before := MergedChain(chain, init, filter).result;
    MergedId(chain, r);
    if k < |init| {
      assert init[k] == response[k];
      FindMerged(chain, init, filter, k);
      FindAppend(before, MergedCall(chain, r).result, response[k].id);
    } else {
      NotMerged(chain, init, filter, r.id);
      FindAppend(before, MergedCall(chain, r).result, r.id);
    }
  }

  lemma MergedId(chain: seq<Call>, r: Call)
    ensures MergedCall(chain, r).result.id == r.id
  {
    FindHasId(chain, r.id);
  }

  lemma {:induction false} FindHasId(chain: seq<Call>, id: string)
    ensures Find(chain, id).Some? ==> Find(chain, id).value.id == id
  {
    if chain != [] {
      FindHasId(chain[1..], id);
    }
  }

  lemma {:induction false} FindAppend(chain: seq<Call>, c: Call, id: string)
    ensures Find(chain + [c], id)
         == if Find(chain, id).Some? then Find(chain, id) else if c.id == id then Some(c) else None
  {
    if chain != [] {
      assert (chain + [c])[1..] == chain[1..] + [c];
      FindAppend(chain[1..], c, id);
    }
  }

  lemma {:induction false} NotMerged(chain: seq<Call>, response: seq<Call>, filter: string -> bool, id: string)
    requires forall i | 0 <= i < |response| :: response[i].id != id
    ensures Find(MergedChain(chain, response, filter).result, id).None?
    decreases |response|
  {
    if response != [] {
      var init, r := response[..|response| - 1], response[|response| - 1];
      NotMerged(chain, init, filter, id);
      MergedId(chain, r);
      FindAppend(MergedChain(chain, init, filter).result, MergedCall(chain, r).result, id);
    }
  }

  /** A call of the chain that is merged keeps its collections as a prefix and covers the response. */
  lemma MergedCallCovers(chain: seq<Call>, r: Call)
    ensures var m := MergedCall(chain, r).result;
      && m.id == r.id
      && (forall x | x in r.collections :: x in m.collections)
      && (Find(chain, r.id).Some? ==> Find(chain, r.id).value.collections <= m.collections)
  {
    MergedId(chain, r);
    if Find(chain, r.id).Some? {
      UnionExtends(Find(chain, r.id).value.collections, r.collections);
    }
  }

  /** Merging the same response into a chain that covers it returns the calls of the chain, unchanged. */
  lemma {:induction false} MergeAgain(chain: seq<Call>, again: seq<Call>, response: seq<Call>, filter: string -> bool)
    requires forall k | 0 <= k < |response| && filter(response[k].id) ::
      Find(again, response[k].id) == Some(MergedCall(chain, response[k]).result)
    ensures MergedChain(again, response, filter) == Merge(MergedChain(chain, response, filter).result, false)
    decreases |response|
  {
    if response != [] {
      var init, r := response[..|response| - 1], response[|response| - 1];
      assert forall k | 0 <= k < |init| :: init[k] == response[k];
      MergeAgain(chain, again, init, filter);
      if filter(r.id) {
        MergedCallCovers(chain, r);
        UnionIdle(MergedCall(chain, r).result.collections, r.collections);
      }
    }
  }

  /** Merging is a fixpoint: with distinct response IDs a second merge reports no change and returns the same calls. */
  lemma MergeIsFixpoint(chain: seq<Call>, response: seq<Call>, filter: string -> bool)
    requires forall i, j | 0 <= i < j < |response| :: response[i].id != response[j].id
    ensures var once := MergedChain(chain, response, filter).result;
      MergedChain(once, response, filter) == Merge(once, false)
  {
    var once := MergedChain(chain, response, filter).result;
    forall k | 0 <= k < |response| && filter(response[k].id)
      ensures Find(once, response[k].id) == Some(MergedCall(chain, response[k]).result)
    {
      FindMerged(chain, response, filter, k);
    }
    MergeAgain(chain, once, response, filter);
  }

  // ---------------------------------------------------------------------------------------------
  // Which calls the merged chain consists of
  // ---------------------------------------------------------------------------------------------

  function Ids(calls: seq<Call>): seq<string> {
    seq(|calls|, i requires 0 <= i < |calls| => calls[i].id)
  }

  /** The IDs that a filter lets through, in order and as often as they occur. */
  function Passing(ids: seq<string>, filter: string -> bool): seq<string> {
    if ids == [] then []
    else (if filter(ids[0]) then [ids[0]] else []) + Passing(ids[1..], filter)
  }

  lemma {:induction false} PassingAppend(ids: seq<string>, id: string, filter: string -> bool)
    ensures Passing(ids + [id], filter) == Passing(ids, filter) + if filter(id) then [id] else []
  {
    if ids == [] {
      assert ids + [id] == [id];
    } else {
      assert (ids + [id])[1..] == ids[1..] + [id];
      PassingAppend(ids[1..], id, filter);
    }
  }

  /** The merged chain has one call for every response call that the filter lets through, in order, and no other. */
  lemma {:induction false} MergedIds(chain: seq<Call>, response: seq<Call>, filter: string -> bool)
    ensures Ids(MergedChain(chain, response, filter).result) == Passing(Ids(response), filter)
    decreases |response|
  {
    if response != [] {
      var init, r := response[..|response| - 1], response[|response| - 1];
      MergedIds(chain, init, filter);
      assert Ids(response) == Ids(init) + [r.id];
      PassingAppend(Ids(init), r.id, filter);
      MergedId(chain, r);
      var rest, m := MergedChain(chain, init, filter).result, MergedCall(chain, r).result;
      assert Ids(rest + [m]) == Ids(rest) + [m.id];
    } else {
      assert Ids([]) == [];
    }
  }

  predicate IsMergeOf(chain: seq<Call>, response: seq<Call>, k: int, c: Call) {
    0 <= k < |response| && c == MergedCall(chain, response[k]).result
  }

  /** Every call of the merged chain passes the filter and is the merge of a response call. */
  lemma {:induction false} MergedCallsAreMerges(chain: seq<Call>, response: seq<Call>, filter: string -> bool, i: nat)
    requires i < |MergedChain(chain, response, filter).result|
    ensures filter(MergedChain(chain, response, filter).result[i].id)
    ensures exists k :: IsMergeOf(chain, response, k, MergedChain(chain, response, filter).result[i])
    decreases |response|
  {
    var n := |response| - 1;
    var rest := MergedChain(chain, response[..n], filter).result;
    if i < |rest| {
      MergedCallsAreMerges(chain, response[..n], filter, i);
      var k :| IsMergeOf(chain, response[..n], k, rest[i]);
      assert IsMergeOf(chain, response, k, rest[i]);
    } else {
      MergedId(chain, response[n]);
      assert IsMergeOf(chain, response, n, MergedCall(chain, response[n]).result);
    }
  }

  /** A call whose ID the chain lacks comes back as it is. */
  lemma NewCallComesBack(chain: seq<Call>, r: Call)
    requires forall i | 0 <= i < |chain| :: chain[i].id != r.id
    ensures MergedCall(chain, r) == Merge(r, true)
  {
    FindExactly(chain, r.id);
  }

  /** The call that is found is the first with its ID. */
  lemma {:induction false} FindExactly(chain: seq<Call>, id: string)
    ensures Find(chain, id).None? <==> forall i | 0 <= i < |chain| :: chain[i].id != id
    ensures Find(chain, id).Some? ==>
      exists i :: 0 <= i < |chain| && chain[i] == Find(chain, id).value && chain[i].id == id
                  && forall j | 0 <= j < i :: chain[j].id != id
  {
    if chain != [] && chain[0].id != id {
      FindExactly(chain[1..], id);
      assert forall i | 1 <= i < |chain| :: chain[i] == chain[1..][i - 1];
      if Find(chain, id).Some? {
        var i :| 0 <= i < |chain[1..]| && chain[1..][i] == Find(chain, id).value && chain[1..][i].id == id
                 && forall j | 0 <= j < i :: chain[1..][j].id != id;
        assert chain[i + 1] == chain[1..][i];
        assert forall j | 1 <= j < i + 1 :: chain[j] == chain[1..][j - 1];
      }
    }
  }

  /** A merged call adds nothing twice, and only what the response call holds. */
  lemma {:induction false} UnionAddsOnce(first: seq<string>, second: seq<string>)
    ensures forall i, j | 0 <= i < j < |Union(first, second)| && |first| <= j ::
      Union(first, second)[i] != Union(first, second)[j]
    decreases |second|
  {
    if second != [] {
      var next := if second[0] in first then first else first + [second[0]];
      UnionAddsOnce(next, second[1..]);
      UnionExtends(next, second[1..]);
      var r := Union(next, second[1..]);
      forall i, j | 0 <= i < j < |r| && |first| <= j ensures r[i] != r[j] {
        if |next| > j {
          assert j == |first| && r[i] == next[i] == first[i] && r[j] == next[j] == second[0];
        }
      }
    }
  }
}
