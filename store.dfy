/**
 * The in-memory `products` array and the handlers that change it: create
 * by `push`, replace after `findIndex`, remove by `splice`, look up by
 * `find`. Ids are not guaranteed unique (a body may carry its own id), so
 * every lookup is "the first record with this id".
 */
module Store {
  import opened Wrappers
  import opened Catalog
  import JsArray

  /** The two ways a store operation fails. */
  datatype Failure = BadRequest | NotFound {
    /** The HTTP status the failure is answered with. */
    function Code(): int {
      match this
      case BadRequest => 400
      case NotFound => 404
    }
  }

  datatype Result<T> = Ok(value: T) | Err(failure: Failure)

  /** `findIndex(p => p.id === id)`: the first position holding `id`, or -1. */
  function IndexOf(s: seq<Product>, id: string): (i: int)
    ensures -1 <= i < |s|
    ensures i == -1 <==> forall k :: 0 <= k < |s| ==> s[k].id != id
    ensures 0 <= i ==> s[i].id == id && forall k :: 0 <= k < i ==> s[k].id != id
    decreases |s|
  {
    if s == [] then -1
    else if s[0].id == id then 0
    else
      var j := IndexOf(s[1..], id);
      if j == -1 then -1 else j + 1
  }

  /** `splice(i, 1)` applied to a copy: position `i` removed, the rest shifted down. */
  function RemoveAt(s: seq<Product>, i: nat): (r: seq<Product>)
    requires i < |s|
    ensures |r| == |s| - 1
    ensures forall k :: 0 <= k < i ==> r[k] == s[k]
    ensures forall k :: i <= k < |r| ==> r[k] == s[k + 1]
    ensures multiset(r) + multiset{s[i]} == multiset(s)
  {
    assert s == s[..i] + [s[i]] + s[i + 1..];
    s[..i] + s[i + 1..]
  }

  /** What `splice` leaves behind keeps the relative order of the remaining records. */
  lemma RemoveAtSubseq(s: seq<Product>, i: nat)
    requires i < |s|
    ensures JsArray.Subseq(RemoveAt(s, i), s)
  {
    JsArray.DropOneSubseq(s, i);
  }

  ghost predicate UniqueIds(s: seq<Product>) {
    forall j, k :: 0 <= j < k < |s| ==> s[j].id != s[k].id
  }

  /** With unique ids, a delete leaves no record with that id behind. */
  lemma DeleteRemovesId(s: seq<Product>, id: string)
    requires UniqueIds(s)
    requires IndexOf(s, id) >= 0
    ensures IndexOf(RemoveAt(s, IndexOf(s, id)), id) == -1
  {
    var i := IndexOf(s, id);
    var r := RemoveAt(s, i);
    forall k | 0 <= k < |r|
      ensures r[k].id != id
    {
      if k >= i {
        assert r[k] == s[k + 1];
      }
    }
  }

  /**
   * Without unique ids, deleting the first record with an id uncovers any
   * later one: the id is still found, no later than that record's new place.
   */
  lemma DuplicateSurvivesDelete(s: seq<Product>, id: string, k: int)
    requires 0 <= IndexOf(s, id) < k < |s| && s[k].id == id
    ensures 0 <= IndexOf(RemoveAt(s, IndexOf(s, id)), id) <= k - 1
  {
    assert RemoveAt(s, IndexOf(s, id))[k - 1] == s[k];
  }

  /** Appending a record whose id is new keeps the ids unique, and finds it last. */
  lemma AppendFreshId(s: seq<Product>, p: Product)
    requires forall k :: 0 <= k < |s| ==> s[k].id != p.id
    ensures UniqueIds(s) ==> UniqueIds(s + [p])
    ensures IndexOf(s + [p], p.id) == |s|
  {
    var t := s + [p];
    assert t[|s|] == p;
    assert forall k :: 0 <= k < |s| ==> t[k] == s[k];
    var i := IndexOf(t, p.id);
    assert i != -1;
  }

  /** After a replace that keeps the id, the same position is found again. */
  lemma ReplaceKeepsPosition(s: seq<Product>, id: string, p: Product)
    requires IndexOf(s, id) >= 0 && p.id == id
    ensures IndexOf(s[IndexOf(s, id) := p], id) == IndexOf(s, id)
    ensures UniqueIds(s) ==> UniqueIds(s[IndexOf(s, id) := p])
  {
    var i := IndexOf(s, id);
    var t := s[i := p];
    assert t[i].id == id;
    var j := IndexOf(t, id);
    assert j != -1;
    assert forall k :: 0 <= k < i ==> t[k] == s[k];
  }

  class ProductStore {
    var products: seq<Product>

    /** Every stored record passed validation. */
    ghost predicate Valid()
      reads this
    {
      forall p :: p in products ==> WellFormed(p)
    }

    constructor ()
      ensures Valid() && products == []
    {
      products := [];
    }

    /** `products.findIndex(p => p.id === id)`. */
    method FindIndex(id: string) returns (i: int)
      ensures i == IndexOf(products, id)
    {
      var k := 0;
      while k < |products|
        invariant 0 <= k <= |products|
        invariant forall j :: 0 <= j < k ==> products[j].id != id
      {
        if products[k].id == id {
          return k;
        }
        k := k + 1;
      }
      return -1;
    }

    /** `products.find(p => p.id === id)`: the first record with `id`, if any. */
    method Find(id: string) returns (r: Option<Product>)
      ensures r.None? <==> forall k :: 0 <= k < |products| ==> products[k].id != id
      ensures r.Some? ==> r.value == products[IndexOf(products, id)]
    {
      var i := FindIndex(id);
      if i == -1 {
        r := None;
      } else {
        r := Some(products[i]);
      }
    }

    /** POST: validate, then push `{ id: freshId, ...body }`. */
    method Create(body: Body, freshId: string) returns (r: Result<Product>)
      requires Valid()
      modifies this
      ensures Valid()
      ensures !IsValid(body) ==> r == Err(BadRequest) && products == old(products)
      ensures IsValid(body) ==>
        r == Ok(Stamp(freshId, body)) && products == old(products) + [Stamp(freshId, body)]
    {
      if !IsValid(body) {
        return Err(BadRequest);
      }
      var p := Stamp(freshId, body);
      products := products + [p];
      r := Ok(p);
    }

    /** PUT: validate, then overwrite the first record with `id` by `{ id, ...body }`. */
    method Update(id: string, body: Body) returns (r: Result<Product>)
      requires Valid()
      modifies this
      ensures Valid()
      ensures !IsValid(body) ==> r == Err(BadRequest) && products == old(products)
      ensures IsValid(body) && IndexOf(old(products), id) == -1 ==>
        r == Err(NotFound) && products == old(products)
      ensures IsValid(body) && IndexOf(old(products), id) >= 0 ==>
        r == Ok(Stamp(id, body)) &&
        products == old(products)[IndexOf(old(products), id) := Stamp(id, body)]
    {
      if !IsValid(body) {
        return Err(BadRequest);
      }
      var i := FindIndex(id);
      if i == -1 {
        return Err(NotFound);
      }
      var p := Stamp(id, body);
      products := products[i := p];
      r := Ok(p);
    }

    /** DELETE: remove the first record with `id` by `splice` and return it. */
    method Delete(id: string) returns (r: Result<Product>)
      requires Valid()
      modifies this
      ensures Valid()
      ensures IndexOf(old(products), id) == -1 ==> r == Err(NotFound) && products == old(products)
      ensures IndexOf(old(products), id) >= 0 ==>
        r == Ok(old(products)[IndexOf(old(products), id)]) &&
        products == RemoveAt(old(products), IndexOf(old(products), id))
    {
      var i := FindIndex(id);
      if i == -1 {
        return Err(NotFound);
      }
      var removed := products[i];
      products := RemoveAt(products, i);
      r := Ok(removed);
    }
  }
}
