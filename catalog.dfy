/**
 * Products, request bodies and the `validateProduct` middleware.
 *
 * A request body is the parsed JSON object of a POST or PUT request; each
 * field is optional, an absent key and a `null` value both being `None`.
 * A stored product is the object `{ id, ...body }` built from a body that
 * passed validation.
 */
module Catalog {
  import opened Wrappers
  import JsString

  /** A price is only ever tested for presence, never computed with. */
  type Price = real

  datatype Product = Product(
    id: string,
    name: string,
    description: string,
    price: Price,
    category: string,
    inStock: bool)

  datatype Body = Body(
    id: Option<string>,
    name: Option<string>,
    description: Option<string>,
    price: Option<Price>,
    category: Option<string>,
    inStock: Option<bool>)

  /**
   * `validateProduct`: `name`, `description` and `category` must be truthy;
   * `price` and `inStock` need only be present (`0` and `false` pass).
   */
  predicate IsValid(b: Body) {
    !(!JsString.Truthy(b.name) || !JsString.Truthy(b.description) || b.price.None?
      || !JsString.Truthy(b.category) || b.inStock.None?)
  }

  /** The shape every stored record has, since only validated bodies are stored. */
  ghost predicate WellFormed(p: Product) {
    p.name != "" && p.description != "" && p.category != ""
  }

  /** A product's fields as a request body, its id included. */
  function AsBody(p: Product): (b: Body)
    ensures b.id == Some(p.id)
  {
    Body(Some(p.id), Some(p.name), Some(p.description), Some(p.price), Some(p.category), Some(p.inStock))
  }

  /**
   * The record `{ id: id, ...b }`. Because the spread comes second, an `id`
   * inside the body overrides the one supplied by the server.
   */
  function Stamp(id: string, b: Body): (p: Product)
    requires IsValid(b)
    ensures WellFormed(p)
    ensures p.id == if b.id.Some? then b.id.value else id
    ensures AsBody(p) == b.(id := Some(p.id))
  {
    Product(
      if b.id.Some? then b.id.value else id,
      b.name.value, b.description.value, b.price.value, b.category.value, b.inStock.value)
  }

  /**
   * A body is accepted exactly when the three text fields are non-empty
   * strings and the price and stock flag are present.
   */
  lemma ValidIff(b: Body)
    ensures IsValid(b) <==>
      b.name.Some? && |b.name.value| > 0 &&
      b.description.Some? && |b.description.value| > 0 &&
      b.category.Some? && |b.category.value| > 0 &&
      b.price.Some? && b.inStock.Some?
  {
  }

  /** A zero price and a `false` stock flag are present values and pass. */
  lemma FalsyPresentValuesAccepted(b: Body)
    requires JsString.Truthy(b.name) && JsString.Truthy(b.description) && JsString.Truthy(b.category)
    requires b.price == Some(0.0) && b.inStock == Some(false)
    ensures IsValid(b)
  {
  }

  /** An empty name, description or category is rejected like an absent one. */
  lemma EmptyTextRejected(b: Body)
    requires b.name == Some("") || b.description == Some("") || b.category == Some("")
    ensures !IsValid(b)
  {
  }

  /**
   * Re-submitting a stored record as a body reproduces it exactly,
   * whatever id the server supplies, since the body's id wins.
   */
  lemma StampAsBody(p: Product, id: string)
    ensures IsValid(AsBody(p)) <==> WellFormed(p)
    ensures WellFormed(p) ==> Stamp(id, AsBody(p)) == p
  {
  }

  /** The server's id survives exactly when the body carries no other id. */
  lemma StampKeepsServerId(id: string, b: Body)
    requires IsValid(b)
    ensures Stamp(id, b).id == id <==> b.id.None? || b.id == Some(id)
  {
  }
}
