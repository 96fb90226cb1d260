/**
 * The record kept in the remote `artworks` collection, as the pages read it
 * after spreading `{ id: doc.id, ...doc.data() }`.
 *
 * Text fields that a record may lack (`description`, `dimensions`) are the empty
 * string when missing: both are falsy in JavaScript and every page treats them alike.
 * The price is the number stored by the admin page and the date is the stored
 * ISO timestamp read as milliseconds since the epoch.
 */
module Catalog {

  datatype Artwork = Artwork(
    id: string,
    title: string,
    description: string,
    dimensions: string,
    price: real,
    category: string,
    status: string,
    image: string,
    date: int)

  /** The three status values the admin page writes. */
  const Available: string := "disponivel"
  const OnOrder: string := "encomenda"
  const Sold: string := "vendido"

  predicate NoDup<T(==)>(s: seq<T>) {
    forall i, j :: 0 <= i < j < |s| ==> s[i] != s[j]
  }
}
