/** The records the marketplace pages receive from the API, reduced to the
    fields some decision of theirs reads. A field the pages reach through
    optional chaining (`seller?.name`) or test for truthiness is an `Option`;
    a reference the server may leave unpopulated (a deleted user or listing)
    is an `Option` too. */
module Records {
  import opened Js

  datatype Person = Person(id: string, name: Option<string>, year: Option<string>, upiId: Option<string>)

  datatype Listing = Listing(
    id: string,
    title: string,
    price: int,
    description: string,
    status: string,
    seller: Option<Person>)

  /** The listing an order points at, populated with what the order pages show. */
  datatype ListingRef = ListingRef(id: string, title: Option<string>, price: Option<int>)

  datatype Order = Order(
    id: string,
    listing: Option<ListingRef>,
    buyer: Option<Person>,
    seller: Option<Person>,
    status: string,
    paymentStatus: string)

  /** `order.listing?.title`. */
  function OrderTitle(o: Order): Option<string> {
    if o.listing.Some? then o.listing.value.title else None
  }

  /** `order.listing?.price || 0`: an absent price and a zero price both show 0. */
  function OrderPrice(o: Order): (p: int)
    ensures o.listing.Some? && o.listing.value.price.Some? ==> p == o.listing.value.price.value
    ensures o.listing.None? || o.listing.value.price.None? ==> p == 0
  {
    if o.listing.Some? then o.listing.value.price.GetOr(0) else 0
  }

  /** `person?.name`. */
  function NameOf(p: Option<Person>): Option<string> {
    if p.Some? then p.value.name else None
  }

  /** `person?.year`. */
  function YearOf(p: Option<Person>): Option<string> {
    if p.Some? then p.value.year else None
  }
}
