/** The browse page (js/browse.js): the filter form, the query it turns
    into, the filters it reads back from its own URL, and the listing grid. */
module Browse {
  import opened Js
  import opened Web
  import opened Records
  import opened Uri

  /** The four filter inputs, as the text their form controls hold. */
  datatype Filters = Filters(search: string, category: string, minPrice: string, maxPrice: string)

  predicate CategoryChosen(category: string) {
    category != "" && category != "All"
  }

  /** The parameters the listings query may carry, ranked in the order
      `loadListings` appends them. */
  datatype Param = Search | Category | MinPrice | MaxPrice | Status {
    function Name(): string {
      match this
      case Search => "search"
      case Category => "category"
      case MinPrice => "minPrice"
      case MaxPrice => "maxPrice"
      case Status => "status"
    }

    function Rank(): nat {
      match this
      case Search => 0
      case Category => 1
      case MinPrice => 2
      case MaxPrice => 3
      case Status => 4
    }
  }

  lemma NameInjective(p: Param, q: Param)
    ensures p.Name() == q.Name() ==> p == q
  {
    if p != q {
      assert p.Name()[1] != q.Name()[1] || |p.Name()| != |q.Name()| || p.Name()[0] != q.Name()[0];
    }
  }

  /** Whether `loadListings` appends `p` for the filters `f`: each filter
      when its input is non-empty, the category unless it is "All", and
      the status always. */
  predicate Wanted(f: Filters, p: Param) {
    match p
    case Search => f.search != ""
    case Category => CategoryChosen(f.category)
    case MinPrice => f.minPrice != ""
    case MaxPrice => f.maxPrice != ""
    case Status => true
  }

  /** The value appended for `p`. */
  function Value(f: Filters, p: Param): string {
    match p
    case Search => f.search
    case Category => f.category
    case MinPrice => f.minPrice
    case MaxPrice => f.maxPrice
    case Status => "available"
  }

  predicate Ascending(ps: seq<Param>) {
    forall i, j :: 0 <= i < j < |ps| ==> ps[i].Rank() < ps[j].Rank()
  }

  /** `if (...) params.append(p, ...)` onto parameters ranked below `p`. */
  function AppendIf(ps: seq<Param>, f: Filters, p: Param): (r: seq<Param>)
    requires Ascending(ps)
    requires forall i :: 0 <= i < |ps| ==> ps[i].Rank() < p.Rank()
    ensures Ascending(r)
    ensures forall i :: 0 <= i < |r| ==> r[i].Rank() <= p.Rank()
    ensures forall q :: q in r <==> q in ps || (q == p && Wanted(f, p))
    ensures Wanted(f, p) ==> |r| > 0 && r[|r| - 1] == p
  {
    if Wanted(f, p) then ps + [p] else ps
  }

  /** The parameters `loadListings` appends: exactly the wanted ones, in
      rank order, so `status` comes last. */
  function Appended(f: Filters): (ps: seq<Param>)
    ensures Ascending(ps)
    ensures forall p :: p in ps <==> Wanted(f, p)
    ensures |ps| > 0 && ps[|ps| - 1] == Status
  {
    AppendIf(AppendedFilters(f), f, Status)
  }

  /** The four filter parameters among them. */
  function AppendedFilters(f: Filters): (ps: seq<Param>)
    ensures Ascending(ps)
    ensures forall i :: 0 <= i < |ps| ==> ps[i].Rank() < Status.Rank()
    ensures forall p :: p in ps <==> p != Status && Wanted(f, p)
  {
    AppendIf(AppendIf(AppendedText(f), f, MinPrice), f, MaxPrice)
  }

  /** The search term and the category. */
  function AppendedText(f: Filters): (ps: seq<Param>)
    ensures Ascending(ps)
    ensures forall i :: 0 <= i < |ps| ==> ps[i].Rank() < MinPrice.Rank()
    ensures forall p :: p in ps <==> (p == Search || p == Category) && Wanted(f, p)
  {
    AppendIf(AppendIf([], f, Search), f, Category)
  }

  /** The name/value pairs of the parameters `ps`. */
  function Pairs(f: Filters, ps: seq<Param>): (r: seq<(string, string)>)
    ensures |r| == |ps|
    ensures forall i :: 0 <= i < |ps| ==> r[i] == (ps[i].Name(), Value(f, ps[i]))
  {
    if |ps| == 0 then [] else [(ps[0].Name(), Value(f, ps[0]))] + Pairs(f, ps[1..])
  }

  /** The query string of the listings request. */
  function ListingsQuery(f: Filters): string {
    Serialize(Pairs(f, Appended(f)))
  }

  /** The listings request: unauthenticated, filters in the query. */
  function ListingsRequest(f: Filters): (r: Request)
    ensures r.verb == Get && !r.authenticated && r.body == []
    ensures r.path == ListingsPath + "?" + ListingsQuery(f)
  {
    Request(Get, ListingsPath + "?" + ListingsQuery(f), false, [])
  }

  /** Looking a parameter's name up among the pairs of `ps` finds its value
      exactly when `ps` holds it. */
  lemma {:induction false} LookupParam(f: Filters, ps: seq<Param>, p: Param)
    ensures Lookup(Pairs(f, ps), p.Name()) == if p in ps then Some(Value(f, p)) else None
  {
    if |ps| > 0 {
      NameInjective(ps[0], p);
      if ps[0] != p {
        assert Pairs(f, ps)[1..] == Pairs(f, ps[1..]);
        LookupParam(f, ps[1..], p);
        assert p in ps <==> p in ps[1..] by {
          assert ps == [ps[0]] + ps[1..];
        }
      }
    }
  }

  /** What the server reads from the query: every parameter that was
      appended, under its own name with its own value, and nothing for the
      others. */
  lemma ServerReadsFilters(f: Filters, p: Param)
    ensures ParseQuery(ListingsQuery(f)).Some?
    ensures Lookup(ParseQuery(ListingsQuery(f)).value, p.Name())
         == if Wanted(f, p) then Some(Value(f, p)) else None
  {
    ParseSerialize(Pairs(f, Appended(f)));
    LookupParam(f, Appended(f), p);
  }

  /** `loadFiltersFromURL`: each filter named in the page's query replaces
      the input's current text; filters the query leaves out are kept. */
  function FiltersFromUrl(query: string, f: Filters): (g: Filters)
    ensures ParseQuery(query).None? ==> g == f
    ensures ParseQuery(query).Some? ==>
      var ps := ParseQuery(query).value;
      && (Lookup(ps, "search").None? ==> g.search == f.search)
      && (Lookup(ps, "search").Some? ==> g.search == Lookup(ps, "search").value)
      && (Lookup(ps, "category").None? ==> g.category == f.category)
      && (Lookup(ps, "category").Some? ==> g.category == Lookup(ps, "category").value)
      && (Lookup(ps, "minPrice").None? ==> g.minPrice == f.minPrice)
      && (Lookup(ps, "minPrice").Some? ==> g.minPrice == Lookup(ps, "minPrice").value)
      && (Lookup(ps, "maxPrice").None? ==> g.maxPrice == f.maxPrice)
      && (Lookup(ps, "maxPrice").Some? ==> g.maxPrice == Lookup(ps, "maxPrice").value)
  {
    match ParseQuery(query)
    case None => f
    case Some(ps) =>
      Filters(Lookup(ps, "search").GetOr(f.search), Lookup(ps, "category").GetOr(f.category),
              Lookup(ps, "minPrice").GetOr(f.minPrice), Lookup(ps, "maxPrice").GetOr(f.maxPrice))
  }

  /** Parsing the listings query with the filter reader gives back every
      filter that was set and keeps the inputs' text for the others. */
  lemma ListingsQueryRestoresFilters(f: Filters, g: Filters)
    ensures FiltersFromUrl(ListingsQuery(f), g)
         == Filters(if f.search != "" then f.search else g.search,
                    if CategoryChosen(f.category) then f.category else g.category,
                    if f.minPrice != "" then f.minPrice else g.minPrice,
                    if f.maxPrice != "" then f.maxPrice else g.maxPrice)
  {
    ServerReadsFilters(f, Search);
    ServerReadsFilters(f, Category);
    ServerReadsFilters(f, MinPrice);
    ServerReadsFilters(f, MaxPrice);
  }

  // --------------------------------------------------------------- grid

  /** The decisions in `createListingCard`: the description cut to 100
      characters and followed by an ellipsis, and the seller line's
      fallbacks. */
  datatype Card = Card(listingId: string, title: string, blurb: string, sellerName: string, sellerYear: string)

  function CardOf(l: Listing): (c: Card)
    ensures c.listingId == l.id && c.title == l.title
    ensures |c.blurb| == Min(100, |l.description|) + 3
    ensures c.blurb[..|c.blurb| - 3] <= l.description && c.blurb[|c.blurb| - 3..] == "..."
    ensures c.sellerName == OrElse(NameOf(l.seller), "Student")
    ensures c.sellerYear == OrElse(YearOf(l.seller), "")
  {
    Card(l.id, l.title, Ellipsis(l.description, 100),
         OrElse(NameOf(l.seller), "Student"), OrElse(YearOf(l.seller), ""))
  }

  /** The grid of `loadListings`: one card per listing of a successful,
      non-empty reply. */
  function LoadListings(reply: Reply<seq<Listing>>): (p: Panel<Card>)
    ensures p.Rows? <==> reply.Succeeded() && reply.payload.Some? && |reply.payload.value| > 0
    ensures p.Rows? ==>
      reply.Answer? && reply.payload.Some? && |p.rows| == |reply.payload.value|
      && forall i :: 0 <= i < |p.rows| ==> p.rows[i] == CardOf(reply.payload.value[i])
    ensures p.Notice? ==> p.text == "No listings found"
    ensures p.ErrorNotice? ==> p.text == "Error loading listings"
  {
    LoadPanel(reply, CardOf, "No listings found", "Error loading listings")
  }
}
