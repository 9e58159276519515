/** The home page (js/main.js): the search box that hands over to the browse
    page, and the latest-listings strip. */
module Home {
  import opened Js
  import opened Web
  import opened Records
  import opened Uri
  import Browse

  // ------------------------------------------------------------- search

  /** The query `searchFromHome` writes after `browse.html?`: the search
      term when there is one, followed by `&`, then the category unless it
      is "All". Both values are encoded as URI components. */
  function SearchQuery(search: string, category: string): (q: string)
    ensures search == "" && category == "All" ==> q == ""
    ensures search != "" ==> Assignment("search", search) + "&" <= q
    ensures search == "" && category != "All" ==> q == Assignment("category", category)
    ensures category != "All" ==>
      (|Assignment("category", category)| <= |q|
       && q[|q| - |Assignment("category", category)|..] == Assignment("category", category))
    ensures search != "" && category == "All" ==> |q| > 0 && q[|q| - 1] == '&'
    ensures |q| == (if search != "" then |Assignment("search", search)| + 1 else 0)
                 + (if category != "All" then |Assignment("category", category)| else 0)
  {
    (if search != "" then Assignment("search", search) + "&" else "")
    + (if category != "All" then Assignment("category", category) else "")
  }

  /** `searchFromHome`: where the browser is sent. */
  function SearchUrl(search: string, category: string): (url: string)
    ensures |url| >= 12 && url[..12] == "browse.html?"
    ensures url[12..] == SearchQuery(search, category)
  {
    "browse.html?" + SearchQuery(search, category)
  }

  /** `name=` followed by the value encoded as a URI component. */
  function Assignment(name: string, value: string): string {
    name + "=" + Encode(Component, value)
  }

  /** An assignment with a plain-letter name is the encoded pair, so the
      form parser reads it back; it holds no `&`. */
  lemma ParseAssignment(name: string, value: string)
    requires forall i :: 0 <= i < |name| ==> IsAlphanumeric(name[i])
    ensures Assignment(name, value) != ""
    ensures forall i :: 0 <= i < |Assignment(name, value)| ==> Assignment(name, value)[i] != '&'
    ensures ParsePair(Assignment(name, value)) == Some((name, value))
  {
    EncodeAlphanumeric(Component, name);
    ParseEncodedPair(Component, name, value);
    assert Assignment(name, value) == EncodePair(Component, name, value);
  }

  /** Two pieces joined by `&`. */
  lemma ParseTwoPieces(a: string, x: (string, string), b: string, y: (string, string))
    requires a != "" && b != ""
    requires forall i :: 0 <= i < |a| ==> a[i] != '&'
    requires forall i :: 0 <= i < |b| ==> b[i] != '&'
    requires ParsePair(a) == Some(x) && ParsePair(b) == Some(y)
    ensures ParseQuery(a + "&" + b) == Some([x, y])
  {
    ParseQuerySingle(b, y);
    ParseQueryCons(a, x, b, [y]);
    assert [x] + [y] == [x, y];
  }

  /** One piece followed by a trailing `&`, whose empty remainder is skipped. */
  lemma ParseTrailingSeparator(a: string, x: (string, string))
    requires a != ""
    requires forall i :: 0 <= i < |a| ==> a[i] != '&'
    requires ParsePair(a) == Some(x)
    ensures ParseQuery(a + "&") == Some([x])
  {
    assert ParseQuery("") == Some([]);
    ParseQueryCons(a, x, "", []);
    assert a + "&" + "" == a + "&";
    assert [x] + [] == [x];
  }

  /** Two assignments joined by `&` parse to their two pairs. */
  lemma ParseTwoAssignments(n1: string, v1: string, n2: string, v2: string)
    requires forall i :: 0 <= i < |n1| ==> IsAlphanumeric(n1[i])
    requires forall i :: 0 <= i < |n2| ==> IsAlphanumeric(n2[i])
    ensures ParseQuery(Assignment(n1, v1) + "&" + Assignment(n2, v2)) == Some([(n1, v1), (n2, v2)])
  {
    ParseAssignment(n1, v1);
    ParseAssignment(n2, v2);
    ParseTwoPieces(Assignment(n1, v1), (n1, v1), Assignment(n2, v2), (n2, v2));
  }

  lemma ParseBoth(search: string, category: string)
    requires search != "" && category != "All"
    ensures ParseQuery(SearchQuery(search, category)) == Some([("search", search), ("category", category)])
  {
    ParseTwoAssignments("search", search, "category", category);
  }

  lemma ParseSearchOnly(search: string, category: string)
    requires search != "" && category == "All"
    ensures ParseQuery(SearchQuery(search, category)) == Some([("search", search)])
  {
    var s := Assignment("search", search);
    ParseAssignment("search", search);
    ParseTrailingSeparator(s, ("search", search));
    assert SearchQuery(search, category) == s + "&";
  }

  lemma ParseCategoryOnly(search: string, category: string)
    requires search == "" && category != "All"
    ensures ParseQuery(SearchQuery(search, category)) == Some([("category", category)])
  {
    var c := Assignment("category", category);
    ParseAssignment("category", category);
    ParseQuerySingle(c, ("category", category));
    assert SearchQuery(search, category) == c;
  }

  /** The pairs the browse page parses out of the home page's query. */
  lemma ParseSearchQuery(search: string, category: string)
    ensures ParseQuery(SearchQuery(search, category))
         == Some((if search != "" then [("search", search)] else [])
                 + (if category != "All" then [("category", category)] else []))
  {
    if search != "" && category != "All" {
      ParseBoth(search, category);
      assert [("search", search)] + [("category", category)] == [("search", search), ("category", category)];
    } else if search != "" {
      ParseSearchOnly(search, category);
    } else if category != "All" {
      ParseCategoryOnly(search, category);
      assert [] + [("category", category)] == [("category", category)];
    }
  }

  /** Parsing the home page's search query leaves the search box holding
      the term (when one was typed) and the category selector holding the
      category (unless it was "All"); the price inputs keep what they held. */
  lemma SearchQueryReachesBrowse(search: string, category: string, g: Browse.Filters)
    ensures Browse.FiltersFromUrl(SearchQuery(search, category), g)
         == g.(search := if search != "" then search else g.search,
               category := if category != "All" then category else g.category)
  {
    ParseSearchQuery(search, category);
    LookupSearchPairs(search, category);
  }

  /** What the browse page's reader finds among the pairs of the search query. */
  lemma LookupSearchPairs(search: string, category: string)
    ensures var ps := (if search != "" then [("search", search)] else [])
                    + (if category != "All" then [("category", category)] else []);
      && Lookup(ps, "search") == (if search != "" then Some(search) else None)
      && Lookup(ps, "category") == (if category != "All" then Some(category) else None)
      && Lookup(ps, "minPrice") == None && Lookup(ps, "maxPrice") == None
  {
    var ps := (if search != "" then [("search", search)] else [])
            + (if category != "All" then [("category", category)] else []);
    if search != "" && category != "All" {
      assert ps == [("search", search), ("category", category)];
      assert ps[1..] == [("category", category)];
    } else if search != "" {
      assert ps == [("search", search)];
    } else if category != "All" {
      assert ps == [("category", category)];
    } else {
      assert ps == [];
    }
  }


  /** Searching from the home page opens the browse page with the filters
      above: the browse page reads what follows `browse.html?` in the link. */
  lemma HomeSearchReachesBrowse(search: string, category: string, g: Browse.Filters)
    ensures Browse.FiltersFromUrl(SearchUrl(search, category)[12..], g)
         == g.(search := if search != "" then search else g.search,
               category := if category != "All" then category else g.category)
  {
    SearchQueryReachesBrowse(search, category, g);
  }

  // ----------------------------------------------------- latest listings

  /** `status=available`, the query of `loadLatestListings`. */
  const LatestQuery := "status=available"

  const LatestRequest := Request(Get, ListingsPath + "?" + LatestQuery, false, [])

  /** The home page asks for what the browse page asks for with every
      filter blank and no category chosen. */
  lemma HomeAsksLikeUnfilteredBrowse(f: Browse.Filters)
    requires f.search == "" && f.minPrice == "" && f.maxPrice == ""
    requires !Browse.CategoryChosen(f.category)
    ensures LatestRequest == Browse.ListingsRequest(f)
  {
    BlankQuery(f);
  }

  /** With every filter blank the browse query is `status=available`. */
  lemma BlankQuery(f: Browse.Filters)
    requires f.search == "" && f.minPrice == "" && f.maxPrice == ""
    requires !Browse.CategoryChosen(f.category)
    ensures Browse.ListingsQuery(f) == LatestQuery
  {
    BlankFiltersAppendStatusOnly(f);
    var n := Browse.Param.Status.Name();
    var v := Browse.Value(f, Browse.Status);
    assert Browse.Pairs(f, [Browse.Status]) == [(n, v)];
    SerializeStatus(n, v);
  }

  lemma SerializeStatus(name: string, value: string)
    requires name == "status" && value == "available"
    ensures Serialize([(name, value)]) == "status=available"
  {
    SerializeSinglePlain(name, value);
  }

  /** A single pair of plain-letter strings is written as it is. */
  lemma SerializeSinglePlain(name: string, value: string)
    requires forall i :: 0 <= i < |name| ==> IsAlphanumeric(name[i])
    requires forall i :: 0 <= i < |value| ==> IsAlphanumeric(value[i])
    ensures Serialize([(name, value)]) == name + "=" + value
  {
    EncodeAlphanumeric(Form, name);
    EncodeAlphanumeric(Form, value);
  }

  /** With every filter blank, `status` is the only parameter. */
  lemma BlankFiltersAppendStatusOnly(f: Browse.Filters)
    requires f.search == "" && f.minPrice == "" && f.maxPrice == ""
    requires !Browse.CategoryChosen(f.category)
    ensures Browse.Appended(f) == [Browse.Status]
  {
    var fs := Browse.AppendedFilters(f);
    NoMemberEmpty(fs);
    assert fs == [];
    assert [] + [Browse.Status] == [Browse.Status];
  }

  lemma NoMemberEmpty<T>(s: seq<T>)
    ensures (forall x :: x !in s) ==> s == []
  {
    if |s| > 0 {
      assert s[0] in s;
    }
  }

  /** `createListingCard` of the home page: a shorter description than the
      browse page's, and a byline naming the seller's year. */
  datatype Card = Card(listingId: string, title: string, blurb: string, byline: string)

  function CardOf(l: Listing): (c: Card)
    ensures c.listingId == l.id && c.title == l.title
    ensures |c.blurb| == Min(80, |l.description|) + 3
    ensures c.blurb[..|c.blurb| - 3] <= l.description && c.blurb[|c.blurb| - 3..] == "..."
    ensures c.byline == "Sold by " + OrElse(YearOf(l.seller), "Student")
  {
    Card(l.id, l.title, Ellipsis(l.description, 80), "Sold by " + OrElse(YearOf(l.seller), "Student"))
  }

  /** The reply with its list cut to its first `n` records (`slice(0, n)`). */
  function Capped<T>(reply: Reply<seq<T>>, n: nat): (r: Reply<seq<T>>)
    ensures r.Succeeded() <==> reply.Succeeded()
    ensures r.Thrown? <==> reply.Thrown?
    ensures r.Answer? ==> (r.payload.Some? <==> reply.payload.Some?)
  {
    match reply
    case Thrown(m) => Thrown(m)
    case Answer(ok, records) =>
      Answer(ok, if records.Some? then Some(Prefix(records.value, n)) else None)
  }

  const LatestCount := 8

  /** `loadLatestListings`: at most the first eight listings of a
      successful, non-empty reply, in the reply's order. */
  function LatestListings(reply: Reply<seq<Listing>>): (p: Panel<Card>)
    ensures p.Rows? <==> reply.Succeeded() && reply.payload.Some? && |reply.payload.value| > 0
    ensures p.Rows? ==>
      reply.Answer? && reply.payload.Some?
      && |p.rows| == Min(LatestCount, |reply.payload.value|)
      && forall i :: 0 <= i < |p.rows| ==> p.rows[i] == CardOf(reply.payload.value[i])
    ensures p.Notice? ==> p.text == "No listings yet. Be the first to sell!"
    ensures p.ErrorNotice? ==> p.text == "Error loading listings"
  {
    LoadPanel(Capped(reply, LatestCount), CardOf, "No listings yet. Be the first to sell!", "Error loading listings")
  }
}
