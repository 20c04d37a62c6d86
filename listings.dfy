/** `GET /api/listings` (all listings newest first, narrowed by optional
    search parameters) and `POST /api/listings` (validate and store a new
    listing). */
module Listings {
  import opened Json
  import opened Http
  import opened Firestore
  import Sorting

  /** A listing as the GET handler returns it. */
  datatype ListingData = ListingData(
    id: DocId,
    title: string,
    description: string,
    price: real,
    listingType: string,
    clothingType: Option<string>,
    userId: DocId,
    createdAt: Timestamp,
    imageUrls: Option<seq<string>>)

  /** The record normalisation of the GET handler's `forEach`. */
  function Normalise(id: DocId, l: Listing): ListingData {
    ListingData(id, l.title, l.description, l.price.GetOr(0.0), l.listingType, l.clothingType,
                l.userId, OrEpoch(l.createdAt), l.imageUrls)
  }

  function CreatedKey(l: ListingData): int {
    TimeKey(l.createdAt)
  }

  /** Query parameters; an absent or empty parameter is `None`. The price
      bounds are the already parsed numbers. */
  datatype SearchParams = SearchParams(
    listingType: Option<string>,
    clothingType: Option<string>,
    minPrice: Option<real>,
    maxPrice: Option<real>,
    search: Option<string>)

  const NoFilters := SearchParams(None, None, None, None, None)

  /** ASCII `toLowerCase`. */
  function LowerChar(c: char): char {
    if 'A' <= c <= 'Z' then (c as int + 32) as char else c
  }

  function Lower(s: string): (r: string)
    ensures |r| == |s| && forall i :: 0 <= i < |s| ==> r[i] == LowerChar(s[i])
  {
    seq(|s|, i requires 0 <= i < |s| => LowerChar(s[i]))
  }

  predicate OccursAt(hay: string, needle: string, i: int) {
    0 <= i && i + |needle| <= |hay| && hay[i..i + |needle|] == needle
  }

  /** `hay.includes(needle)` */
  predicate Includes(hay: string, needle: string) {
    exists i :: 0 <= i <= |hay| - |needle| && OccursAt(hay, needle, i)
  }

  /** `ls.filter(keep)` */
  function Keep(ls: seq<ListingData>, keep: ListingData -> bool): (r: seq<ListingData>)
    ensures forall x :: x in r <==> x in ls && keep(x)
    ensures forall x :: multiset(r)[x] == if keep(x) then multiset(ls)[x] else 0
    ensures Sorting.Subseq(r, ls)
  {
    if ls == [] then []
    else
      assert ls == [ls[0]] + ls[1..];
      if keep(ls[0]) then [ls[0]] + Keep(ls[1..], keep)
      else Keep(ls[1..], keep)
  }

  /** `if (on) ls = ls.filter(keep)` */
  function Narrow(ls: seq<ListingData>, on: bool, keep: ListingData -> bool): (r: seq<ListingData>)
    ensures forall x :: x in r <==> x in ls && (on ==> keep(x))
    ensures forall x :: multiset(r)[x] == if !on || keep(x) then multiset(ls)[x] else 0
    ensures Sorting.Subseq(r, ls)
  {
    if on then Keep(ls, keep) else Sorting.SubseqReflexive(ls); ls
  }

  /** Case-insensitive match of the search text against title or description. */
  predicate MatchesText(l: ListingData, query: string) {
    var q := Lower(query);
    Includes(Lower(l.title), q) || Includes(Lower(l.description), q)
  }

  /** Lowercasing a piece of a string lowercases that piece. */
  lemma LowerSlice(s: string, i: int, j: int)
    requires 0 <= i <= j <= |s|
    ensures Lower(s)[i..j] == Lower(s[i..j])
  {
  }

  /** Lowercasing twice changes nothing more. */
  lemma LowerIdempotent(s: string)
    ensures Lower(Lower(s)) == Lower(s)
  {
  }

  /** Text found verbatim in a listing's title or description is found by
      the search. */
  lemma VerbatimOccurrenceMatches(l: ListingData, query: string)
    requires Includes(l.title, query) || Includes(l.description, query)
    ensures MatchesText(l, query)
  {
    var hay := if Includes(l.title, query) then l.title else l.description;
    var i :| 0 <= i <= |hay| - |query| && OccursAt(hay, query, i);
    LowerSlice(hay, i, i + |query|);
    assert OccursAt(Lower(hay), Lower(query), i);
  }

  /** The search ignores case: queries that lowercase alike find the same
      listings, and a query finds what its lowercase form finds. */
  lemma SearchIgnoresCase(l: ListingData, q1: string, q2: string)
    requires Lower(q1) == Lower(q2)
    ensures MatchesText(l, q1) == MatchesText(l, q2)
    ensures MatchesText(l, Lower(q1)) == MatchesText(l, q1)
  {
    LowerIdempotent(q1);
  }

  /** The filter chain of the GET handler, in its order. */
  function Search(ls: seq<ListingData>, p: SearchParams): seq<ListingData> {
    var byType := Narrow(ls, Truthy(p.listingType),
                         (l: ListingData) => l.listingType == p.listingType.GetOr(""));
    var byClothing := Narrow(byType, Truthy(p.clothingType),
                             (l: ListingData) => l.clothingType == p.clothingType);
    var byMin := Narrow(byClothing, p.minPrice.Some?,
                        (l: ListingData) => l.price >= p.minPrice.GetOr(0.0));
    var byMax := Narrow(byMin, p.maxPrice.Some?,
                        (l: ListingData) => l.price <= p.maxPrice.GetOr(0.0));
    Narrow(byMax, Truthy(p.search), (l: ListingData) => MatchesText(l, p.search.GetOr("")))
  }

  /** What one listing must satisfy to survive every filter that is given. */
  predicate Matches(l: ListingData, p: SearchParams) {
    && (Truthy(p.listingType) ==> l.listingType == p.listingType.value)
    && (Truthy(p.clothingType) ==> l.clothingType == p.clothingType)
    && (p.minPrice.Some? ==> p.minPrice.value <= l.price)
    && (p.maxPrice.Some? ==> l.price <= p.maxPrice.value)
    && (Truthy(p.search) ==> MatchesText(l, p.search.value))
  }

  /** The chain keeps exactly the listings that match every given filter,
      each as often as it occurs in the input. */
  lemma SearchKeepsExactlyMatches(ls: seq<ListingData>, p: SearchParams)
    ensures forall x :: x in Search(ls, p) <==> x in ls && Matches(x, p)
    ensures forall x :: multiset(Search(ls, p))[x] == if Matches(x, p) then multiset(ls)[x] else 0
  {
  }

  /** The chain only drops listings: the result is a subsequence of the input. */
  lemma SearchIsSubsequence(ls: seq<ListingData>, p: SearchParams)
    ensures Sorting.Subseq(Search(ls, p), ls)
  {
    var byType := Narrow(ls, Truthy(p.listingType),
                         (l: ListingData) => l.listingType == p.listingType.GetOr(""));
    var byClothing := Narrow(byType, Truthy(p.clothingType),
                             (l: ListingData) => l.clothingType == p.clothingType);
    var byMin := Narrow(byClothing, p.minPrice.Some?,
                        (l: ListingData) => l.price >= p.minPrice.GetOr(0.0));
    var byMax := Narrow(byMin, p.maxPrice.Some?,
                        (l: ListingData) => l.price <= p.maxPrice.GetOr(0.0));
    Sorting.SubseqTransitive(byClothing, byType, ls);
    Sorting.SubseqTransitive(byMin, byClothing, ls);
    Sorting.SubseqTransitive(byMax, byMin, ls);
    Sorting.SubseqTransitive(Search(ls, p), byMax, ls);
  }

  /** A newest-first list stays newest-first after filtering. */
  lemma SearchKeepsNewestFirst(ls: seq<ListingData>, p: SearchParams)
    requires Sorting.SortedDesc(ls, CreatedKey)
    ensures Sorting.SortedDesc(Search(ls, p), CreatedKey)
  {
    SearchIsSubsequence(ls, p);
    Sorting.SubseqKeepsOrder(Search(ls, p), ls, CreatedKey);
  }

  /** With no parameters, every fetched listing is returned, in order. */
  lemma NoFiltersKeepsAll(ls: seq<ListingData>)
    ensures Search(ls, NoFilters) == ls
  {
  }

  /** Documents an `orderBy("createdAt")` query returns: those that have the field. */
  ghost predicate Fetched(listings: map<DocId, Listing>, id: DocId) {
    id in listings && listings[id].createdAt.Some?
  }

  function StoredCreatedKey(stored: map<DocId, Listing>, id: DocId): int {
    if id in stored then TimeKey(OrEpoch(stored[id].createdAt)) else 0
  }

  /** `orderBy("createdAt", "desc")`: the ids of the listings that have a
      `createdAt`, each once, newest first. */
  method QueryNewestFirst(stored: map<DocId, Listing>) returns (ids: seq<DocId>)
    ensures forall id :: id in ids <==> Fetched(stored, id)
    ensures forall i, j :: 0 <= i < j < |ids| ==> StoredCreatedKey(stored, ids[i]) >= StoredCreatedKey(stored, ids[j])
    ensures forall i, j :: 0 <= i < j < |ids| ==> ids[i] != ids[j]
  {
    var ascending := QueryInIdOrder(set id | id in stored && stored[id].createdAt.Some?);
    var a := new DocId[|ascending|](k requires 0 <= k < |ascending| => ascending[|ascending| - 1 - k]);
    ghost var before := a[..];
    assert forall id :: id in before <==> id in ascending by {
      forall id | id in ascending ensures id in before {
        var k :| 0 <= k < |ascending| && ascending[k] == id;
        assert before[|ascending| - 1 - k] == id;
      }
    }
    assert forall i, j :: 0 <= i < j < |before| ==> before[i] != before[j] by {
      forall i, j | 0 <= i < j < |before| ensures before[i] != before[j] {
        assert before[i] == ascending[|ascending| - 1 - i] && before[j] == ascending[|ascending| - 1 - j];
      }
    }
    Sorting.SortDesc(a, id => StoredCreatedKey(stored, id));
    ids := a[..];
    Sorting.PermutationKeepsDistinct(before, ids);
    assert forall id :: id in ids <==> id in before by {
      forall id ensures id in ids <==> id in before {
        assert id in multiset(ids) <==> id in multiset(before);
      }
    }
  }

  /** Normalised records of the fetched ids, in fetch order. */
  lemma NormalisedFetch(stored: map<DocId, Listing>, ids: seq<DocId>, listings: seq<ListingData>)
    requires forall id :: id in ids <==> Fetched(stored, id)
    requires forall i, j :: 0 <= i < j < |ids| ==> StoredCreatedKey(stored, ids[i]) >= StoredCreatedKey(stored, ids[j])
    requires |listings| == |ids|
    requires forall k :: 0 <= k < |ids| ==>
               Fetched(stored, ids[k]) && listings[k] == Normalise(ids[k], stored[ids[k]])
    ensures Sorting.SortedDesc(listings, CreatedKey)
    ensures forall x :: x in listings <==> exists id :: Fetched(stored, id) && x == Normalise(id, stored[id])
  {
    forall i, j | 0 <= i < j < |listings|
      ensures CreatedKey(listings[i]) >= CreatedKey(listings[j])
    {
      assert ids[i] in ids && ids[j] in ids;
    }
    forall x | x in listings
      ensures exists id :: Fetched(stored, id) && x == Normalise(id, stored[id])
    {
      var k :| 0 <= k < |listings| && listings[k] == x;
      assert ids[k] in ids;
    }
    forall id | Fetched(stored, id)
      ensures Normalise(id, stored[id]) in listings
    {
      var k :| 0 <= k < |ids| && ids[k] == id;
      assert listings[k] == Normalise(id, stored[id]);
    }
  }

  /** GET: the listings newest first, normalised, then narrowed by the filter
      chain. */
  method GetListings(db: Store, p: SearchParams) returns (resp: Response<seq<ListingData>>)
    ensures resp.Ok?
    ensures forall x :: x in resp.body <==>
              (exists id :: Fetched(db.listings, id) && x == Normalise(id, db.listings[id])) && Matches(x, p)
    ensures Sorting.SortedDesc(resp.body, CreatedKey)
    ensures forall i, j :: 0 <= i < j < |resp.body| ==> resp.body[i].id != resp.body[j].id
  {
    var stored := db.listings;
    var fetched := QueryNewestFirst(stored);
    var listings: seq<ListingData> := [];
    for i := 0 to |fetched|
      invariant |listings| == i
      invariant forall k :: 0 <= k < i ==>
                  Fetched(stored, fetched[k]) && listings[k] == Normalise(fetched[k], stored[fetched[k]])
    {
      assert fetched[i] in fetched;
      listings := listings + [Normalise(fetched[i], stored[fetched[i]])];
    }
    NormalisedFetch(stored, fetched, listings);
    SearchKeepsExactlyMatches(listings, p);
    SearchKeepsNewestFirst(listings, p);
    SearchIsSubsequence(listings, p);
    Sorting.SubseqKeepsDistinct(Search(listings, p), listings, (l: ListingData) => l.id);
    return Ok(Search(listings, p));
  }

  const ListingTypes: seq<string> := ["clothes", "textbooks", "tech", "furniture", "tickets", "services", "other"]

  const MissingListingFieldsError := "Missing required fields: title, description, type, price"
  const InvalidListingTypeError := "Invalid listing type"

  /** The POST body; an absent field is `None`. */
  datatype CreateListingInput = CreateListingInput(
    title: Option<string>,
    description: Option<string>,
    listingType: Option<string>,
    price: Option<real>,
    clothingType: Option<string>,
    imageUrls: Option<seq<string>>)

  /** The body's first failed check, if any: a falsy title, description or
      type, or an undefined price; then a type outside the fixed list. */
  function ValidationError(body: CreateListingInput): (e: Option<string>)
    ensures e.None? <==>
              && Truthy(body.title) && Truthy(body.description) && Truthy(body.listingType)
              && body.price.Some? && body.listingType.value in ListingTypes
    ensures e.Some? ==> e.value in {MissingListingFieldsError, InvalidListingTypeError}
    ensures e == Some(InvalidListingTypeError) <==>
              && Truthy(body.title) && Truthy(body.description) && Truthy(body.listingType)
              && body.price.Some? && body.listingType.value !in ListingTypes
  {
    if !Truthy(body.title) || !Truthy(body.description) || !Truthy(body.listingType) || body.price.None? then
      Some(MissingListingFieldsError)
    else if body.listingType.value !in ListingTypes then
      Some(InvalidListingTypeError)
    else
      None
  }

  /** A price of 0 is a price: it passes validation. */
  lemma ZeroPriceIsAccepted(body: CreateListingInput)
    requires Truthy(body.title) && Truthy(body.description)
    requires Truthy(body.listingType) && body.listingType.value in ListingTypes
    requires body.price == Some(0.0)
    ensures ValidationError(body).None?
  {
  }

  /** The record stored for a valid body. */
  function NewListing(body: CreateListingInput, userId: DocId, now: Timestamp): (r: Listing)
    requires ValidationError(body).None?
    ensures r.userId == userId
    ensures r.title == body.title.value && r.description == body.description.value
    ensures r.price == body.price
    ensures r.listingType == body.listingType.value && r.listingType in ListingTypes
    ensures r.createdAt == Some(now)
    ensures r.imageUrls == Some(if body.imageUrls.Some? then body.imageUrls.value else [])
    ensures r.clothingType.Some? <==> body.clothingType.Some?
    ensures r.clothingType == body.clothingType
  {
    Listing(body.title.value, body.description.value, body.price, body.listingType.value,
            body.clothingType, userId, Some(now), Some(body.imageUrls.GetOr([])))
  }

  /** POST: after authentication and validation, stores the listing under the
      id `add` assigns and answers with it; the answer's `createdAt` is the
      clock's whole seconds. */
  method Create(db: Store, caller: Caller, body: CreateListingInput, now: Timestamp, newListingId: DocId)
    returns (resp: Response<ListingData>)
    requires newListingId !in db.listings
    modifies db
    ensures caller.Anonymous? ==> resp == Unauthorized
    ensures caller.SignedIn? && ValidationError(body).Some? ==> resp == BadRequest(ValidationError(body).value)
    ensures !resp.Created? ==> db.State() == old(db.State())
    ensures resp.Created? <==> caller.SignedIn? && ValidationError(body).None?
    ensures resp.Created? ==>
              && db.State() == old(db.State()).(listings :=
                   old(db.listings)[newListingId := NewListing(body, caller.uid, now)])
              && Fetched(db.listings, newListingId)
              && resp.body == Normalise(newListingId, db.listings[newListingId]).(createdAt := Timestamp(now.seconds, 0))
  {
    if caller.Anonymous? {
      return Unauthorized;
    }
    var userId := caller.uid;
    var error := ValidationError(body);
    if error.Some? {
      return BadRequest(error.value);
    }
    var listingData := NewListing(body, userId, now);
    db.listings := db.listings[newListingId := listingData];
    var imageUrls := body.imageUrls.GetOr([]);
    var responseData := ListingData(newListingId, body.title.value, body.description.value, body.price.value,
                                    body.listingType.value, body.clothingType, userId,
                                    Timestamp(now.seconds, 0), Some(imageUrls));
    return Created(responseData);
  }
}
