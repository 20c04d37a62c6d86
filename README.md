# Campus marketplace API core, modelled in Dafny

This project models the server-side core of a campus marketplace (listings, buyer/seller
conversations, saved listings, affiliate click tracking) and the client-side session glue.
The Next.js route handlers run over a Firestore document store. Here that store is held in
memory by the class `Firestore.Store`: one map per collection (`conversations`, `messages`,
`savedListings`, `listings`, `affiliates`, `users`), keyed by document id. Each handler is
a method that takes the store, the verified caller (`Http.Caller`: a uid or `Anonymous`)
and the parsed request. It returns an `Http.Response` (`Ok`, `Created`, `BadRequest`,
`Unauthorized`) and updates the maps.

Modules, one per source file plus shared pieces:

- `Json` (json.dfy): optional fields and JavaScript truthiness of strings (`!x` is true for
  an absent field and for `""`).
- `Http` (http.dfy): the caller and the response.
- `Firestore` (firestore.dfy): document types, the `Store` class and the order of query
  results. A query without `orderBy` lists its documents by ascending document id, so
  "the first document of the snapshot" is precise. `QueryInIdOrder` computes that order.
- `Sorting` (sorting.dfy): the in-place descending sort used by `Array.prototype.sort`,
  and subsequences (what `filter` produces).
- `Conversations`, `Saved`, `AffiliateClick`, `Listings` (one file each): the route
  handlers.
- `AuthContext` (auth_context.dfy): the configuration gate, the auth-state callback that
  creates a profile on first sign-in, the display-name split, and `useAuth`.

The handlers take a few inputs from outside the code. The clock (`new Date()`,
`Timestamp.now()`) is a `now` parameter. The id that Firestore's `add` assigns is a
parameter too, and it must not already be in the collection: that is the uniqueness
Firestore guarantees for auto-ids. The identity verifier's verdict is the `Caller`.

Behaviour worth knowing, as the code has it:

- The save record's key is `userId + "_" + listingId`, with a `_` separator, and the
  toggle updates no counter on the listing.
- Starting a conversation only rejects a falsy `initialMessage`: a message of spaces is
  accepted.
- The listing query `orderBy("createdAt", "desc")` leaves out listings that lack a
  `createdAt` field. This is Firestore behaviour. Every listing these routes write has a
  timestamp, so the `|| 0` default for `createdAt` never applies to such a listing. A stored
  `null` or non-timestamp `createdAt`, which Firestore keeps in the query and for which the
  default gives 0, is not modelled (see "## Left out").

## Model

| member | source | states |
|---|---|---|
| `Firestore.QueryInIdOrder` | app/api/conversations/route.ts:92-93 | a query snapshot lists every matched document once, in ascending document-id order |
| `Sorting.SortDesc` | app/api/conversations/route.ts:53 | the in-place sort leaves keys non-increasing and the array a permutation of what it was |
| `Conversations.Start` | app/api/conversations/route.ts:65-131 | 401 for an unauthenticated caller; 400 "Missing required fields…" for a falsy listingId, recipientId or initialMessage; 400 "Cannot message yourself" when sender is recipient. In all these cases no collection changes. Otherwise the first matching conversation (by document order) is reused and no conversation is added, or exactly one conversation `[sender, recipient]` with `lastMessage = initialMessage` is added. Exactly one unread message from the sender, linked to the returned id, is added. Nothing else changes |
| `Conversations.StartTwice` | app/api/conversations/route.ts:95-121 | two identical requests return the same conversation id; at most one conversation is added; each request adds one message |
| `Conversations.FirstCandidateUnique` | app/api/conversations/route.ts:95-101 | the scan's first match is unique |
| `Conversations.CreatedIsFirstCandidate` | app/api/conversations/route.ts:103-112 | when no conversation matched, the created one is the first match of the new state, so a repeated request finds it |
| `Conversations.OtherParticipant` | app/api/conversations/route.ts:17 | the found participant is not the caller and is a participant; nothing is found only when every participant is the caller |
| `Conversations.OtherParticipantIsFirst` | app/api/conversations/route.ts:17 | the found participant is the first one that is not the caller |
| `Conversations.ViewOf` | app/api/conversations/route.ts:16-50 | an inbox entry's `otherUser` is the first participant other than the caller (the one `find` returns), with their profile fields. It is null when there is no such participant, the id is empty, or the user record is missing. The title is the listing's title, or "Unknown Listing" when the listing is missing. A missing `lastMessage` becomes "" and a missing `lastMessageAt` becomes `{0,0}` |
| `Conversations.InboxFromQuery` | app/api/conversations/route.ts:14-53 | entries built one per queried conversation, in any permutation, list each conversation of the caller exactly once and nothing else |
| `Conversations.List` | app/api/conversations/route.ts:4-63 | 401 when unauthenticated; otherwise each conversation with the caller as a participant appears exactly once, as its entry, and no other; `lastMessageAt.seconds` is non-increasing |
| `Saved.SavedDocIdInjective` | app/api/saved/route.ts:51 | the key `userId_listingId` determines the pair when user ids contain no `_` |
| `Saved.SavedDocIdCollision` | app/api/saved/route.ts:51 | without that condition two different pairs share a key |
| `Saved.ToggleSaved` | app/api/saved/route.ts:52-65 | the returned flag is true exactly when the key was absent, and exactly when it is present afterwards; a created record holds the listingId, the userId and the time; every other key is untouched |
| `Saved.ToggleTwiceRestores` | app/api/saved/route.ts:52-65 | two toggles of the same pair restore which records exist and leave the others unchanged; if the pair was not saved the collection is exactly as before |
| `Saved.ToggleOtherPairUnaffected` | app/api/saved/route.ts:51-65 | toggling one pair does not change whether another pair is saved |
| `Saved.Toggle` | app/api/saved/route.ts:36-73 | 401 when unauthenticated; 400 "Missing listingId" when it is falsy. In both cases nothing changes. Otherwise `savedListings` becomes the toggle's result, the reply is `Ok(saved)`, and nothing else changes |
| `Saved.List` | app/api/saved/route.ts:4-34 | 401 when unauthenticated; otherwise exactly one entry per save record of the caller and no other, listed in ascending document id (the query's order), and a missing `savedAt` becomes `{0,0}` |
| `AffiliateClick.RecordClick` | app/api/affiliates/click/route.ts:16-27 | an active existing affiliate's `clickCount` (absent counts as 0) goes up by exactly one and `updatedAt` becomes the time. A missing or inactive affiliate leaves the collection unchanged. No other affiliate changes and no count decreases |
| `AffiliateClick.Click` | app/api/affiliates/click/route.ts:4-34 | 400 "Missing affiliateId" with no change for a falsy id; otherwise one atomic step of `RecordClick`, and the reply is `success: true` whether or not a click was counted |
| `Listings.VerbatimOccurrenceMatches` | app/api/listings/route.ts:56-62 | text that occurs verbatim in a listing's title or description is found by the search |
| `Listings.SearchIgnoresCase` | app/api/listings/route.ts:56-62 | queries that lowercase alike find the same listings, and a query finds what its lowercase form finds |
| `Listings.Keep` | app/api/listings/route.ts:38-63 | `filter` keeps exactly the elements that satisfy the predicate, each as often as it occurs in the input, as a subsequence |
| `Listings.Narrow` | app/api/listings/route.ts:38-63 | one optional filter step keeps exactly the elements that satisfy it when its parameter is given, and all elements otherwise, each as often as it occurs in the input |
| `Listings.SearchKeepsExactlyMatches` | app/api/listings/route.ts:38-63 | the filter chain keeps exactly the listings that match every given parameter: exact type, exact clothingType, inclusive price bounds, and a case-insensitive substring of title or description; each kept listing occurs as often as in the input |
| `Listings.SearchIsSubsequence` | app/api/listings/route.ts:38-63 | the filter chain's result is a subsequence of its input |
| `Listings.SearchKeepsNewestFirst` | app/api/listings/route.ts:16-63 | a newest-first input gives a newest-first result |
| `Listings.NoFiltersKeepsAll` | app/api/listings/route.ts:38-65 | with no parameters every fetched listing is returned, in order |
| `Listings.QueryNewestFirst` | app/api/listings/route.ts:16-17 | `orderBy("createdAt", "desc")` returns exactly the listings that have a `createdAt`, each once, newest first |
| `Listings.NormalisedFetch` | app/api/listings/route.ts:19-36 | the normalised records keep the fetch's newest-first order and are exactly the normalised fetched listings |
| `Listings.GetListings` | app/api/listings/route.ts:5-70 | the result holds exactly the normalised fetched listings that match the parameters, each listing once, newest first |
| `Listings.ValidationError` | app/api/listings/route.ts:79-92 | a body passes exactly when title, description and type are truthy, price is defined, and the type is one of the seven; otherwise the error is the missing-fields message or, when only the type is wrong, "Invalid listing type" |
| `Listings.ZeroPriceIsAccepted` | app/api/listings/route.ts:79-92 | a body with truthy title and description, a listed type and a price of 0 passes validation: 0 is a defined price |
| `Listings.NewListing` | app/api/listings/route.ts:97-109 | the stored record belongs to the caller and holds the body's title, description, price and type; `imageUrls` defaults to `[]`; `clothingType` is present exactly when the body gives it |
| `Listings.Create` | app/api/listings/route.ts:72-142 | 401 when unauthenticated; 400 with the validation error and no change for an invalid body. Otherwise exactly one listing is stored under the new id, and the reply is that record as the GET handler shows it, with `createdAt` at the current second |
| `AuthContext.Split` | lib/auth-context.tsx:47 | `split(" ")` gives at least one piece, no piece holds a space, and the first piece is the text before the first space |
| `AuthContext.JoinSplit` | lib/auth-context.tsx:47-52 | joining the pieces with single spaces gives back the string |
| `AuthContext.SplitMany` | lib/auth-context.tsx:47-52 | there is more than one piece exactly when the string has a space |
| `AuthContext.NameRoundTrip` | lib/auth-context.tsx:47-52 | firstName is a space-free prefix. With a space, `firstName + " " + lastName` is the display name; without one, firstName is the display name and lastName is "" |
| `AuthContext.NewUserRecord` | lib/auth-context.tsx:47-54 | the new profile's firstName is the text before the first space of displayName (space-free) and lastName the rest, so that with a space `firstName + " " + lastName` is the display name; both are "" for a missing displayName; profilePicture defaults to "" |
| `AuthContext.AuthProvider.constructor` | lib/auth-context.tsx:9-11 | the provider starts with no user, loading, and no auth service |
| `AuthContext.AuthProvider.Init` | lib/auth-context.tsx:16-41 | without an apiKey starting with "AIza" and a projectId, initialisation only sets loading to false; otherwise it sets up auth and subscribes |
| `AuthContext.AuthProvider.OnAuthStateChanged` | lib/auth-context.tsx:41-59 | the callback records the user and ends loading. A profile is written only when none exists for the uid, and an existing one is left unchanged |
| `AuthContext.UseAuth` | lib/auth-context.tsx:99-105 | `useAuth` throws "useAuth must be used within an AuthProvider" exactly when there is no provider |

## Left out

- Firestore and Firebase Admin I/O, `getDB` and `verifyAuthToken` are not modelled. The store is in memory, and the caller's identity is an input.
- The `catch` blocks' 500 responses are not modelled. These cover store or transport failures, an unparsable body, and, during a search, a stored listing without a title or without a description (app/api/listings/route.ts:60-61). Only the 401 branch (a failed identity check) is modelled.
- Request bodies hold the types the handlers expect. JSON values of other types are not modelled.
- A `null` field is modelled as an absent one (`Json.Option.None`), in request bodies and in stored documents. The source tells them apart in places the model does not follow: a body with `price: null` or `clothingType: null` passes the `!== undefined` checks (app/api/listings/route.ts:79, 107, 127), and the source then stores and returns that `null`, whereas `Listings.NewListing` stores no `clothingType`; and a stored listing whose `createdAt` is `null` or not a timestamp stays in the `orderBy("createdAt", "desc")` query, sorting last with seconds 0, whereas `Listings.QueryNewestFirst` and `Listings.GetListings` leave out every listing without a timestamp. Stored documents with other missing or `null` fields are modelled only through the defaults the source applies.
- Document ids are opaque map keys. In Firestore, a `/` in an id passed to `doc(...)` is a path separator, and client-supplied ids containing `/` are not modelled. In the source, a conversation started with such a `listingId` makes `doc(data.listingId)` throw in every later inbox fetch of both participants (app/api/conversations/route.ts:34), so the inbox answers 500, while `Conversations.List` answers `Ok` with "Unknown Listing". A saved-listing key with one `/` makes `doc(...)` throw and the toggle answer 500 (app/api/saved/route.ts:51-52), while `Saved.Toggle` stores the record; a key with two `/` writes a document in a subcollection, which the `GET` query on `savedListings` (app/api/saved/route.ts:11) never lists, while `Saved.List` does. An `affiliateId` with `/` is likewise not modelled.
- Concurrency is out: the race between the scan and the create in find-or-create, and the unguarded check-then-write of the toggle. Each request is one sequential step. The affiliate transaction is one atomic step, without retries.
- `parseFloat`, NaN and float arithmetic are not modelled. Prices are reals and the price bounds arrive already parsed.
- `Listings.Create`: the reply's `createdAt.seconds` is the clock's whole seconds, not the fractional `Date.now() / 1000`.
- `toLowerCase` is ASCII only; Unicode case mapping is not modelled.
- `Conversations.List`: states that `lastMessageAt.seconds` never increases, but not the order among equal seconds. The model does compute that order: the stable sort of the id-ordered snapshot.
- `Listings.QueryNewestFirst`: states newest first, but not the descending-id order among equal `createdAt`. The model computes that order: the stable sort of the reversed id order.
- `Listings.GetListings`: states newest first, but not the descending-id order among equal `createdAt`. The model computes that order too.
- `Sorting.SortDesc`: stability is not stated.
- `AuthContext.AuthProvider.OnAuthStateChanged`: the callback can only fire after a successful `Init` (its `requires subscribed`). The unsubscribe on unmount is not modelled.
- React state plumbing, `signInWithGoogle` and `signOut` (lib/auth-context.tsx:69-90), and reuse of an existing Firebase app are presentation or client glue. So are app/components/layout-wrapper.tsx and app/views/saved.ts.
- Message read-state transitions, sending into an existing conversation, listing view and save counters, and the school admin routes belong to other routes and are not part of this model.
- Logging (`console.error`) and `NextResponse` construction are not modelled.
