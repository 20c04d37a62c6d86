/** `POST /api/saved` (toggle whether the caller has saved a listing) and
    `GET /api/saved` (the caller's saved listings). */
module Saved {
  import opened Json
  import opened Http
  import opened Firestore

  datatype ToggleRequest = ToggleRequest(listingId: Option<string>)

  const MissingListingIdError := "Missing listingId"

  /** The id of the save record of one (user, listing) pair: `${userId}_${listingId}`. */
  function SavedDocId(userId: DocId, listingId: DocId): DocId {
    userId + "_" + listingId
  }

  /** The key determines the pair as long as user ids contain no underscore
      (listing ids may). */
  lemma SavedDocIdInjective(u1: DocId, l1: DocId, u2: DocId, l2: DocId)
    requires '_' !in u1 && '_' !in u2
    requires SavedDocId(u1, l1) == SavedDocId(u2, l2)
    ensures u1 == u2 && l1 == l2
  {
    var k := SavedDocId(u1, l1);
    assert k[|u1|] == '_' && SavedDocId(u2, l2)[|u2|] == '_';
    assert u1 == k[..|u1|] == u2;
    assert l1 == k[|u1| + 1..] == l2;
  }

  /** Without that condition two pairs can share a record. */
  lemma SavedDocIdCollision()
    ensures SavedDocId("a_b", "c") == SavedDocId("a", "b_c")
  {
  }

  datatype ToggleResult = ToggleResult(records: map<DocId, SavedListing>, saved: bool)

  /** The toggle on the `savedListings` collection: delete the pair's record
      if it exists, create it otherwise. */
  function ToggleSaved(records: map<DocId, SavedListing>, userId: DocId, listingId: DocId,
                       now: Timestamp): (r: ToggleResult)
    ensures var key := SavedDocId(userId, listingId);
      && (r.saved <==> key !in records)
      && (r.saved <==> key in r.records)
      && (r.saved ==> r.records[key] == SavedListing(listingId, userId, Some(now)))
      && (forall k :: k != key ==> (k in r.records <==> k in records))
      && (forall k :: k != key && k in records ==> r.records[k] == records[k])
  {
    var key := SavedDocId(userId, listingId);
    if key in records then ToggleResult(records - {key}, false)
    else ToggleResult(records[key := SavedListing(listingId, userId, Some(now))], true)
  }

  /** Toggling twice restores which records exist; if the pair was not saved,
      the collection is exactly as before. */
  lemma ToggleTwiceRestores(records: map<DocId, SavedListing>, userId: DocId, listingId: DocId,
                            t1: Timestamp, t2: Timestamp)
    ensures var once := ToggleSaved(records, userId, listingId, t1);
            var twice := ToggleSaved(once.records, userId, listingId, t2);
            && twice.saved == !once.saved
            && twice.records.Keys == records.Keys
            && (forall k :: k in records && k != SavedDocId(userId, listingId) ==> twice.records[k] == records[k])
            && (SavedDocId(userId, listingId) !in records ==> twice.records == records)
  {
    var key := SavedDocId(userId, listingId);
    var once := ToggleSaved(records, userId, listingId, t1);
    var twice := ToggleSaved(once.records, userId, listingId, t2);
    assert twice.records.Keys == records.Keys;
  }

  /** Toggling one pair leaves the saved state of every other pair alone. */
  lemma ToggleOtherPairUnaffected(records: map<DocId, SavedListing>, userId: DocId, listingId: DocId,
                                  now: Timestamp, otherUser: DocId, otherListing: DocId)
    requires '_' !in userId && '_' !in otherUser
    requires (userId, listingId) != (otherUser, otherListing)
    ensures var key := SavedDocId(otherUser, otherListing);
            key in ToggleSaved(records, userId, listingId, now).records <==> key in records
  {
    if SavedDocId(otherUser, otherListing) == SavedDocId(userId, listingId) {
      SavedDocIdInjective(userId, listingId, otherUser, otherListing);
    }
  }

  /** POST: after authentication and validation, toggles the caller's record
      for the listing and reports whether it is now saved. */
  method Toggle(db: Store, caller: Caller, req: ToggleRequest, now: Timestamp)
    returns (resp: Response<bool>)
    modifies db
    ensures caller.Anonymous? ==> resp == Unauthorized
    ensures caller.SignedIn? && !Truthy(req.listingId) ==> resp == BadRequest(MissingListingIdError)
    ensures !resp.Ok? ==> db.State() == old(db.State())
    ensures caller.SignedIn? && Truthy(req.listingId) ==>
      var outcome := ToggleSaved(old(db.savedListings), caller.uid, req.listingId.value, now);
      && resp == Ok(outcome.saved)
      && db.State() == old(db.State()).(savedListings := outcome.records)
  {
    if caller.Anonymous? {
      return Unauthorized;
    }
    var userId := caller.uid;
    if !Truthy(req.listingId) {
      return BadRequest(MissingListingIdError);
    }
    var listingId := req.listingId.value;
    var savedDocId := SavedDocId(userId, listingId);
    if savedDocId in db.savedListings {
      db.savedListings := db.savedListings - {savedDocId};
      return Ok(false);
    }
    db.savedListings := db.savedListings[savedDocId := SavedListing(listingId, userId, Some(now))];
    return Ok(true);
  }

  datatype SavedEntry = SavedEntry(listingId: DocId, savedAt: Timestamp)

  function EntryOf(r: SavedListing): SavedEntry {
    SavedEntry(r.listingId, OrEpoch(r.savedAt))
  }

  ghost predicate OwnedBy(records: map<DocId, SavedListing>, id: DocId, uid: DocId) {
    id in records && records[id].userId == uid
  }

  /** `entries` lists the caller's save records one by one, in ascending
      document id (the query's order), as `ids` names them. */
  ghost predicate ListsOwned(entries: seq<SavedEntry>, records: map<DocId, SavedListing>,
                             uid: DocId, ids: seq<DocId>)
  {
    && |ids| == |entries|
    && (forall id :: id in ids <==> OwnedBy(records, id, uid))
    && (forall i, j :: 0 <= i < j < |ids| ==> ids[i] != ids[j] && IdLess(ids[i], ids[j]))
    && (forall i :: 0 <= i < |ids| ==> ids[i] in records && entries[i] == EntryOf(records[ids[i]]))
  }

  /** GET: one entry per save record of the caller, and no other. */
  method List(db: Store, caller: Caller) returns (resp: Response<seq<SavedEntry>>)
    ensures caller.Anonymous? ==> resp == Unauthorized
    ensures caller.SignedIn? ==> resp.Ok?
    ensures resp.Ok? ==> caller.SignedIn?
    ensures resp.Ok? ==>
      var uid, entries := caller.uid, resp.body;
      && |entries| == |set id | id in db.savedListings && db.savedListings[id].userId == uid|
      && (forall i :: 0 <= i < |entries| ==>
            exists id :: OwnedBy(db.savedListings, id, uid) && entries[i] == EntryOf(db.savedListings[id]))
      && (forall id :: OwnedBy(db.savedListings, id, uid) ==> EntryOf(db.savedListings[id]) in entries)
      && exists ids :: ListsOwned(entries, db.savedListings, uid, ids)
  {
    if caller.Anonymous? {
      return Unauthorized;
    }
    var userId := caller.uid;
    var inQuery := set id | id in db.savedListings && db.savedListings[id].userId == userId;
    var docs := QueryInIdOrder(inQuery);
    var savedListings: seq<SavedEntry> := [];
    for i := 0 to |docs|
      invariant |savedListings| == i
      invariant forall k :: 0 <= k < i ==>
                  OwnedBy(db.savedListings, docs[k], userId)
                  && savedListings[k] == EntryOf(db.savedListings[docs[k]])
    {
      assert docs[i] in docs;
      savedListings := savedListings + [EntryOf(db.savedListings[docs[i]])];
    }
    forall id | OwnedBy(db.savedListings, id, userId)
      ensures EntryOf(db.savedListings[id]) in savedListings
    {
      assert id in inQuery;
      var k :| 0 <= k < |docs| && docs[k] == id;
      assert savedListings[k] == EntryOf(db.savedListings[id]);
    }
    assert ListsOwned(savedListings, db.savedListings, userId, docs);
    return Ok(savedListings);
  }
}
