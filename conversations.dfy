/** `POST /api/conversations` (find or create a conversation about a listing,
    and post its first message) and `GET /api/conversations` (the caller's
    inbox, newest first). */
module Conversations {
  import opened Json
  import opened Http
  import opened Firestore
  import Sorting

  datatype StartRequest = StartRequest(
    listingId: Option<string>,
    recipientId: Option<string>,
    initialMessage: Option<string>)

  const MissingFieldsError := "Missing required fields: listingId, recipientId, initialMessage"
  const SelfMessageError := "Cannot message yourself"
  const UnknownListingTitle := "Unknown Listing"

  predicate HasRequiredFields(req: StartRequest) {
    Truthy(req.listingId) && Truthy(req.recipientId) && Truthy(req.initialMessage)
  }

  /** `id` names a conversation the sender's query returns (the sender is a
      participant) that is about `listingId` and includes the recipient. */
  ghost predicate Candidate(convs: map<DocId, Conversation>, id: DocId,
                            sender: DocId, recipient: DocId, listingId: DocId)
  {
    id in convs && sender in convs[id].participants
    && convs[id].listingId == listingId && recipient in convs[id].participants
  }

  ghost predicate HasCandidate(convs: map<DocId, Conversation>,
                               sender: DocId, recipient: DocId, listingId: DocId)
  {
    exists id :: Candidate(convs, id, sender, recipient, listingId)
  }

  /** `id` is the candidate the scan meets first: no candidate precedes it in
      the query's document order. */
  ghost predicate FirstCandidate(convs: map<DocId, Conversation>, id: DocId,
                                 sender: DocId, recipient: DocId, listingId: DocId)
  {
    Candidate(convs, id, sender, recipient, listingId)
    && forall j :: Candidate(convs, j, sender, recipient, listingId) ==> !IdLess(j, id)
  }

  function NewConversation(sender: DocId, recipient: DocId, listingId: DocId,
                           text: string, now: Timestamp): Conversation
  {
    Conversation([sender, recipient], listingId, Some(text), Some(now), Some(now))
  }

  /** At most one conversation is the first candidate. */
  lemma FirstCandidateUnique(convs: map<DocId, Conversation>, a: DocId, b: DocId,
                             sender: DocId, recipient: DocId, listingId: DocId)
    requires FirstCandidate(convs, a, sender, recipient, listingId)
    requires FirstCandidate(convs, b, sender, recipient, listingId)
    ensures a == b
  {
    if a != b {
      IdLessTotal(a, b);
    }
  }

  /** When no conversation matched, the one just created is the first (and
      only) candidate, so a repeated request finds it. */
  lemma CreatedIsFirstCandidate(convs: map<DocId, Conversation>, newId: DocId,
                                sender: DocId, recipient: DocId, listingId: DocId,
                                text: string, now: Timestamp)
    requires !HasCandidate(convs, sender, recipient, listingId)
    ensures FirstCandidate(convs[newId := NewConversation(sender, recipient, listingId, text, now)],
                           newId, sender, recipient, listingId)
  {
    var convs' := convs[newId := NewConversation(sender, recipient, listingId, text, now)];
    forall j | Candidate(convs', j, sender, recipient, listingId)
      ensures !IdLess(j, newId)
    {
      if j != newId {
        assert Candidate(convs, j, sender, recipient, listingId);
      }
      IdLessIrreflexive(newId);
    }
  }

  /** POST: validates the request, reuses the first conversation of the
      sender's about the listing that includes the recipient or creates one,
      and always appends one unread message to it. `newConversationId` and
      `newMessageId` are the ids `add` assigns; `now` is the clock. */
  method Start(db: Store, caller: Caller, req: StartRequest, now: Timestamp,
               newConversationId: DocId, newMessageId: DocId)
    returns (resp: Response<DocId>)
    requires newConversationId !in db.conversations && newMessageId !in db.messages
    modifies db
    ensures caller.Anonymous? ==> resp == Unauthorized
    ensures caller.SignedIn? && !HasRequiredFields(req) ==> resp == BadRequest(MissingFieldsError)
    ensures caller.SignedIn? && HasRequiredFields(req) && caller.uid == req.recipientId.value
            ==> resp == BadRequest(SelfMessageError)
    ensures !resp.Created? ==> db.State() == old(db.State())
    ensures resp.Created? <==>
            caller.SignedIn? && HasRequiredFields(req) && caller.uid != req.recipientId.value
    ensures resp.Created? ==>
      var sender, recipient := caller.uid, req.recipientId.value;
      var listingId, text := req.listingId.value, req.initialMessage.value;
      && (HasCandidate(old(db.conversations), sender, recipient, listingId) ==>
            && FirstCandidate(old(db.conversations), resp.body, sender, recipient, listingId)
            && db.conversations == old(db.conversations))
      && (!HasCandidate(old(db.conversations), sender, recipient, listingId) ==>
            && resp.body == newConversationId
            && db.conversations == old(db.conversations)[newConversationId :=
                 NewConversation(sender, recipient, listingId, text, now)])
      && FirstCandidate(db.conversations, resp.body, sender, recipient, listingId)
      && db.messages == old(db.messages)[newMessageId := Message(resp.body, sender, text, now, false)]
      && db.State() == old(db.State()).(conversations := db.conversations, messages := db.messages)
  {
    if caller.Anonymous? {
      return Unauthorized;
    }
    var senderId := caller.uid;
    if !HasRequiredFields(req) {
      return BadRequest(MissingFieldsError);
    }
    var listingId, recipientId, text := req.listingId.value, req.recipientId.value, req.initialMessage.value;
    if senderId == recipientId {
      return BadRequest(SelfMessageError);
    }

    var inQuery := set id | id in db.conversations && senderId in db.conversations[id].participants;
    var docs := QueryInIdOrder(inQuery);
    var conversationId: Option<DocId> := None;
    var i := 0;
    while i < |docs|
      invariant 0 <= i <= |docs|
      invariant conversationId == None
      invariant forall k :: 0 <= k < i ==> !Candidate(db.conversations, docs[k], senderId, recipientId, listingId)
    {
      assert docs[i] in docs;
      var data := db.conversations[docs[i]];
      if data.listingId == listingId && recipientId in data.participants {
        conversationId := Some(docs[i]);
        break;
      }
      i := i + 1;
    }

    if conversationId.None? {
      forall j | j in inQuery
        ensures !Candidate(db.conversations, j, senderId, recipientId, listingId)
      {
        assert j in docs;
      }
      assert !HasCandidate(db.conversations, senderId, recipientId, listingId);
      CreatedIsFirstCandidate(db.conversations, newConversationId, senderId, recipientId, listingId, text, now);
      db.conversations := db.conversations[newConversationId :=
        NewConversation(senderId, recipientId, listingId, text, now)];
      conversationId := Some(newConversationId);
    } else {
      var found := conversationId.value;
      assert found in docs;
      assert Candidate(db.conversations, found, senderId, recipientId, listingId);
      forall j | Candidate(db.conversations, j, senderId, recipientId, listingId)
        ensures !IdLess(j, found)
      {
        assert j in inQuery;
        var p :| 0 <= p < |docs| && docs[p] == j;
        if p > i {
          IdLessIrreflexive(found);
          if IdLess(j, found) {
            IdLessTransitive(found, j, found);
          }
        } else if p == i {
          IdLessIrreflexive(found);
        }
      }
    }

    db.messages := db.messages[newMessageId := Message(conversationId.value, senderId, text, now, false)];
    return Created(conversationId.value);
  }

  /** Starting the same conversation twice yields one conversation, found
      again by the second request, and two messages. */
  method StartTwice(db: Store, sender: DocId, req: StartRequest, now1: Timestamp, now2: Timestamp,
                    conversationId1: DocId, messageId1: DocId,
                    conversationId2: DocId, messageId2: DocId)
    returns (first: Response<DocId>, second: Response<DocId>)
    requires conversationId1 !in db.conversations && messageId1 !in db.messages
    requires conversationId2 !in db.conversations && messageId2 !in db.messages
    requires conversationId1 != conversationId2 && messageId1 != messageId2
    modifies db
    ensures first.Created? <==> second.Created?
    ensures first.Created? ==>
      && second.body == first.body
      && |db.conversations.Keys - old(db.conversations).Keys| <= 1
      && db.conversations.Keys <= old(db.conversations).Keys + {conversationId1}
      && db.messages.Keys == old(db.messages).Keys + {messageId1, messageId2}
  {
    first := Start(db, SignedIn(sender), req, now1, conversationId1, messageId1);
    ghost var afterFirst := db.conversations;
    second := Start(db, SignedIn(sender), req, now2, conversationId2, messageId2);
    if first.Created? {
      FirstCandidateUnique(afterFirst, first.body, second.body,
                           sender, req.recipientId.value, req.listingId.value);
      assert db.conversations.Keys - old(db.conversations).Keys <= {conversationId1};
    }
  }

  datatype UserSummary = UserSummary(uid: DocId, firstName: string, lastName: string, profilePicture: string)

  /** One inbox entry, as the GET handler returns it. */
  datatype ConversationView = ConversationView(
    id: DocId,
    participants: seq<DocId>,
    listingId: DocId,
    listingTitle: string,
    otherUser: Option<UserSummary>,
    lastMessage: string,
    lastMessageAt: Timestamp)

  /** `participants.find(id => id !== uid)`: the first participant other
      than the caller. */
  function OtherParticipant(participants: seq<DocId>, uid: DocId): (r: Option<DocId>)
    ensures r.Some? ==> r.value != uid && r.value in participants
    ensures r.None? <==> forall p :: p in participants ==> p == uid
  {
    if participants == [] then None
    else if participants[0] != uid then Some(participants[0])
    else
      assert participants == [participants[0]] + participants[1..];
      OtherParticipant(participants[1..], uid)
  }

  /** The participant found is the first one that is not the caller. */
  lemma {:induction false} OtherParticipantIsFirst(participants: seq<DocId>, uid: DocId)
    returns (i: nat)
    requires OtherParticipant(participants, uid).Some?
    ensures i < |participants| && participants[i] == OtherParticipant(participants, uid).value
    ensures forall k :: 0 <= k < i ==> participants[k] == uid
  {
    if participants[0] != uid {
      i := 0;
    } else {
      var j := OtherParticipantIsFirst(participants[1..], uid);
      i := j + 1;
    }
  }

  /** The other participant's profile, or none when there is no other
      participant or no user record for them. */
  function OtherUser(users: map<DocId, User>, participants: seq<DocId>, uid: DocId): Option<UserSummary> {
    var other := OtherParticipant(participants, uid);
    if Truthy(other) && other.value in users then
      var u := users[other.value];
      Some(UserSummary(other.value, u.firstName, u.lastName, u.profilePicture))
    else None
  }

  function ListingTitle(listings: map<DocId, Listing>, listingId: DocId): string {
    if listingId in listings then listings[listingId].title else UnknownListingTitle
  }

  /** The inbox entry for conversation `id`, seen by `uid`. */
  function ViewOf(users: map<DocId, User>, listings: map<DocId, Listing>, uid: DocId,
                  id: DocId, c: Conversation): (v: ConversationView)
    ensures v.id == id && v.participants == c.participants && v.listingId == c.listingId
    ensures v.otherUser.Some? ==>
              var o := v.otherUser.value;
              && OtherParticipant(c.participants, uid) == Some(o.uid)
              && o.uid != uid && o.uid in c.participants && o.uid in users
              && o.firstName == users[o.uid].firstName && o.lastName == users[o.uid].lastName
              && o.profilePicture == users[o.uid].profilePicture
    ensures v.otherUser.None? <==>
              var other := OtherParticipant(c.participants, uid);
              other.None? || other.value == "" || other.value !in users
    ensures v.listingTitle == if c.listingId in listings then listings[c.listingId].title
                              else UnknownListingTitle
    ensures v.lastMessage == OrEmpty(c.lastMessage)
    ensures c.lastMessageAt.None? ==> v.lastMessageAt == Epoch
    ensures c.lastMessageAt.Some? ==> v.lastMessageAt == c.lastMessageAt.value
  {
    ConversationView(id, c.participants, c.listingId, ListingTitle(listings, c.listingId),
                     OtherUser(users, c.participants, uid), OrEmpty(c.lastMessage),
                     OrEpoch(c.lastMessageAt))
  }

  function LastMessageSeconds(v: ConversationView): int {
    v.lastMessageAt.seconds
  }

  ghost predicate InInbox(convs: map<DocId, Conversation>, id: DocId, uid: DocId) {
    id in convs && uid in convs[id].participants
  }

  /** Entries built from distinct conversation ids each occur once. */
  lemma {:induction false} EntriesOccurOnce(views: seq<ConversationView>, docs: seq<DocId>, k: nat)
    requires |views| == |docs| && k < |docs|
    requires forall i, j :: 0 <= i < j < |docs| ==> docs[i] != docs[j]
    requires forall i :: 0 <= i < |docs| ==> views[i].id == docs[i]
    ensures multiset(views)[views[k]] == 1
  {
    var n := |views| - 1;
    assert views == views[..n] + [views[n]];
    if k == n {
      assert views[k] !in views[..n];
    } else {
      EntriesOccurOnce(views[..n], docs[..n], k);
      assert views[n] != views[k];
    }
  }

  /** `views` lists each conversation of `uid`'s inbox exactly once, as its entry. */
  ghost predicate IsInbox(views: seq<ConversationView>, convs: map<DocId, Conversation>,
                          users: map<DocId, User>, listings: map<DocId, Listing>, uid: DocId)
  {
    && (forall i :: 0 <= i < |views| ==>
          && InInbox(convs, views[i].id, uid)
          && views[i] == ViewOf(users, listings, uid, views[i].id, convs[views[i].id]))
    && (forall id :: InInbox(convs, id, uid) ==>
          multiset(views)[ViewOf(users, listings, uid, id, convs[id])] == 1)
  }

  /** The entries built in query order, in any permutation, form the inbox. */
  lemma InboxFromQuery(views: seq<ConversationView>, built: seq<ConversationView>, docs: seq<DocId>,
                       convs: map<DocId, Conversation>, users: map<DocId, User>,
                       listings: map<DocId, Listing>, uid: DocId)
    requires forall id :: id in docs <==> InInbox(convs, id, uid)
    requires forall i, j :: 0 <= i < j < |docs| ==> docs[i] != docs[j]
    requires |built| == |docs|
    requires forall k :: 0 <= k < |docs| ==>
               && InInbox(convs, docs[k], uid)
               && built[k] == ViewOf(users, listings, uid, docs[k], convs[docs[k]])
    requires multiset(views) == multiset(built)
    ensures IsInbox(views, convs, users, listings, uid)
  {
    forall id | InInbox(convs, id, uid)
      ensures multiset(views)[ViewOf(users, listings, uid, id, convs[id])] == 1
    {
      var k :| 0 <= k < |docs| && docs[k] == id;
      EntriesOccurOnce(built, docs, k);
    }
    forall i | 0 <= i < |views|
      ensures InInbox(convs, views[i].id, uid)
      ensures views[i] == ViewOf(users, listings, uid, views[i].id, convs[views[i].id])
    {
      assert views[i] in multiset(views);
      assert views[i] in built;
    }
  }

  /** GET: the caller's conversations, each exactly once, enriched with the
      other participant and the listing title, most recent first. */
  method List(db: Store, caller: Caller) returns (resp: Response<seq<ConversationView>>)
    ensures caller.Anonymous? ==> resp == Unauthorized
    ensures caller.SignedIn? ==> resp.Ok?
    ensures resp.Ok? ==> caller.SignedIn?
    ensures resp.Ok? ==> IsInbox(resp.body, db.conversations, db.users, db.listings, caller.uid)
    ensures resp.Ok? ==> Sorting.SortedDesc(resp.body, LastMessageSeconds)
  {
    if caller.Anonymous? {
      return Unauthorized;
    }
    var uid := caller.uid;
    var inQuery := set id | id in db.conversations && uid in db.conversations[id].participants;
    var docs := QueryInIdOrder(inQuery);
    var conversations: seq<ConversationView> := [];
    for i := 0 to |docs|
      invariant |conversations| == i
      invariant forall k :: 0 <= k < i ==>
                  && InInbox(db.conversations, docs[k], uid)
                  && conversations[k] == ViewOf(db.users, db.listings, uid, docs[k], db.conversations[docs[k]])
    {
      assert docs[i] in docs;
      var data := db.conversations[docs[i]];
      conversations := conversations + [ViewOf(db.users, db.listings, uid, docs[i], data)];
    }
    var a := new ConversationView[|conversations|](k requires 0 <= k < |conversations| => conversations[k]);
    assert a[..] == conversations;
    Sorting.SortDesc(a, LastMessageSeconds);
    resp := Ok(a[..]);
    InboxFromQuery(a[..], conversations, docs, db.conversations, db.users, db.listings, uid);
  }
}
