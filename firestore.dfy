/** The document store the route handlers talk to, held in memory: one map per
    collection, keyed by document id, and the order in which a query returns
    its documents. */
module Firestore {
  import opened Json

  type DocId = string

  type Nanos = n: int | 0 <= n < 1_000_000_000

  /** A stored timestamp, serialised as `{seconds, nanoseconds}`. */
  datatype Timestamp = Timestamp(seconds: int, nanoseconds: Nanos)

  const Epoch := Timestamp(0, 0)

  /** `{seconds: t?.seconds || 0, nanoseconds: t?.nanoseconds || 0}` */
  function OrEpoch(t: Option<Timestamp>): Timestamp {
    t.GetOr(Epoch)
  }

  /** A position on the time line, for ordering by a timestamp field. */
  function TimeKey(t: Timestamp): int {
    t.seconds * 1_000_000_000 + t.nanoseconds
  }

  datatype User = User(
    uid: DocId,
    email: Option<string>,
    firstName: string,
    lastName: string,
    profilePicture: string,
    createdAt: Timestamp)

  datatype Listing = Listing(
    title: string,
    description: string,
    price: Option<real>,
    listingType: string,
    clothingType: Option<string>,
    userId: DocId,
    createdAt: Option<Timestamp>,
    imageUrls: Option<seq<string>>)

  datatype Conversation = Conversation(
    participants: seq<DocId>,
    listingId: DocId,
    lastMessage: Option<string>,
    lastMessageAt: Option<Timestamp>,
    createdAt: Option<Timestamp>)

  datatype Message = Message(
    conversationId: DocId,
    senderId: DocId,
    content: string,
    createdAt: Timestamp,
    read: bool)

  datatype SavedListing = SavedListing(
    listingId: DocId,
    userId: DocId,
    savedAt: Option<Timestamp>)

  /** An absent `isActive` is modelled as false (it is falsy). */
  datatype Affiliate = Affiliate(
    isActive: bool,
    clickCount: Option<int>,
    updatedAt: Option<Timestamp>)

  /** The contents of every collection at one moment. */
  datatype DbState = DbState(
    conversations: map<DocId, Conversation>,
    messages: map<DocId, Message>,
    savedListings: map<DocId, SavedListing>,
    listings: map<DocId, Listing>,
    affiliates: map<DocId, Affiliate>,
    users: map<DocId, User>)

  /** The database handle shared by every route. */
  class Store {
    var conversations: map<DocId, Conversation>
    var messages: map<DocId, Message>
    var savedListings: map<DocId, SavedListing>
    var listings: map<DocId, Listing>
    var affiliates: map<DocId, Affiliate>
    var users: map<DocId, User>

    function State(): DbState
      reads this
    {
      DbState(conversations, messages, savedListings, listings, affiliates, users)
    }

    constructor ()
      ensures State() == DbState(map[], map[], map[], map[], map[], map[])
    {
      conversations, messages, savedListings := map[], map[], map[];
      listings, affiliates, users := map[], map[], map[];
    }
  }

  /** The order of document ids: lexicographic by character code. A query
      without an `orderBy` returns its documents in this order. */
  predicate IdLess(a: DocId, b: DocId) {
    if |a| == 0 then |b| > 0
    else if |b| == 0 then false
    else if a[0] != b[0] then a[0] < b[0]
    else IdLess(a[1..], b[1..])
  }

  lemma {:induction false} IdLessIrreflexive(a: DocId)
    ensures !IdLess(a, a)
  {
    if |a| > 0 {
      IdLessIrreflexive(a[1..]);
    }
  }

  lemma {:induction false} IdLessTransitive(a: DocId, b: DocId, c: DocId)
    requires IdLess(a, b) && IdLess(b, c)
    ensures IdLess(a, c)
  {
    if |a| > 0 && |b| > 0 && |c| > 0 && a[0] == b[0] && b[0] == c[0] {
      IdLessTransitive(a[1..], b[1..], c[1..]);
    }
  }

  lemma {:induction false} IdLessTotal(a: DocId, b: DocId)
    requires a != b
    ensures IdLess(a, b) || IdLess(b, a)
  {
    if |a| > 0 && |b| > 0 && a[0] == b[0] {
      assert a == [a[0]] + a[1..] && b == [b[0]] + b[1..];
      IdLessTotal(a[1..], b[1..]);
    }
  }

  /** `m` comes first among the ids of `s`. */
  predicate IsLeastId(m: DocId, s: set<DocId>) {
    m in s && forall k :: k in s ==> !IdLess(k, m)
  }

  lemma {:induction false} LeastIdExists(s: set<DocId>)
    requires s != {}
    ensures exists m :: IsLeastId(m, s)
    decreases |s|
  {
    var x :| x in s;
    if s == {x} {
      IdLessIrreflexive(x);
      assert IsLeastId(x, s);
    } else {
      LeastIdExists(s - {x});
      var m :| IsLeastId(m, s - {x});
      if IdLess(x, m) {
        forall k | k in s
          ensures !IdLess(k, x)
        {
          if k == x {
            IdLessIrreflexive(x);
          } else if IdLess(k, x) {
            IdLessTransitive(k, x, m);
          }
        }
        assert IsLeastId(x, s);
      } else {
        assert IsLeastId(m, s);
      }
    }
  }

  /** The first of a non-empty set of ids; every other id comes after it. */
  method LeastId(s: set<DocId>) returns (m: DocId)
    requires s != {}
    ensures m in s
    ensures forall k :: k in s && k != m ==> IdLess(m, k)
  {
    LeastIdExists(s);
    m :| IsLeastId(m, s);
    forall k | k in s && k != m
      ensures IdLess(m, k)
    {
      IdLessTotal(m, k);
    }
  }

  /** The documents a query matched, in the order its snapshot lists them:
      each matched id exactly once, ascending. */
  method QueryInIdOrder(keys: set<DocId>) returns (ids: seq<DocId>)
    ensures forall k :: k in ids <==> k in keys
    ensures |ids| == |keys|
    ensures forall i, j :: 0 <= i < j < |ids| ==> IdLess(ids[i], ids[j])
    ensures forall i, j :: 0 <= i < j < |ids| ==> ids[i] != ids[j]
  {
    ids := [];
    var rest := keys;
    while rest != {}
      invariant forall k :: k in keys <==> k in ids || k in rest
      invariant forall k :: k in ids ==> k !in rest
      invariant |ids| + |rest| == |keys|
      invariant forall i, j :: 0 <= i < j < |ids| ==> IdLess(ids[i], ids[j])
      invariant forall i, k :: 0 <= i < |ids| && k in rest ==> IdLess(ids[i], k)
      decreases |rest|
    {
      var m := LeastId(rest);
      ids := ids + [m];
      rest := rest - {m};
    }
    forall i, j | 0 <= i < j < |ids|
      ensures ids[i] != ids[j]
    {
      IdLessIrreflexive(ids[i]);
    }
  }
}
