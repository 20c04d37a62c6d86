/** The client-side session glue: the Firebase configuration gate, the
    auth-state callback that creates a user profile on first sign-in (with
    the display name split into first and last name), and `useAuth`. */
module AuthContext {
  import opened Json
  import opened Firestore

  /** `s.split(" ")`: the pieces between single spaces; never empty. */
  function Split(s: string): (parts: seq<string>)
    ensures |parts| >= 1
    ensures forall i :: 0 <= i < |parts| ==> ' ' !in parts[i]
    ensures parts[0] <= s && (|parts[0]| < |s| ==> s[|parts[0]|] == ' ')
  {
    if s == [] then [""]
    else
      var rest := Split(s[1..]);
      if s[0] == ' ' then [""] + rest
      else
        assert forall i :: 1 <= i < |rest| ==> rest[1..][i - 1] == rest[i];
        [[s[0]] + rest[0]] + rest[1..]
  }

  /** `parts.join(" ")` */
  function Join(parts: seq<string>): string {
    if |parts| == 0 then ""
    else if |parts| == 1 then parts[0]
    else parts[0] + " " + Join(parts[1..])
  }

  /** Joining the pieces with single spaces gives back the string. */
  lemma {:induction false} JoinSplit(s: string)
    ensures Join(Split(s)) == s
  {
    if s != [] {
      var rest := Split(s[1..]);
      JoinSplit(s[1..]);
      if s[0] == ' ' {
        assert Split(s) == [""] + rest;
        assert ([""] + rest)[1..] == rest;
      } else if |rest| == 1 {
        assert Split(s) == [[s[0]] + rest[0]];
      } else {
        assert Split(s) == [[s[0]] + rest[0]] + rest[1..];
        assert Join(rest) == rest[0] + " " + Join(rest[1..]);
      }
    }
  }

  /** A string splits into more than one piece exactly when it has a space. */
  lemma {:induction false} SplitMany(s: string)
    ensures |Split(s)| > 1 <==> ' ' in s
  {
    if s != [] {
      SplitMany(s[1..]);
      assert s == [s[0]] + s[1..];
    }
  }

  /** `nameParts[0] || ""` */
  function FirstName(displayName: Option<string>): string {
    Split(OrEmpty(displayName))[0]
  }

  /** `nameParts.slice(1).join(" ") || ""` */
  function LastName(displayName: Option<string>): string {
    Join(Split(OrEmpty(displayName))[1..])
  }

  /** The first name is the text before the first space, and first and last
      name re-joined by one space give back the display name. */
  lemma NameRoundTrip(displayName: string)
    ensures ' ' !in FirstName(Some(displayName)) && FirstName(Some(displayName)) <= displayName
    ensures ' ' in displayName ==>
              FirstName(Some(displayName)) + " " + LastName(Some(displayName)) == displayName
    ensures ' ' !in displayName ==>
              FirstName(Some(displayName)) == displayName && LastName(Some(displayName)) == ""
  {
    var parts := Split(displayName);
    JoinSplit(displayName);
    SplitMany(displayName);
    if displayName == "" {
      assert OrEmpty(Some(displayName)) == "";
    }
  }

  /** The signed-in account as the auth service reports it. */
  datatype FirebaseUser = FirebaseUser(
    uid: DocId,
    email: Option<string>,
    displayName: Option<string>,
    photoURL: Option<string>)

  /** The profile written for a new user. */
  function NewUserRecord(u: FirebaseUser, now: Timestamp): (r: User)
    ensures r.uid == u.uid && r.email == u.email && r.createdAt == now
    ensures r.firstName == FirstName(u.displayName) && r.lastName == LastName(u.displayName)
    ensures ' ' !in r.firstName
    ensures !Truthy(u.displayName) ==> r.firstName == "" && r.lastName == ""
    ensures Truthy(u.displayName) && ' ' in u.displayName.value ==>
              && r.firstName + " " + r.lastName == u.displayName.value
              && u.displayName.value[..|r.firstName| + 1] == r.firstName + " "
    ensures Truthy(u.displayName) && ' ' !in u.displayName.value ==>
              r.firstName == u.displayName.value && r.lastName == ""
    ensures !Truthy(u.photoURL) ==> r.profilePicture == ""
    ensures Truthy(u.photoURL) ==> r.profilePicture == u.photoURL.value
  {
    NameRoundTrip(OrEmpty(u.displayName));
    User(u.uid, u.email, FirstName(u.displayName), LastName(u.displayName), OrEmpty(u.photoURL), now)
  }

  /** The public configuration; an unset variable is "". */
  datatype FirebaseConfig = FirebaseConfig(apiKey: string, projectId: string)

  /** Initialisation goes ahead only with an API key that starts with "AIza"
      and a project id. */
  predicate ConfigUsable(c: FirebaseConfig) {
    c.apiKey != "" && "AIza" <= c.apiKey && c.projectId != ""
  }

  /** The provider's state: the current user, whether the first auth state
      is still awaited, and whether the auth service was set up. */
  class AuthProvider {
    var user: Option<FirebaseUser>
    var loading: bool
    var authReady: bool
    var subscribed: bool

    constructor ()
      ensures user == None && loading && !authReady && !subscribed
    {
      user, loading, authReady, subscribed := None, true, false, false;
    }

    /** The effect's `init`: with an unusable configuration it only stops
        loading; otherwise it sets up auth and subscribes to auth changes. */
    method Init(config: FirebaseConfig)
      modifies this
      ensures user == old(user)
      ensures !ConfigUsable(config) ==>
                !loading && authReady == old(authReady) && subscribed == old(subscribed)
      ensures ConfigUsable(config) ==> loading == old(loading) && authReady && subscribed
    {
      if !ConfigUsable(config) {
        loading := false;
        return;
      }
      authReady := true;
      subscribed := true;
    }

    /** The `onAuthStateChanged` callback: records the user, creates their
        profile if there is none (an existing one is left as it is), and
        stops loading. */
    method OnAuthStateChanged(db: Store, u: Option<FirebaseUser>, now: Timestamp)
      requires subscribed
      modifies this, db
      ensures user == u && !loading && authReady == old(authReady) && subscribed
      ensures u.None? || u.value.uid in old(db.users) ==> db.State() == old(db.State())
      ensures u.Some? && u.value.uid !in old(db.users) ==>
                db.State() == old(db.State()).(users := old(db.users)[u.value.uid := NewUserRecord(u.value, now)])
    {
      user := u;
      if u.Some? {
        var uid := u.value.uid;
        if uid !in db.users {
          db.users := db.users[uid := NewUserRecord(u.value, now)];
        }
      }
      loading := false;
    }
  }

  datatype AuthContextValue = AuthContextValue(user: Option<FirebaseUser>, loading: bool)

  datatype Outcome<T> = Value(value: T) | Throws(message: string)

  const OutsideProviderError := "useAuth must be used within an AuthProvider"

  /** `useAuth`: the provider's value, or an error outside any provider. */
  function UseAuth(context: Option<AuthContextValue>): (r: Outcome<AuthContextValue>)
    ensures r.Throws? <==> context.None?
    ensures r.Throws? ==> r.message == OutsideProviderError
    ensures context.Some? ==> r == Value(context.value)
  {
    if context.None? then Throws(OutsideProviderError) else Value(context.value)
  }
}
