/**
 * The user controller: the follow/unfollow toggle with its counters and
 * notification, the profile update with its field sanitisation and
 * profile-picture rule, and the user search guard and enrichment.
 */
module Users {
  import opened Common
  import opened Store

  /**
   * The documents after a follow toggle by u on t, given whether the handler
   * judged u to be following t: u's `following` and t's `followers` are pulled
   * or pushed together and each counter is reset to its list's length. Each
   * document saves only the paths it changed, so when u == t both changes land.
   */
  function ApplyFollow(users: map<UserId, Account>, u: UserId, t: UserId, wasFollowing: bool): (r: map<UserId, Account>)
    requires u in users && t in users
    ensures r.Keys == users.Keys
    ensures forall v :: v in users && v != u && v != t ==> r[v] == users[v]
    ensures r[u].followingCount == |r[u].following| && r[t].followersCount == |r[t].followers|
    ensures r[u].following == if wasFollowing then Pull(users[u].following, t) else users[u].following + [t]
    ensures r[t].followers == if wasFollowing then Pull(users[t].followers, u) else users[t].followers + [u]
    ensures t in r[u].following <==> !wasFollowing
    ensures u in r[t].followers <==> !wasFollowing
    ensures forall y :: y != t ==> (y in r[u].following <==> y in users[u].following)
    ensures forall y :: y != u ==> (y in r[t].followers <==> y in users[t].followers)
    ensures r[u].email == users[u].email && r[u].fields == users[u].fields && r[u].passwordHash == users[u].passwordHash
    ensures r[t].email == users[t].email && r[t].fields == users[t].fields && r[t].passwordHash == users[t].passwordHash
  {
    var following := if wasFollowing then Pull(users[u].following, t) else users[u].following + [t];
    var afterUser := users[u := users[u].(following := following, followingCount := |following|)];
    var followers := if wasFollowing then Pull(users[t].followers, u) else users[t].followers + [u];
    afterUser[t := afterUser[t].(followers := followers, followersCount := |followers|)]
  }

  /** The follow toggle with the membership test made on the cast (lower-case) target id. */
  function FollowStep(users: map<UserId, Account>, u: UserId, t: UserId): (r: map<UserId, Account>)
    requires u in users && t in users
    ensures r.Keys == users.Keys
    ensures r[u].following == Toggle(users[u].following, t)
    ensures u != t ==> r[t].following == users[t].following
    ensures t in r[u].following <==> t !in users[u].following
  {
    ApplyFollow(users, u, t, t in users[u].following)
  }

  /**
   * The follow toggle as written: the membership test compares the printed
   * (lower-case) ids in `following` with the target id exactly as the client
   * sent it, while the pull and push use the cast id.
   */
  function FollowStepAsWritten(users: map<UserId, Account>, u: UserId, target: string): (r: map<UserId, Account>)
    requires u in users && Canonical(target) in users
    ensures r.Keys == users.Keys
    ensures Canonical(target) in r[u].following <==> target !in users[u].following
    ensures target in users[u].following ==> r[u].following == Pull(users[u].following, Canonical(target))
    ensures target !in users[u].following ==> r[u].following == users[u].following + [Canonical(target)]
    ensures r[u].followingCount == |r[u].following|
  {
    ApplyFollow(users, u, Canonical(target), target in users[u].following)
  }

  /**
   * An upper-case target id that the user already follows is judged not
   * followed: the as-written toggle pushes the id a second time, where the
   * corrected one unfollows.
   */
  lemma UppercaseTargetFollowsTwice()
    ensures
      var me := "bbbbbbbbbbbbbbbbbbbbbbbb";
      var them := "aaaaaaaaaaaaaaaaaaaaaaaa";
      var sent := "AAAAAAAAAAAAAAAAAAAAAAAA";
      var users := map[me := Account("me@x.io", "h", map[], [them], [], 1, 0, false),
                       them := Account("them@x.io", "h", map[], [], [me], 0, 1, false)];
      && IsObjectId(sent) && Canonical(sent) == them
      && FollowStepAsWritten(users, me, sent)[me].following == [them, them]
      && FollowStepAsWritten(users, me, sent)[me].followingCount == 2
      && FollowStep(users, me, Canonical(sent))[me].following == []
  {
    var me := "bbbbbbbbbbbbbbbbbbbbbbbb";
    var them := "aaaaaaaaaaaaaaaaaaaaaaaa";
    var sent := "AAAAAAAAAAAAAAAAAAAAAAAA";
    var users := map[me := Account("me@x.io", "h", map[], [them], [], 1, 0, false),
                     them := Account("them@x.io", "h", map[], [], [me], 0, 1, false)];
    assert Canonical(sent) == them by {
      forall i | 0 <= i < 24 ensures Canonical(sent)[i] == them[i] {
        assert sent[i] == 'A' && them[i] == 'a';
      }
    }
    assert sent !in users[me].following by {
      assert sent != them by { assert sent[0] != them[0]; }
    }
    assert Pull([them], them) == [];
  }

  /** For an id sent as printed (lower case), the toggle as written and the corrected one agree. */
  lemma AsWrittenAgreesOnPrintedIds(users: map<UserId, Account>, u: UserId, target: string)
    requires u in users && Canonical(target) in users && Canonical(target) == target
    ensures FollowStepAsWritten(users, u, target) == FollowStep(users, u, target)
  {
  }

  /** A user's `following` entry for t and t's `followers` entry for the user agree. */
  predicate PairConsistent(users: map<UserId, Account>, u: UserId, t: UserId)
    requires u in users && t in users
  {
    t in users[u].following <==> u in users[t].followers
  }

  /** The toggle keeps the pair consistent and, on a consistent pair, reports the prior state correctly. */
  lemma FollowStepKeepsPairConsistent(users: map<UserId, Account>, u: UserId, t: UserId)
    requires u in users && t in users
    ensures PairConsistent(FollowStep(users, u, t), u, t)
  {
  }

  /** Following and then unfollowing (or the reverse) restores both lists' membership on a consistent pair. */
  lemma FollowTwiceRestores(users: map<UserId, Account>, u: UserId, t: UserId)
    requires u in users && t in users && PairConsistent(users, u, t)
    ensures var twice := FollowStep(FollowStep(users, u, t), u, t);
            && (forall y :: y in twice[u].following <==> y in users[u].following)
            && (forall y :: y in twice[t].followers <==> y in users[t].followers)
  {
    var once := FollowStep(users, u, t);
    var twice := FollowStep(once, u, t);
    forall y ensures y in twice[t].followers <==> y in users[t].followers {
      if y == u {
        assert u in once[t].followers <==> t !in users[u].following;
      }
    }
  }

  datatype FollowResult =
    | InvalidUserId          // 400 'Invalid user ID'
    | InvalidTargetId        // 400 'Invalid target user ID'
    | FollowUserNotFound     // 404 'User not found'
    | FollowServerError      // 500: a write or the commit failed and the transaction was aborted
    | Toggled(isFollowing: bool)

  /**
   * followUser: validate both ids, load both users (a missing one aborts with
   * 404), toggle the pair, create a follow notification only when following,
   * and commit; `fault` makes a write or the commit fail, which aborts
   * everything. The membership test is made on the cast target id (see
   * FollowStepAsWritten for the comparison as written).
   */
  method FollowUser(db: Database, userId: UserId, targetUserId: Option<string>, fault: bool) returns (r: FollowResult)
    modifies db
    ensures db.posts == old(db.posts) && db.comments == old(db.comments) && db.messages == old(db.messages)
    ensures db.conversations == old(db.conversations)
    ensures !IsObjectId(userId) ==> r == InvalidUserId
    ensures IsObjectId(userId) && (targetUserId.None? || !IsObjectId(targetUserId.value)) ==> r == InvalidTargetId
    ensures IsObjectId(userId) && targetUserId.Some? && IsObjectId(targetUserId.value) ==>
      var u, t := Canonical(userId), Canonical(targetUserId.value);
      && (u !in old(db.users) || t !in old(db.users) ==> r == FollowUserNotFound)
      && (u in old(db.users) && t in old(db.users) && fault ==> r == FollowServerError)
      && (u in old(db.users) && t in old(db.users) && !fault ==>
            var was := t in old(db.users)[u].following;
            && r == Toggled(!was)
            && db.users == FollowStep(old(db.users), u, t)
            && db.notifications == old(db.notifications) + (if was then [] else [Notification(t, u, FollowNotice, None, None, false)]))
    ensures !r.Toggled? ==> db.users == old(db.users) && db.notifications == old(db.notifications)
  {
    if !IsObjectId(userId) {
      return InvalidUserId;
    }
    if targetUserId.None? || !IsObjectId(targetUserId.value) {
      return InvalidTargetId;
    }
    var u, t := Canonical(userId), Canonical(targetUserId.value);
    if u !in db.users || t !in db.users {
      return FollowUserNotFound;
    }
    var user, target := db.users[u], db.users[t];
    var isFollowing := t in user.following;
    var notices: seq<Notification> := [];
    if isFollowing {
      user := user.(following := Pull(user.following, t));
      user := user.(followingCount := |user.following|);
      target := target.(followers := Pull(target.followers, u));
      target := target.(followersCount := |target.followers|);
    } else {
      user := user.(following := user.following + [t]);
      user := user.(followingCount := |user.following|);
      target := target.(followers := target.followers + [u]);
      target := target.(followersCount := |target.followers|);
      notices := [Notification(t, u, FollowNotice, None, None, false)];
    }
    if fault {
      return FollowServerError;
    }
    db.users := db.users[u := db.users[u].(following := user.following, followingCount := user.followingCount)];
    db.users := db.users[t := db.users[t].(followers := target.followers, followersCount := target.followersCount)];
    db.notifications := db.notifications + notices;
    r := Toggled(!isFollowing);
  }

  /** The keys updateUser deletes from the request body before updating. */
  const StrippedFields: set<string> := {"password", "email", "role"}

  /** The copy of the body updateUser sends to the database. */
  function Strip(body: map<string, string>): (r: map<string, string>)
    ensures r.Keys == body.Keys - StrippedFields
    ensures forall k :: k in r ==> r[k] == body[k]
  {
    body - StrippedFields
  }

  /** The schema types of the user paths, as far as they decide how a string from the body is cast. */
  datatype SchemaType =
    | StringPath(trimmed: bool)   // String, with or without the `trim` option
    | BooleanPath
    | IdArrayPath                 // [ObjectId]
    | NumberPath
    | DatePath

  /**
   * The type of each path of the user schema; other keys are not schema
   * paths, and strict mode drops them from an update.
   */
  function UserPathType(k: string): (r: Option<SchemaType>)
    ensures r == Some(StringPath(true)) <==> k in {"fullName", "username"}
    ensures r == Some(StringPath(false)) <==> k in {"email", "password", "bio", "socketId", "profilePic"}
    ensures r == Some(BooleanPath) <==> k in {"isNewUser", "onboardingComplete", "isOnline"}
    ensures r == Some(IdArrayPath) <==> k in {"followers", "following", "blockedUsers"}
    ensures r == Some(NumberPath) <==> k in {"followersCount", "followingCount"}
    ensures r == Some(DatePath) <==> k == "lastSeen"
  {
    if k == "fullName" || k == "username" then Some(StringPath(true))
    else if k == "email" || k == "password" || k == "bio" || k == "socketId" || k == "profilePic" then Some(StringPath(false))
    else if k == "isNewUser" || k == "onboardingComplete" || k == "isOnline" then Some(BooleanPath)
    else if k == "followers" || k == "following" || k == "blockedUsers" then Some(IdArrayPath)
    else if k == "followersCount" || k == "followingCount" then Some(NumberPath)
    else if k == "lastSeen" then Some(DatePath)
    else None
  }

  /** Mongoose's Boolean cast of a string: three spellings each for true and false, anything else is a CastError. */
  function CastBoolean(s: string): (r: Option<bool>)
    ensures r == Some(true) <==> s in {"true", "1", "yes"}
    ensures r == Some(false) <==> s in {"false", "0", "no"}
  {
    if s == "true" || s == "1" || s == "yes" then Some(true)
    else if s == "false" || s == "0" || s == "no" then Some(false)
    else None
  }

  /**
   * Whether the string the body gives for a path survives the cast to the
   * path's type. A string for an ObjectId array becomes a one-element array
   * and must be a valid id; `toNumber` is `Number(s)` (None for NaN) and
   * `isDate` says whether the Date cast accepts s.
   */
  predicate CastSucceeds(k: string, v: string, toNumber: string -> Option<int>, isDate: string -> bool) {
    match UserPathType(k)
    case None => true
    case Some(StringPath(_)) => true
    case Some(BooleanPath) => CastBoolean(v).Some?
    case Some(IdArrayPath) => IsObjectId(v)
    case Some(NumberPath) => toNumber(v).Some?
    case Some(DatePath) => isDate(v)
  }

  /** Some value of the update fails its cast: the query rejects with a CastError. */
  predicate CastFails(data: map<string, string>, toNumber: string -> Option<int>, isDate: string -> bool) {
    exists k :: k in data && !CastSucceeds(k, data[k], toNumber, isDate)
  }

  /** The username pattern `^[a-zA-Z0-9_]+$`, one character. */
  predicate IsUsernameChar(c: char) {
    ('a' <= c <= 'z') || ('A' <= c <= 'Z') || ('0' <= c <= '9') || c == '_'
  }

  /** The validators of the paths an update can reach, on the trimmed value: fullName at least 2 characters, username at least 3 from the pattern. */
  predicate ValidatorRejects(data: map<string, string>) {
    || ("fullName" in data && |Trim(data["fullName"])| < 2)
    || ("username" in data && (|Trim(data["username"])| < 3 || exists i :: 0 <= i < |Trim(data["username"])| && !IsUsernameChar(Trim(data["username"])[i])))
  }

  /** Another user already holds the (trimmed) username the update sets: the unique index rejects the write. */
  predicate UsernameClash(users: map<UserId, Account>, key: UserId, data: map<string, string>) {
    "username" in data && exists v :: v in users && v != key && "username" in users[v].fields && users[v].fields["username"] == Trim(data["username"])
  }

  /** The schema's string paths that live in an account's free-form fields. */
  const TextPaths: set<string> := {"fullName", "username", "bio", "socketId", "profilePic"}

  /** The value a string path stores: trimmed where the schema says so. */
  function StoredText(k: string, v: string): (r: string)
    ensures UserPathType(k) == Some(StringPath(true)) ==> r == Trim(v)
    ensures UserPathType(k) != Some(StringPath(true)) ==> r == v
  {
    if k == "fullName" || k == "username" then Trim(v) else v
  }

  /** The free-form fields after an update: each string path the data names takes its stored value. */
  function UpdatedFields(fields: map<string, string>, data: map<string, string>): (r: map<string, string>)
    ensures r.Keys == fields.Keys + (data.Keys * TextPaths)
    ensures forall k :: k in data && k in TextPaths ==> r[k] == StoredText(k, data[k])
    ensures forall k :: k in fields && !(k in data && k in TextPaths) ==> r[k] == fields[k]
  {
    fields + map k | k in data && k in TextPaths :: StoredText(k, data[k])
  }

  /** An ObjectId-array path set from one string: the one-element array of its cast. */
  /** The casts of the values an account stores succeed: ids for the two follow lists, numbers for their counters, a Boolean for isOnline. */
  predicate StoredCastsSucceed(data: map<string, string>, toNumber: string -> Option<int>) {
    && ("following" in data ==> IsObjectId(data["following"]))
    && ("followers" in data ==> IsObjectId(data["followers"]))
    && ("followingCount" in data ==> toNumber(data["followingCount"]).Some?)
    && ("followersCount" in data ==> toNumber(data["followersCount"]).Some?)
    && ("isOnline" in data ==> CastBoolean(data["isOnline"]).Some?)
  }

  function UpdatedIds(ids: seq<UserId>, data: map<string, string>, k: string): (r: seq<UserId>)
    requires k in data ==> IsObjectId(data[k])
    ensures k in data ==> r == [Canonical(data[k])] && IsObjectId(r[0])
    ensures k !in data ==> r == ids
  {
    if k in data then [Canonical(data[k])] else ids
  }

  /** A Number path set from a string: the number it casts to. */
  function UpdatedCount(n: int, data: map<string, string>, k: string, toNumber: string -> Option<int>): (r: int)
    requires k in data ==> toNumber(data[k]).Some?
    ensures k in data ==> Some(r) == toNumber(data[k])
    ensures k !in data ==> r == n
  {
    if k in data then toNumber(data[k]).value else n
  }

  /**
   * The user after `findByIdAndUpdate(id, data)` once the casts have
   * succeeded: each schema path the data names takes its cast value, the rest
   * is kept. isNewUser, onboardingComplete, blockedUsers and lastSeen are not
   * part of an account, so only their casts matter (UpdateRejected).
   */
  function ApplyUpdate(a: Account, data: map<string, string>, toNumber: string -> Option<int>): (r: Account)
    requires StoredCastsSucceed(data, toNumber)
    ensures r.fields == UpdatedFields(a.fields, data)
    ensures r.email == (if "email" in data then data["email"] else a.email)
    ensures r.passwordHash == (if "password" in data then data["password"] else a.passwordHash)
    ensures r.following == UpdatedIds(a.following, data, "following")
    ensures r.followers == UpdatedIds(a.followers, data, "followers")
    ensures r.followingCount == UpdatedCount(a.followingCount, data, "followingCount", toNumber)
    ensures r.followersCount == UpdatedCount(a.followersCount, data, "followersCount", toNumber)
    ensures "isOnline" in data ==> Some(r.online) == CastBoolean(data["isOnline"])
    ensures "isOnline" !in data ==> r.online == a.online
  {
    Account(
      if "email" in data then data["email"] else a.email,
      if "password" in data then data["password"] else a.passwordHash,
      UpdatedFields(a.fields, data),
      UpdatedIds(a.following, data, "following"),
      UpdatedIds(a.followers, data, "followers"),
      UpdatedCount(a.followingCount, data, "followingCount", toNumber),
      UpdatedCount(a.followersCount, data, "followersCount", toNumber),
      if "isOnline" in data then CastBoolean(data["isOnline"]).value else a.online)
  }

  /** What a successful cast says about the values ApplyUpdate stores. */
  lemma CastsHold(data: map<string, string>, toNumber: string -> Option<int>, isDate: string -> bool)
    requires !CastFails(data, toNumber, isDate)
    ensures StoredCastsSucceed(data, toNumber)
  {
    if "following" in data {
      assert UserPathType("following") == Some(IdArrayPath);
      assert CastSucceeds("following", data["following"], toNumber, isDate);
    }
    if "followers" in data {
      assert UserPathType("followers") == Some(IdArrayPath);
      assert CastSucceeds("followers", data["followers"], toNumber, isDate);
    }
    if "followingCount" in data {
      assert UserPathType("followingCount") == Some(NumberPath);
      assert CastSucceeds("followingCount", data["followingCount"], toNumber, isDate);
    }
    if "followersCount" in data {
      assert UserPathType("followersCount") == Some(NumberPath);
      assert CastSucceeds("followersCount", data["followersCount"], toNumber, isDate);
    }
    if "isOnline" in data {
      assert UserPathType("isOnline") == Some(BooleanPath);
      assert CastSucceeds("isOnline", data["isOnline"], toNumber, isDate);
    }
  }

  /** An update naming nothing the schema holds leaves the account as it was. */
  lemma EmptyUpdateKeepsAccount(a: Account, toNumber: string -> Option<int>)
    ensures ApplyUpdate(a, map[], toNumber) == a
  {
  }

  /** Applying the same update twice is applying it once. */
  lemma ApplyUpdateIdempotent(a: Account, data: map<string, string>, toNumber: string -> Option<int>)
    requires StoredCastsSucceed(data, toNumber)
    ensures ApplyUpdate(ApplyUpdate(a, data, toNumber), data, toNumber) == ApplyUpdate(a, data, toNumber)
  {
    var once := ApplyUpdate(a, data, toNumber);
    var twice := ApplyUpdate(once, data, toNumber);
    assert twice.fields == once.fields;
  }

  /**
   * Stripping is what protects the credentials: the stripped update never
   * changes the email or the password hash, while the body as sent would
   * overwrite the email and the password it names.
   */
  lemma StrippingKeepsCredentials(a: Account, body: map<string, string>, toNumber: string -> Option<int>)
    requires StoredCastsSucceed(body, toNumber)
    ensures StoredCastsSucceed(Strip(body), toNumber)
    ensures ApplyUpdate(a, Strip(body), toNumber).email == a.email
    ensures ApplyUpdate(a, Strip(body), toNumber).passwordHash == a.passwordHash
    ensures "email" in body ==> ApplyUpdate(a, body, toNumber).email == body["email"]
    ensures "password" in body ==> ApplyUpdate(a, body, toNumber).passwordHash == body["password"]
  {
    assert "email" !in Strip(body) && "password" !in Strip(body);
  }

  datatype UpdateResult =
    | Forbidden            // 403 'You are not authorized to update this user'
    | InvalidProfilePic    // 400 'Invalid profile picture URL'
    | UpdateNotFound       // 404 'User not found'
    | UpdateServerError    // 500 'Server error'
    | Updated(user: Account)

  /** The line terminators the regex `.` does not match. */
  predicate IsLineTerminator(c: char) {
    c == '\n' || c == '\r' || c == '\U{2028}' || c == '\U{2029}'
  }

  /** `/^\/uploads\/.+$/.test(s)`: the prefix "/uploads/", then one or more characters none of which ends a line. */
  function IsUploadPath(s: string): (b: bool)
    ensures b <==> exists rest :: s == "/uploads/" + rest && |rest| >= 1 && forall i :: 0 <= i < |rest| ==> !IsLineTerminator(rest[i])
  {
    var prefix := "/uploads/";
    if StartsWith(s, prefix) && |s| > |prefix| && (forall i :: |prefix| <= i < |s| ==> !IsLineTerminator(s[i])) then
      assert s == prefix + s[|prefix|..];
      true
    else
      assert forall rest :: s == prefix + rest ==> rest == s[|prefix|..];
      false
  }

  /** A truthy profilePic in the body that is not an upload path. */
  predicate ProfilePicRejected(body: map<string, string>) {
    "profilePic" in body && body["profilePic"] != "" && !IsUploadPath(body["profilePic"])
  }

  /**
   * The update is refused before it reaches a document: the id does not cast,
   * a value does not cast to its path's type, or a validator rejects a value.
   */
  predicate UpdateRejected(id: string, data: map<string, string>, toNumber: string -> Option<int>, isDate: string -> bool) {
    !IsObjectId(id) || CastFails(data, toNumber, isDate) || ValidatorRejects(data)
  }

  /**
   * The answer updateUser gives: only the user themself may update; a truthy
   * profilePic must be an upload path; a refused update is a server error;
   * then the user must exist, a username another user holds breaks the unique
   * index (a server error), and otherwise the stripped body is applied.
   */
  function UpdateDecision(users: map<UserId, Account>, currentUserId: UserId, id: string, body: map<string, string>,
                          toNumber: string -> Option<int>, isDate: string -> bool): (r: UpdateResult)
    ensures r == Forbidden <==> currentUserId != id
    ensures r == InvalidProfilePic <==> currentUserId == id && ProfilePicRejected(body)
    ensures r == UpdateServerError <==>
              && currentUserId == id && !ProfilePicRejected(body)
              && (UpdateRejected(id, Strip(body), toNumber, isDate)
                  || (Canonical(id) in users && UsernameClash(users, Canonical(id), Strip(body))))
    ensures r == UpdateNotFound <==>
              currentUserId == id && !ProfilePicRejected(body) && !UpdateRejected(id, Strip(body), toNumber, isDate) && Canonical(id) !in users
    ensures r.Updated? ==>
              && IsObjectId(id) && Canonical(id) in users && !CastFails(Strip(body), toNumber, isDate)
              && StoredCastsSucceed(Strip(body), toNumber)
              && r.user == ApplyUpdate(users[Canonical(id)], Strip(body), toNumber)
              && r.user.email == users[Canonical(id)].email && r.user.passwordHash == users[Canonical(id)].passwordHash
  {
    var data := Strip(body);
    if currentUserId != id then Forbidden
    else if ProfilePicRejected(body) then InvalidProfilePic
    else if UpdateRejected(id, data, toNumber, isDate) then UpdateServerError
    else if Canonical(id) !in users then UpdateNotFound
    else if UsernameClash(users, Canonical(id), data) then UpdateServerError
    else
      assert "email" !in data && "password" !in data;
      CastsHold(data, toNumber, isDate);
      Updated(ApplyUpdate(users[Canonical(id)], data, toNumber))
  }

  /** An update that succeeds keeps usernames unique: the unique index refuses a name another user holds. */
  lemma UpdateKeepsUsernamesUnique(users: map<UserId, Account>, currentUserId: UserId, id: string, body: map<string, string>,
                                   toNumber: string -> Option<int>, isDate: string -> bool)
    requires UsernamesUnique(users)
    requires UpdateDecision(users, currentUserId, id, body, toNumber, isDate).Updated?
    ensures UsernamesUnique(users[Canonical(id) := UpdateDecision(users, currentUserId, id, body, toNumber, isDate).user])
  {
    var key := Canonical(id);
    var after := users[key := UpdateDecision(users, currentUserId, id, body, toNumber, isDate).user];
    var data := Strip(body);
    forall u, v | u in after && v in after && u != v && "username" in after[u].fields && "username" in after[v].fields
      ensures after[u].fields["username"] != after[v].fields["username"]
    {
      if u != key && v != key {
        assert after[u] == users[u] && after[v] == users[v];
      } else if "username" !in data {
        assert after[key].fields["username"] == users[key].fields["username"];
      }
    }
  }

  /**
   * updateUser: the body is copied and stripped of password, email and role,
   * the profile picture is checked, and the update is cast, validated and
   * applied to the stored user, as UpdateDecision says.
   */
  method UpdateUser(db: Database, currentUserId: UserId, id: string, body: map<string, string>,
                    toNumber: string -> Option<int>, isDate: string -> bool) returns (r: UpdateResult)
    modifies db
    ensures db.posts == old(db.posts) && db.comments == old(db.comments) && db.messages == old(db.messages)
    ensures db.conversations == old(db.conversations) && db.notifications == old(db.notifications)
    ensures r == UpdateDecision(old(db.users), currentUserId, id, body, toNumber, isDate)
    ensures db.users == if r.Updated? then old(db.users)[Canonical(id) := r.user] else old(db.users)
  {
    if currentUserId != id {
      return Forbidden;
    }
    var updateData := body;
    updateData := updateData - {"password"};
    updateData := updateData - {"email"};
    updateData := updateData - {"role"};
    assert updateData == Strip(body);
    assert ProfilePicRejected(updateData) == ProfilePicRejected(body) by {
      assert "profilePic" in updateData <==> "profilePic" in body;
    }
    if "profilePic" in updateData && updateData["profilePic"] != "" {
      if !IsUploadPath(updateData["profilePic"]) {
        return InvalidProfilePic;
      }
    }
    if UpdateRejected(id, updateData, toNumber, isDate) {
      return UpdateServerError;
    }
    var key := Canonical(id);
    if key !in db.users {
      return UpdateNotFound;
    }
    if UsernameClash(db.users, key, updateData) {
      return UpdateServerError;
    }
    CastsHold(updateData, toNumber, isDate);
    var user := ApplyUpdate(db.users[key], updateData, toNumber);
    db.users := db.users[key := user];
    r := Updated(user);
  }

  /** `q?.trim()` is falsy: the query is absent, empty or only whitespace. */
  predicate BlankQuery(q: Option<string>) {
    q.None? || TrimsToEmpty(q.value)
  }

  /** The users a search can return: existing, not the caller, matched by the search pattern (`matches`). */
  predicate Eligible(users: map<UserId, Account>, caller: UserId, matches: Account -> bool, x: UserId) {
    x in users && x != caller && matches(users[x])
  }

  /** The eligible users in the collection's order. */
  function EligibleInOrder(order: seq<UserId>, users: map<UserId, Account>, caller: UserId, matches: Account -> bool): (r: seq<UserId>)
    ensures |r| <= |order|
    ensures forall x :: x in r <==> x in order && Eligible(users, caller, matches, x)
  {
    if order == [] then []
    else
      var rest := EligibleInOrder(order[1..], users, caller, matches);
      assert forall x :: x in order <==> x == order[0] || x in order[1..];
      if Eligible(users, caller, matches, order[0]) then [order[0]] + rest else rest
  }

  /**
   * The search keeps the collection's order: the eligible users of a split
   * order are those of its two parts in turn, and a single user is kept
   * exactly when eligible.
   */
  lemma {:induction false} EligibleInOrderSplits(a: seq<UserId>, b: seq<UserId>, users: map<UserId, Account>, caller: UserId,
                                                 matches: Account -> bool)
    ensures EligibleInOrder(a + b, users, caller, matches)
            == EligibleInOrder(a, users, caller, matches) + EligibleInOrder(b, users, caller, matches)
    ensures forall x :: EligibleInOrder([x], users, caller, matches) == if Eligible(users, caller, matches, x) then [x] else []
  {
    if a == [] {
      assert a + b == b;
    } else {
      assert (a + b)[1..] == a[1..] + b;
      EligibleInOrderSplits(a[1..], b, users, caller, matches);
    }
    forall x ensures EligibleInOrder([x], users, caller, matches) == if Eligible(users, caller, matches, x) then [x] else [] {
      assert [x][1..] == [];
    }
  }

  datatype Hit = Hit(id: UserId, isFollowing: bool)

  datatype SearchResult =
    | EmptyQuery           // 400 with []
    | NoResponse           // the caller's document is gone: the enrichment throws and nothing answers
    | Results(hits: seq<Hit>)

  /** The search cap. */
  const SearchLimit := 20

  /**
   * searchUsers: a blank query is refused; otherwise the first twenty
   * eligible users in collection order (`order`), each flagged with whether
   * the caller follows them. The caller's document is read only to flag a
   * hit, so when it is gone the handler throws exactly when there is a hit.
   */
  function SearchUsers(users: map<UserId, Account>, caller: UserId, q: Option<string>, order: seq<UserId>, matches: Account -> bool)
    : (r: SearchResult)
    ensures r == EmptyQuery <==> BlankQuery(q)
    ensures r == NoResponse <==> !BlankQuery(q) && caller !in users && EligibleInOrder(order, users, caller, matches) != []
    ensures r.Results? ==>
              var found := EligibleInOrder(order, users, caller, matches);
              && |r.hits| == (if |found| < SearchLimit then |found| else SearchLimit)
              && forall i :: 0 <= i < |r.hits| ==>
                   && r.hits[i].id == found[i]
                   && caller in users && r.hits[i].isFollowing == (found[i] in users[caller].following)
    ensures r.Results? ==> forall i :: 0 <= i < |r.hits| ==> Eligible(users, caller, matches, r.hits[i].id) && r.hits[i].id in order
    ensures r.Results? && |r.hits| < SearchLimit ==>
              forall x :: x in order && Eligible(users, caller, matches, x) ==> exists i :: 0 <= i < |r.hits| && r.hits[i].id == x
  {
    if BlankQuery(q) then EmptyQuery
    else
      var found := EligibleInOrder(order, users, caller, matches);
      if found == [] then Results([])
      else if caller !in users then NoResponse
      else
        var page := if |found| <= SearchLimit then found else found[..SearchLimit];
        var hits := seq(|page|, i requires 0 <= i < |page| => Hit(page[i], page[i] in users[caller].following));
        assert forall i :: 0 <= i < |hits| ==> hits[i].id == found[i] && hits[i].id in found;
        assert |page| < SearchLimit ==> page == found;
        Results(hits)
  }
}
