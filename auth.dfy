/**
 * The authentication controller: the password rule list, and the signup,
 * login and token-refresh handlers as early-return decision chains against
 * the user collection. Password hashing, hash comparison and token signing
 * and verification are opaque: their results are parameters.
 */
module Auth {
  import opened Common
  import opened Store

  /** The password requirements, in the order the rule list states them. */
  datatype Requirement = MinLength | Uppercase | Lowercase | Digit | Special

  const Requirements: seq<Requirement> := [MinLength, Uppercase, Lowercase, Digit, Special]

  /** The position of a requirement in the rule list. */
  function Rank(q: Requirement): (i: nat)
    ensures i < |Requirements| && Requirements[i] == q
  {
    match q
    case MinLength => 0
    case Uppercase => 1
    case Lowercase => 2
    case Digit => 3
    case Special => 4
  }

  function RequirementMessage(q: Requirement): string {
    match q
    case MinLength => "At least 8 characters"
    case Uppercase => "One uppercase letter"
    case Lowercase => "One lowercase letter"
    case Digit => "One number"
    case Special => "One special character"
  }

  /** Different requirements are reported with different messages. */
  lemma MessagesDistinct(q: Requirement, q': Requirement)
    requires q != q'
    ensures RequirementMessage(q) != RequirementMessage(q')
  {
    var m, m' := RequirementMessage(q), RequirementMessage(q');
    if |m| == |m'| {
      // "One uppercase letter" and "One lowercase letter" are the only equal-length pair
      assert m[4] != m'[4];
    }
  }

  /** The characters of the special-character class of the rule list. */
  predicate IsSpecial(c: char) {
    c in "!@#$%^&*(),.?\":{}|<>"
  }

  /** `\d` without the unicode flag: an ASCII digit. */
  predicate IsDigit(c: char) {
    '0' <= c <= '9'
  }

  predicate Meets(p: string, q: Requirement) {
    match q
    case MinLength => |p| >= 8
    case Uppercase => exists i :: 0 <= i < |p| && 'A' <= p[i] <= 'Z'
    case Lowercase => exists i :: 0 <= i < |p| && 'a' <= p[i] <= 'z'
    case Digit => exists i :: 0 <= i < |p| && IsDigit(p[i])
    case Special => exists i :: 0 <= i < |p| && IsSpecial(p[i])
  }

  /** A password the rule list accepts, stated directly. */
  predicate StrongPassword(p: string) {
    && |p| >= 8
    && (exists i :: 0 <= i < |p| && 'A' <= p[i] <= 'Z')
    && (exists i :: 0 <= i < |p| && 'a' <= p[i] <= 'z')
    && (exists i :: 0 <= i < |p| && IsDigit(p[i]))
    && (exists i :: 0 <= i < |p| && IsSpecial(p[i]))
  }

  /** The filter step: the requirements from position k on that p fails, in list order. */
  function FailedFrom(p: string, k: nat): (r: seq<Requirement>)
    requires k <= |Requirements|
    ensures |r| <= |Requirements| - k
    ensures forall q :: q in r <==> Rank(q) >= k && !Meets(p, q)
    ensures forall i, j :: 0 <= i < j < |r| ==> Rank(r[i]) < Rank(r[j])
    decreases |Requirements| - k
  {
    if k == |Requirements| then []
    else
      var rest := FailedFrom(p, k + 1);
      if Meets(p, Requirements[k]) then rest else [Requirements[k]] + rest
  }

  /** The map step: each requirement replaced by its message. */
  function Messages(qs: seq<Requirement>): (r: seq<string>)
    ensures |r| == |qs| && forall i :: 0 <= i < |qs| ==> r[i] == RequirementMessage(qs[i])
  {
    seq(|qs|, i requires 0 <= i < |qs| => RequirementMessage(qs[i]))
  }

  /** validatePassword: the messages of the failed requirements (filter, then map). */
  function ValidatePassword(p: string): (r: seq<string>)
    ensures |r| <= 5
    ensures forall q :: RequirementMessage(q) in r <==> !Meets(p, q)
    ensures r == [] <==> StrongPassword(p)
    ensures forall i, j :: 0 <= i < j < |r| ==> r[i] != r[j]
  {
    MessagesOfFailures(p);
    Messages(FailedFrom(p, 0))
  }

  lemma MessagesOfFailures(p: string)
    ensures var r := Messages(FailedFrom(p, 0));
            && (forall q :: RequirementMessage(q) in r <==> !Meets(p, q))
            && (r == [] <==> StrongPassword(p))
            && (forall i, j :: 0 <= i < j < |r| ==> r[i] != r[j])
  {
    var failed := FailedFrom(p, 0);
    forall q ensures RequirementMessage(q) in Messages(failed) <==> q in failed {
      MessageIn(failed, q);
    }
    forall i, j | 0 <= i < j < |failed| ensures Messages(failed)[i] != Messages(failed)[j] {
      MessagesDistinct(failed[i], failed[j]);
    }
    StrongMeetsAll(p);
  }

  /** A requirement's message is among the mapped messages exactly when the requirement is among the failed ones. */
  lemma MessageIn(qs: seq<Requirement>, q: Requirement)
    ensures RequirementMessage(q) in Messages(qs) <==> q in qs
  {
    var r := Messages(qs);
    if RequirementMessage(q) in r {
      var i :| 0 <= i < |r| && r[i] == RequirementMessage(q);
      if qs[i] != q {
        MessagesDistinct(qs[i], q);
      }
    }
    if q in qs {
      var i :| 0 <= i < |qs| && qs[i] == q;
      assert r[i] == RequirementMessage(q);
    }
  }

  /** The direct statement of a strong password is the conjunction of the rule list. */
  lemma StrongMeetsAll(p: string)
    ensures StrongPassword(p) <==> forall q :: Meets(p, q)
  {
    if StrongPassword(p) {
      forall q ensures Meets(p, q) {
        match q
        case MinLength =>
        case Uppercase =>
        case Lowercase =>
        case Digit =>
        case Special =>
      }
    }
    if forall q :: Meets(p, q) {
      assert Meets(p, MinLength) && Meets(p, Uppercase) && Meets(p, Lowercase) && Meets(p, Digit) && Meets(p, Special);
    }
  }

  /** The messages come out in the order of the rule list: each failed requirement's message follows those of the earlier failed ones. */
  lemma ValidatePasswordOrdered(p: string, q: Requirement, q': Requirement)
    requires !Meets(p, q) && !Meets(p, q') && Rank(q) < Rank(q')
    ensures exists i, j :: 0 <= i < j < |ValidatePassword(p)|
                           && ValidatePassword(p)[i] == RequirementMessage(q) && ValidatePassword(p)[j] == RequirementMessage(q')
  {
    var failed := FailedFrom(p, 0);
    assert q in failed && q' in failed;
    var i :| 0 <= i < |failed| && failed[i] == q;
    var j :| 0 <= j < |failed| && failed[j] == q';
    assert i < j;
    assert ValidatePassword(p)[i] == RequirementMessage(q) && ValidatePassword(p)[j] == RequirementMessage(q');
  }

  /** Cookie lifetimes: signup writes the product, login and refresh the literal. */
  const SignupCookieMaxAge := 7 * 24 * 60 * 60 * 1000
  const LoginCookieMaxAge := 604800000
  const RefreshCookieMaxAge := 604800000
  /** The signed token's `expiresIn: '7d'`, in seconds. */
  const TokenLifetimeSeconds := 7 * 24 * 60 * 60

  /** All three cookies live exactly as long as the token they carry. */
  lemma CookieLifetimesAgree()
    ensures SignupCookieMaxAge == LoginCookieMaxAge == RefreshCookieMaxAge
    ensures SignupCookieMaxAge == TokenLifetimeSeconds * 1000
  {
  }

  predicate EmailInUse(users: map<UserId, Account>, email: string) {
    exists u :: u in users && users[u].email == email
  }

  predicate UsernameInUse(users: map<UserId, Account>, username: string) {
    exists u :: u in users && "username" in users[u].fields && users[u].fields["username"] == username
  }

  /**
   * A new user document: the given names, trimmed by the schema's `trim`
   * option, the email as given, the hashed password, the schema defaults for
   * the rest.
   */
  function NewAccount(fullName: string, username: string, email: string, hash: string): (a: Account)
    ensures a.email == email && a.passwordHash == hash
    ensures a.fields.Keys == {"fullName", "username", "bio", "profilePic", "socketId"}
    ensures a.fields["username"] == Trim(username) && a.fields["fullName"] == Trim(fullName)
    ensures a.fields["bio"] == "" && a.fields["profilePic"] == "/placeholder.svg" && a.fields["socketId"] == ""
    ensures a.following == [] && a.followers == [] && a.followingCount == 0 && a.followersCount == 0 && !a.online
  {
    Account(email, hash,
            map["fullName" := Trim(fullName), "username" := Trim(username), "bio" := "", "profilePic" := "/placeholder.svg", "socketId" := ""],
            [], [], 0, 0, false)
  }

  datatype SignupResult =
    | EmailTaken                           // 400 errors.email 'User already exists'
    | UsernameTaken                        // 400 errors.username 'Username is already taken'
    | WeakPassword(failures: seq<string>)  // 400 errors.password: the failed requirements' messages
    | SignupServerError                    // 500 errors.server 'Server error'
    | SignedUp(id: UserId)                 // 201 with the profile, the token and its cookie

  function SignupStatus(r: SignupResult): (status: int)
    ensures status == 201 <==> r.SignedUp?
    ensures status == 500 <==> r.SignupServerError?
    ensures status == 400 <==> r.EmailTaken? || r.UsernameTaken? || r.WeakPassword?
  {
    match r
    case SignedUp(_) => 201
    case SignupServerError => 500
    case _ => 400
  }

  /**
   * signup: email first, then username, then the password rules; the first
   * failure answers and nothing is written. The username query goes through
   * the schema's `trim` setter, so it looks for the trimmed name. An absent password makes the rule
   * check throw (500). `hash` is the bcrypt hash of the password and
   * `saveFails` says whether the save is rejected (schema validation or a
   * duplicate key).
   */
  method Signup(db: Database, fullName: string, username: string, email: string, password: Option<string>,
                newId: UserId, hash: string, saveFails: bool) returns (r: SignupResult)
    requires newId !in db.users
    modifies db
    ensures db.posts == old(db.posts) && db.comments == old(db.comments) && db.messages == old(db.messages)
    ensures db.conversations == old(db.conversations) && db.notifications == old(db.notifications)
    ensures r == EmailTaken <==> EmailInUse(old(db.users), email)
    ensures r == UsernameTaken <==> !EmailInUse(old(db.users), email) && UsernameInUse(old(db.users), Trim(username))
    ensures r.WeakPassword? <==>
              && !EmailInUse(old(db.users), email) && !UsernameInUse(old(db.users), Trim(username))
              && password.Some? && ValidatePassword(password.value) != []
    ensures r.WeakPassword? ==> r.failures == ValidatePassword(password.value)
    ensures r.SignedUp? <==>
              && !EmailInUse(old(db.users), email) && !UsernameInUse(old(db.users), Trim(username))
              && password.Some? && StrongPassword(password.value) && !saveFails
    ensures r.SignedUp? ==> r.id == newId && db.users == old(db.users)[newId := NewAccount(fullName, username, email, hash)]
    ensures !r.SignedUp? ==> db.users == old(db.users)
  {
    if exists u :: u in db.users && db.users[u].email == email {
      return EmailTaken;
    }
    var name := Trim(username);
    if exists u :: u in db.users && "username" in db.users[u].fields && db.users[u].fields["username"] == name {
      return UsernameTaken;
    }
    if password.None? {
      return SignupServerError;
    }
    var failures := ValidatePassword(password.value);
    if |failures| > 0 {
      return WeakPassword(failures);
    }
    if saveFails {
      return SignupServerError;
    }
    db.users := db.users[newId := NewAccount(fullName, username, email, hash)];
    r := SignedUp(newId);
  }

  /**
   * A signup that passes the username check keeps usernames unique: the check
   * looks for the trimmed name, which is the name the new document stores.
   */
  lemma SignupKeepsUsernamesUnique(users: map<UserId, Account>, newId: UserId, fullName: string, username: string,
                                   email: string, hash: string)
    requires UsernamesUnique(users) && newId !in users && !UsernameInUse(users, Trim(username))
    ensures UsernamesUnique(users[newId := NewAccount(fullName, username, email, hash)])
  {
    var after := users[newId := NewAccount(fullName, username, email, hash)];
    forall u, v | u in after && v in after && u != v && "username" in after[u].fields && "username" in after[v].fields
      ensures after[u].fields["username"] != after[v].fields["username"]
    {
      if u == newId {
        assert after[v] == users[v];
      } else if v == newId {
        assert after[u] == users[u];
      } else {
        assert after[u] == users[u] && after[v] == users[v];
      }
    }
  }

  datatype LoginResult =
    | UnknownEmail        // 400 errors.email 'Invalid credentials'
    | WrongPassword       // 400 errors.password 'Invalid credentials'
    | LoginServerError    // 500 errors.server 'Server error'
    | LoggedIn(id: UserId)

  predicate EmailsUnique(users: map<UserId, Account>) {
    forall u, v :: u in users && v in users && users[u].email == users[v].email ==> u == v
  }

  /**
   * login: look the email up, then compare the password with the stored hash
   * (`matches` stands for bcrypt's comparison). Comparing an absent password
   * throws (500). When several documents share the email the query returns one
   * of them; with unique emails the outcome is determined.
   */
  method Login(db: Database, email: string, password: Option<string>, matches: (string, string) -> bool) returns (r: LoginResult)
    ensures r == UnknownEmail <==> !EmailInUse(db.users, email)
    ensures r == LoginServerError <==> EmailInUse(db.users, email) && password.None?
    ensures r.LoggedIn? ==> r.id in db.users && db.users[r.id].email == email && password.Some?
                            && matches(password.value, db.users[r.id].passwordHash)
    ensures r == WrongPassword ==> password.Some?
                                   && exists u :: u in db.users && db.users[u].email == email && !matches(password.value, db.users[u].passwordHash)
    ensures EmailsUnique(db.users) && password.Some? ==>
              (r.LoggedIn? <==> exists u :: u in db.users && db.users[u].email == email && matches(password.value, db.users[u].passwordHash))
  {
    if !(exists u :: u in db.users && db.users[u].email == email) {
      return UnknownEmail;
    }
    var u :| u in db.users && db.users[u].email == email;
    if password.None? {
      return LoginServerError;
    }
    if !matches(password.value, db.users[u].passwordHash) {
      return WrongPassword;
    }
    r := LoggedIn(u);
  }

  datatype RefreshResult =
    | TokenRequired    // 401 'Token required'
    | InvalidToken     // 401 'Invalid token', code INVALID_TOKEN
    | UserNotFound     // 401 'User not found'
    | Refreshed(id: UserId)

  /**
   * refreshToken: the cookie token is verified ignoring expiry (`verify`);
   * a failure, or a userId that does not cast, answers INVALID_TOKEN; a
   * payload without a userId looks up null and finds no user. The user is
   * looked up, and the new token issued, by the cast id.
   */
  function RefreshToken(users: map<UserId, Account>, cookie: Option<string>, verify: string -> JwtOutcome): (r: RefreshResult)
    ensures r == TokenRequired <==> !Truthy(cookie)
    ensures r == InvalidToken <==>
              Truthy(cookie) && (verify(cookie.value).JwtFailure?
                                 || (verify(cookie.value).userId.Some? && !IsObjectId(verify(cookie.value).userId.value)))
    ensures r.Refreshed? <==>
              Truthy(cookie) && verify(cookie.value).Decoded? && verify(cookie.value).userId.Some?
              && IsObjectId(verify(cookie.value).userId.value) && Canonical(verify(cookie.value).userId.value) in users
    ensures r.Refreshed? ==> r.id == Canonical(verify(cookie.value).userId.value) && r.id in users
  {
    if !Truthy(cookie) then TokenRequired
    else match verify(cookie.value)
      case JwtFailure(_) => InvalidToken
      case Decoded(None) => UserNotFound
      case Decoded(Some(u)) =>
        if !IsObjectId(u) then InvalidToken
        else if Canonical(u) !in users then UserNotFound
        else Refreshed(Canonical(u))
  }
}
