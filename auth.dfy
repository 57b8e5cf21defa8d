/**
 * The OTP login controller (server/controllers/auth.js): `sendOTP` issues a code for an email or
 * phone, `verifyOTP` checks it, logs an existing user in or registers a new one, deletes the
 * user's codes and signs a session token.
 *
 * The clock (`Date.now()`), `crypto.randomInt`, the id Mongo assigns in `User.create`,
 * `bcrypt.hash` and `jwt.sign` are parameters of the operations.
 */
module Auth {
  import opened Outcomes
  import opened UserModel
  import opened OtpModel
  import Decimal

  /** A code lives five minutes. */
  const OtpLifetimeMs := 300000
  /** `expiresIn: '7d'`, in the seconds of a token's `iat` and `exp` claims. */
  const TokenLifetimeSeconds := 7 * 24 * 60 * 60

  /** The exception that ends a request with no response: nothing catches it in this controller. */
  datatype Fault = MongooseNotDefined | Write(fault: WriteFault)

  datatype AuthError =
    | HandleRequired              // 400 'Email or phone is required'
    | InvalidOrExpiredOtp         // 400 'Invalid or expired OTP'
    | NameAndPasswordRequired     // 400 'Name and password required'
    | Unhandled(fault: Fault)     // rejected promise, no response

  /** The JSON body `{ message: 'OTP sent', userId }`. */
  datatype OtpSent = OtpSent(message: string, userId: ObjectId)

  /** The user part of verifyOTP's response. */
  datatype Profile = Profile(name: Option<string>, email: Option<string>, phone: Option<string>)

  /** verifyOTP's success body: `'Logged in'` or `'Registered'`, the token and the profile. */
  datatype Login = Login(message: string, token: string, user: Profile)

  /** The token payload `{ userId, email }` with the `iat` and `exp` claims jwt adds, in seconds. */
  datatype Claims = Claims(userId: ObjectId, email: Option<string>, iat: int, exp: int)

  function ProfileOf(u: User): (p: Profile) {
    Profile(u.name, u.email, u.phone)
  }

  /** The claims signed for `u` at `now` milliseconds: the user's own id and email, issued in the
      current second, expiring seven days later. */
  function SessionClaims(u: User, now: int): (c: Claims)
    ensures c.userId == u.id && c.email == u.email
    ensures c.iat * 1000 <= now < c.iat * 1000 + 1000
    ensures c.exp - c.iat == 604800
  {
    Claims(u.id, u.email, now / 1000, now / 1000 + TokenLifetimeSeconds)
  }

  /** `crypto.randomInt(100000, 999999).toString()`: always six decimal digits, denoting the draw. */
  function IssueCode(random: int): (code: string)
    requires 100000 <= random < 999999
    ensures |code| == 6 && Decimal.AllDigits(code) && code[0] != '0'
    ensures Decimal.Value(code) == random
  {
    assert Decimal.Pow10(5) == 100000 && Decimal.Pow10(6) == 1000000;
    Decimal.ToStringLength(random, 5);
    Decimal.ValueOfToString(random);
    Decimal.ToString(random)
  }

  /** The two stores the controller works on. */
  class AuthService {
    var users: map<ObjectId, User>
    var otps: seq<Otp>

    ghost predicate Valid()
      reads this
    {
      StoreValid(users)
    }

    /** Every code belongs to a stored user, as the schema's `ref: 'User'` intends (Mongo does
        not enforce it, so it is kept apart from Valid()). */
    ghost predicate OtpsOwned()
      reads this
    {
      forall o :: o in otps ==> o.userId in users
    }

    constructor (users0: map<ObjectId, User>, otps0: seq<Otp>)
      requires StoreValid(users0)
      ensures Valid() && users == users0 && otps == otps0
    {
      users := users0;
      otps := otps0;
    }

    /** `User.findOne({ $or: [{ email }, { phone }] })`: some user matching either handle. */
    method FindUserByHandle(email: Option<string>, phone: Option<string>) returns (found: Option<ObjectId>)
      ensures found.Some? ==> found.value in users && MatchesHandle(users[found.value], email, phone)
      ensures found.None? ==> forall id :: id in users ==> !MatchesHandle(users[id], email, phone)
    {
      if exists id :: id in users && MatchesHandle(users[id], email, phone) {
        var id :| id in users && MatchesHandle(users[id], email, phone);
        found := Some(id);
      } else {
        found := None;
      }
    }

    /** sendOTP. For a handle no user has, line 18 evaluates `new mongoose.Types.ObjectId()` with
        `mongoose` never imported, so the request dies with a ReferenceError before anything is
        written; `TempUser` shows that the save after it would be refused as well. */
    method SendOtp(email: Option<string>, phone: Option<string>, random: int, now: int)
      returns (r: Result<OtpSent, AuthError>)
      requires Valid()
      requires 100000 <= random < 999999
      modifies this
      ensures Valid() && users == old(users)
      ensures r.Err? ==> otps == old(otps)
      ensures r == Err(HandleRequired) <==> !NonEmpty(email) && !NonEmpty(phone)
      ensures r.Ok? <==> (NonEmpty(email) || NonEmpty(phone))
                         && exists id :: id in users && MatchesHandle(users[id], email, phone)
      ensures r.Err? && r != Err(HandleRequired) ==> r == Err(Unhandled(MongooseNotDefined))
      ensures r.Ok? ==> r.value.message == "OTP sent" && r.value.userId in users
                        && MatchesHandle(users[r.value.userId], email, phone)
                        && otps == old(otps) + [Otp(r.value.userId, IssueCode(random), now + OtpLifetimeMs)]
      ensures old(OtpsOwned()) ==> OtpsOwned()
    {
      if !NonEmpty(email) && !NonEmpty(phone) {
        return Err(HandleRequired);
      }
      var user := FindUserByHandle(email, phone);
      if user.None? {
        return Err(Unhandled(MongooseNotDefined));
      }
      var userId := user.value;
      var code := IssueCode(random);
      otps := otps + [Otp(userId, code, now + OtpLifetimeMs)];
      r := Ok(OtpSent("OTP sent", userId));
    }

    /** verifyOTP. `now` is the `new Date()` of the expiry test and `signNow` the later clock
        reading jwt takes when signing. `newId` is the id `User.create` assigns: a freshly
        generated ObjectId, so not the submitted `userId`. `hash` is `bcrypt.hash(_, 10)` and
        `sign` is `jwt.sign` with the server's secret. */
    method VerifyOtp(userId: ObjectId, code: string, name: Option<string>, email: Option<string>,
                     phone: Option<string>, password: Option<string>, now: int, signNow: int,
                     newId: ObjectId, hash: string -> string, sign: Claims -> string)
      returns (r: Result<Login, AuthError>)
      requires Valid()
      requires now <= signNow
      requires newId != userId
      modifies this
      ensures Valid()
      // the code gate: nothing changes when it rejects
      ensures r == Err(InvalidOrExpiredOtp) <==> old(Admit(otps, userId, code, now)).None?
      ensures r.Err? ==> users == old(users) && otps == old(otps)
      ensures r.Ok? ==> otps == DeleteMany(old(otps), userId)
      // an existing user: only `verified` changes
      ensures old(Admit(otps, userId, code, now)).Some? && userId in old(users) ==>
                r.Ok? && users == old(users)[userId := old(users)[userId].(verified := true)]
                && r.value == Login("Logged in", sign(SessionClaims(users[userId], signNow)), ProfileOf(users[userId]))
      // no user under that id: a profile is required, and the new user gets a new id
      ensures old(Admit(otps, userId, code, now)).Some? && userId !in old(users) ==>
                if !NonEmpty(name) || !NonEmpty(password) then r == Err(NameAndPasswordRequired)
                else
                  var u := User(newId, name, email, phone, Some(hash(password.value)), true);
                  match Insert(old(users), u)
                  case Err(f) => r == Err(Unhandled(Write(f)))
                  case Ok(users') =>
                    r.Ok? && users == users' && newId !in old(users)
                    && r.value == Login("Registered", sign(SessionClaims(u, signNow)), ProfileOf(u))
                    && SessionClaims(u, signNow).userId != userId
      // when every code belongs to a user, verification can only log in
      ensures old(OtpsOwned()) ==> OtpsOwned()
      ensures old(OtpsOwned()) ==> r == Err(InvalidOrExpiredOtp) || (r.Ok? && r.value.message == "Logged in")
    {
      var found := Admit(otps, userId, code, now);
      if found.None? {
        return Err(InvalidOrExpiredOtp);
      }
      var user: User;
      var isExisting := userId in users;
      if !isExisting {
        if !NonEmpty(name) || !NonEmpty(password) {
          return Err(NameAndPasswordRequired);
        }
        var hashed := hash(password.value);
        user := User(newId, name, email, phone, Some(hashed), true);
        var created := Insert(users, user);
        if created.Err? {
          return Err(Unhandled(Write(created.error)));
        }
        users := created.value;
      } else {
        user := users[userId].(verified := true);
        MarkVerifiedKeepsStoreValid(users, userId);
        users := users[userId := user];
      }
      otps := DeleteMany(otps, userId);
      var token := sign(SessionClaims(user, signNow));
      r := Ok(Login(if isExisting then "Logged in" else "Registered", token, ProfileOf(user)));
    }
  }

  /** A code works once: after a successful verification no code of that id is left, and
      submitting the same code again for the same id, at any later time, is rejected. */
  method ResubmittedCodeIsRejected(svc: AuthService, userId: ObjectId, code: string, name: Option<string>,
                                   email: Option<string>, phone: Option<string>, password: Option<string>,
                                   now: int, later: int, newId: ObjectId, hash: string -> string,
                                   sign: Claims -> string)
    returns (first: Result<Login, AuthError>, second: Result<Login, AuthError>)
    requires svc.Valid()
    requires now <= later && newId != userId
    modifies svc
    ensures first.Ok? ==> second == Err(InvalidOrExpiredOtp)
    ensures first.Ok? ==> svc.otps == DeleteMany(old(svc.otps), userId)
  {
    first := svc.VerifyOtp(userId, code, name, email, phone, password, now, now, newId, hash, sign);
    NothingAdmittedAfterDelete(old(svc.otps), userId, code, later);
    second := svc.VerifyOtp(userId, code, name, email, phone, password, later, later, newId, hash, sign);
  }

  /** A code just sent verifies: when sendOTP succeeds at `sent` and the same code is submitted
      within five minutes, the existing user is logged in, provided no older record of that user
      with the same digits has expired (see ExpiredDuplicateShadowsFreshCode). */
  method IssuedCodeVerifies(svc: AuthService, email: Option<string>, phone: Option<string>, random: int,
                            sent: int, now: int, newId: ObjectId, hash: string -> string,
                            sign: Claims -> string)
    returns (s: Result<OtpSent, AuthError>, v: Option<Result<Login, AuthError>>)
    requires svc.Valid()
    requires 100000 <= random < 999999
    requires sent <= now <= sent + OtpLifetimeMs
    requires newId !in svc.users
    modifies svc
    ensures s.Ok? <==> v.Some?
    ensures s.Ok? && (forall o :: o in old(svc.otps) && Matches(o, s.value.userId, IssueCode(random)) ==> !Expired(o, now)) ==>
              v.value.Ok? && v.value.value.message == "Logged in"
  {
    var before := svc.otps;
    s := svc.SendOtp(email, phone, random, sent);
    if s.Err? {
      return s, None;
    }
    var userId := s.value.userId;
    if forall o :: o in before && Matches(o, userId, IssueCode(random)) ==> !Expired(o, now) {
      forall j | 0 <= j < |before| && Matches(before[j], userId, IssueCode(random))
        ensures !Expired(before[j], now)
      {
        assert before[j] in before;
      }
      FreshCodeAdmitted(before, userId, IssueCode(random), sent + OtpLifetimeMs, now);
    }
    var r := svc.VerifyOtp(userId, IssueCode(random), None, None, None, None, now, now, newId, hash, sign);
    v := Some(r);
  }

  /** The failing case, end to end: a user holds an expired code 123456; a new send draws 123456
      again, and verifying it within its five minutes is rejected because the expired record is
      found first. */
  method StaleDuplicateRejectsFreshCode() returns (s: Result<OtpSent, AuthError>, v: Result<Login, AuthError>)
    ensures s == Ok(OtpSent("OTP sent", 1))
    ensures v == Err(InvalidOrExpiredOtp)
  {
    var ada := User(1, None, Some("ada@example.org"), None, Some("$2a$10$hash"), true);
    var code := IssueCode(123456);
    var svc := new AuthService(map[1 := ada], [Otp(1, code, 300000)]);
    s := svc.SendOtp(Some("ada@example.org"), None, 123456, 350000);
    assert svc.otps == [Otp(1, code, 300000), Otp(1, code, 650000)];
    assert FindFirst(svc.otps, 1, code) == Some(0);
    v := svc.VerifyOtp(1, code, None, None, None, None, 360000, 360000, 2, (p: string) => p, (c: Claims) => "token");
  }
}
