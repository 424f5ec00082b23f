/** The handlers of `controller/authController.js` over the two collections
    they touch: the system users (at most one) and the one-time codes, plus
    the mails handed to the mailer. Each handler is a step function from
    the old state to the new state and the reply; `AuthStore` runs them in
    place. SHA-256, bcrypt and the JWT signer are parameters. */
module AuthStore {

  import opened Wrappers
  import Text
  import opened AuthRules

  datatype SystemUser = SystemUser(
    name: string, email: string, instituteName: string, password: string, instituteLogo: string)

  /** A mail handed to `sendOtpEmail`; `purpose` is "create" or "reset". */
  datatype Mail = Mail(to: string, name: Option<string>, otp: string, purpose: string)

  datatype AuthState = AuthState(users: seq<SystemUser>, otps: seq<OtpRecord>, outbox: seq<Mail>)

  /** A signed token with the lifetime it was signed for. */
  datatype Grant = Grant(token: string, expiresIn: string, expiresAt: int)

  datatype Reply = Reply(status: nat, message: string, grant: Option<Grant>)

  /** The token settings (`JWT_EXPIRES_MINUTES`, `JWT_EXPIRES_DAYS`) and the
      signer, given the user's address and the `expiresIn` text. */
  datatype TokenConfig = TokenConfig(minutes: Option<string>, days: Option<string>, sign: (string, string) -> string)

  const AllFieldsRequired := "All fields are required"
  const UserExists := "System user already exists"
  const InvalidCode := "Invalid or expired verification code"
  const UserCreated := "System user created"
  const EmailRequired := "Email is required"
  const CodeSent := "Verification code sent"
  const CodeNotSent := "Unable to send verification code"
  const CredentialsRequired := "Email and password are required"
  const NoUser := "No system user found. Please create a user first."
  const NotMatched := "Email or password is not matched"
  const LoginOk := "Login successful"
  const EmailMismatch := "Email does not match system user"
  const ResetFieldsRequired := "Email, OTP, and new password are required"
  const ResetOk := "Password reset successful"
  const LogoUpdated := "Institute logo updated"
  const LogoRemoved := "Institute logo removed"

  /** A body field is truthy when present and non-empty. */
  predicate Truthy(o: Option<string>) {
    o.Some? && o.value != []
  }

  function Answer(status: nat, message: string): Reply {
    Reply(status, message, None)
  }

  /** At most one system user: the invariant every handler keeps. */
  predicate SingleUser(st: AuthState) {
    |st.users| <= 1
  }

  /** `findOne({ email })`: the first user with exactly that address. */
  function FindByEmail(users: seq<SystemUser>, email: string): (r: Option<nat>)
    ensures r.Some? ==> r.value < |users| && users[r.value].email == email
    ensures r.Some? ==> forall k :: 0 <= k < r.value ==> users[k].email != email
    ensures r.None? ==> forall k :: 0 <= k < |users| ==> users[k].email != email
  {
    if users == [] then None
    else if users[0].email == email then Some(0)
    else match FindByEmail(users[1..], email)
      case None => None
      case Some(k) => Some(k + 1)
  }

  /** `hasSystemUser`. */
  function HasSystemUser(st: AuthState): (r: Option<SystemUser>)
    ensures r.Some? <==> st.users != []
    ensures r.Some? ==> r.value == st.users[0]
  {
    if st.users == [] then None else Some(st.users[0])
  }

  /** `createSystemUser`: `passwordHash` is what bcrypt makes of the
      password. */
  function CreateSystemUserStep(st: AuthState, name: Option<string>, email: Option<string>,
                                instituteName: Option<string>, password: Option<string>,
                                otp: Option<string>, now: int, sha: string -> string,
                                passwordHash: string): (AuthState, Reply)
  {
    if !Truthy(name) || !Truthy(email) || !Truthy(instituteName) || !Truthy(password) || !Truthy(otp) then
      (st, Answer(400, AllFieldsRequired))
    else if st.users != [] then (st, Answer(409, UserExists))
    else if !OtpAccepted(st.otps, email.value, CreateSystemUser, sha(otp.value), now) then
      (st, Answer(400, InvalidCode))
    else
      var user := SystemUser(name.value, email.value, instituteName.value, passwordHash, "");
      (st.(users := [user], otps := PurgeOtps(st.otps, OtpKey(email.value), CreateSystemUser)),
       Answer(201, UserCreated))
  }

  /** `requestSystemUserOtp`: `n` is the value `randomInt` drew; when the
      mailer fails the code stays stored and the answer is 500. */
  function RequestSystemUserOtpStep(st: AuthState, email: Option<string>, name: Option<string>,
                                    n: nat, now: int, sha: string -> string,
                                    mailFails: bool): (AuthState, Reply)
    requires OtpLow <= n < OtpHigh
  {
    if !Truthy(email) then (st, Answer(400, EmailRequired))
    else if st.users != [] then (st, Answer(409, UserExists))
    else
      var stored := st.(otps := st.otps + [IssuedOtp(email.value, n, CreateSystemUser, now, sha)]);
      if mailFails then (stored, Answer(500, CodeNotSent))
      else (stored.(outbox := st.outbox + [Mail(email.value, name, OtpText(n), "create")]), Answer(200, CodeSent))
  }

  /** `issueToken`: the token is signed for the configured lifetime, and
      `expiresAt` describes the same lifetime. */
  function IssueToken(user: SystemUser, now: int, config: TokenConfig): (g: Grant)
    ensures g.expiresAt == ExpiresAt(now, config.minutes, config.days)
    ensures SpanMillis(g.expiresIn) == Some(g.expiresAt - now)
  {
    var lifetime := TokenLifetime(config.minutes, config.days);
    ExpiresInAgreesWithExpiresAt(now, config.minutes, config.days);
    Grant(config.sign(user.email, lifetime.ExpiresIn()), lifetime.ExpiresIn(),
          ExpiresAt(now, config.minutes, config.days))
  }

  /** `login`: a bcrypt hash is compared with `compare`; a stored password
      that is not a hash is compared as plain text and, when it matches, is
      replaced by `freshHash`, bcrypt's hash of the password. */
  function LoginStep(st: AuthState, email: Option<string>, password: Option<string>, now: int,
                     config: TokenConfig, compare: (string, string) -> bool,
                     freshHash: string): (AuthState, Reply)
  {
    if !Truthy(email) || !Truthy(password) then (st, Answer(400, CredentialsRequired))
    else match FindByEmail(st.users, Text.Lower(email.value))
      case None => (st, Answer(404, NoUser))
      case Some(i) =>
        var user := st.users[i];
        var hashed := IsHashedPassword(user.password);
        var matches := if hashed then compare(password.value, user.password) else user.password == password.value;
        var st' := if !hashed && matches then st.(users := st.users[i := user.(password := freshHash)]) else st;
        if !matches then (st', Answer(401, NotMatched))
        else
          (st', Reply(200, LoginOk, Some(IssueToken(user, now, config))))
  }

  /** `requestPasswordResetOtp`. */
  function RequestPasswordResetOtpStep(st: AuthState, email: Option<string>, n: nat, now: int,
                                       sha: string -> string, mailFails: bool): (AuthState, Reply)
    requires OtpLow <= n < OtpHigh
  {
    if !Truthy(email) then (st, Answer(400, EmailRequired))
    else if st.users == [] then (st, Answer(404, NoUser))
    else if st.users[0].email != Text.Lower(email.value) then (st, Answer(400, EmailMismatch))
    else
      var stored := st.(otps := st.otps + [IssuedOtp(email.value, n, ResetPassword, now, sha)]);
      if mailFails then (stored, Answer(500, CodeNotSent))
      else
        var mail := Mail(email.value, Some(st.users[0].name), OtpText(n), "reset");
        (stored.(outbox := st.outbox + [mail]), Answer(200, CodeSent))
  }

  /** `resetPassword`: `freshHash` is bcrypt's hash of the new password. */
  function ResetPasswordStep(st: AuthState, email: Option<string>, otp: Option<string>,
                             newPassword: Option<string>, now: int, sha: string -> string,
                             freshHash: string): (AuthState, Reply)
  {
    if !Truthy(email) || !Truthy(otp) || !Truthy(newPassword) then (st, Answer(400, ResetFieldsRequired))
    else if st.users == [] then (st, Answer(404, NoUser))
    else if st.users[0].email != Text.Lower(email.value) then (st, Answer(400, EmailMismatch))
    else if !OtpAccepted(st.otps, email.value, ResetPassword, sha(otp.value), now) then
      (st, Answer(400, InvalidCode))
    else
      (st.(users := st.users[0 := st.users[0].(password := freshHash)],
           otps := PurgeOtps(st.otps, OtpKey(email.value), ResetPassword)),
       Answer(200, ResetOk))
  }

  /** `updateSystemUserLogo`: the logo is checked before the user is
      looked up. */
  function UpdateLogoStep(st: AuthState, logo: Option<string>, decodedLength: string -> nat): (AuthState, Reply)
  {
    match CheckLogo(logo, decodedLength)
    case Err(e) => (st, Answer(400, e))
    case Ok(stored) =>
      if st.users == [] then (st, Answer(404, NoUser))
      else (st.(users := st.users[0 := st.users[0].(instituteLogo := stored)]), Answer(200, LogoUpdated))
  }

  /** `deleteSystemUserLogo`. */
  function DeleteLogoStep(st: AuthState): (AuthState, Reply) {
    if st.users == [] then (st, Answer(404, NoUser))
    else (st.(users := st.users[0 := st.users[0].(instituteLogo := "")]), Answer(200, LogoRemoved))
  }

  // ---------------------------------------------------------------------
  // Properties.

  /** Creation succeeds exactly when all five fields are given, no system
      user exists and an unexpired code of the address with that hash is
      stored; then there is exactly one user, and no creation code of the
      address is accepted any more. */
  lemma CreateSucceedsIff(st: AuthState, name: Option<string>, email: Option<string>,
                          instituteName: Option<string>, password: Option<string>,
                          otp: Option<string>, now: int, sha: string -> string, passwordHash: string,
                          anyHash: string, later: int)
    ensures var (st', reply) := CreateSystemUserStep(st, name, email, instituteName, password, otp, now, sha, passwordHash);
      && (reply.status == 201 <==>
            Truthy(name) && Truthy(email) && Truthy(instituteName) && Truthy(password) && Truthy(otp)
            && st.users == [] && OtpAccepted(st.otps, email.value, CreateSystemUser, sha(otp.value), now))
      && (reply.status == 201 ==>
            |st'.users| == 1 && st'.users[0].email == email.value && st'.users[0].password == passwordHash
            && !OtpAccepted(st'.otps, email.value, CreateSystemUser, anyHash, later))
      && (reply.status != 201 ==> st' == st)
  {
    var (st', reply) := CreateSystemUserStep(st, name, email, instituteName, password, otp, now, sha, passwordHash);
    if reply.status == 201 {
      PurgedCodesAreRefused(st.otps, email.value, CreateSystemUser, anyHash, later);
    }
  }

  /** Once a system user exists, creating another is refused with 409, and
      so is asking for a creation code. */
  lemma SecondUserRefused(st: AuthState, name: Option<string>, email: Option<string>,
                          instituteName: Option<string>, password: Option<string>,
                          otp: Option<string>, now: int, sha: string -> string, passwordHash: string,
                          n: nat, mailFails: bool)
    requires st.users != [] && OtpLow <= n < OtpHigh
    requires Truthy(name) && Truthy(email) && Truthy(instituteName) && Truthy(password) && Truthy(otp)
    ensures CreateSystemUserStep(st, name, email, instituteName, password, otp, now, sha, passwordHash)
         == (st, Answer(409, UserExists))
    ensures RequestSystemUserOtpStep(st, email, name, n, now, sha, mailFails) == (st, Answer(409, UserExists))
  {
  }

  /** Every handler keeps at most one system user. */
  lemma HandlersKeepSingleUser(st: AuthState, name: Option<string>, email: Option<string>,
                               instituteName: Option<string>, password: Option<string>,
                               otp: Option<string>, now: int, sha: string -> string, hash: string,
                               n: nat, mailFails: bool, config: TokenConfig,
                               compare: (string, string) -> bool, logo: Option<string>,
                               decodedLength: string -> nat)
    requires SingleUser(st) && OtpLow <= n < OtpHigh
    ensures SingleUser(CreateSystemUserStep(st, name, email, instituteName, password, otp, now, sha, hash).0)
    ensures SingleUser(RequestSystemUserOtpStep(st, email, name, n, now, sha, mailFails).0)
    ensures SingleUser(LoginStep(st, email, password, now, config, compare, hash).0)
    ensures SingleUser(RequestPasswordResetOtpStep(st, email, n, now, sha, mailFails).0)
    ensures SingleUser(ResetPasswordStep(st, email, otp, password, now, sha, hash).0)
    ensures SingleUser(UpdateLogoStep(st, logo, decodedLength).0)
    ensures SingleUser(DeleteLogoStep(st).0)
  {
  }

  /** The sign-up flow: a code asked for while no user exists is accepted
      by the creation that quotes it, under the same address in any letter
      case, for the ten minutes after it was issued. */
  lemma CodeThenCreate(st: AuthState, name: Option<string>, email: Option<string>, sameEmail: Option<string>,
                       instituteName: Option<string>, password: Option<string>,
                       n: nat, issuedAt: int, now: int, sha: string -> string, passwordHash: string)
    requires st.users == [] && OtpLow <= n < OtpHigh && issuedAt <= now < issuedAt + 600000
    requires Truthy(name) && Truthy(email) && Truthy(instituteName) && Truthy(password)
    requires sameEmail.Some? && Text.Lower(sameEmail.value) == Text.Lower(email.value)
    ensures var (st1, _) := RequestSystemUserOtpStep(st, email, name, n, issuedAt, sha, false);
      var (st2, reply) := CreateSystemUserStep(st1, name, sameEmail, instituteName, password,
                                               Some(OtpText(n)), now, sha, passwordHash);
      reply.status == 201 && |st2.users| == 1
  {
    var (st1, _) := RequestSystemUserOtpStep(st, email, name, n, issuedAt, sha, false);
    var key := OtpKey(email.value);
    var r := IssuedOtp(email.value, n, CreateSystemUser, issuedAt, sha);
    assert st1.users == [] && st1.otps == st.otps + [r];
    assert OtpKey(sameEmail.value) == key;
    assert sameEmail.value != [] by {
      assert |Text.Lower(sameEmail.value)| == |sameEmail.value|;
    }
    assert Matches(st1.otps[|st.otps|], key, CreateSystemUser, sha(OtpText(n)), now);
    assert OtpAccepted(st1.otps, sameEmail.value, CreateSystemUser, sha(OtpText(n)), now);
  }

  /** A reset code works once: repeating a successful reset is refused
      with 400, whatever the code. */
  lemma ResetCodeIsSingleUse(st: AuthState, email: Option<string>, otp: Option<string>,
                             newPassword: Option<string>, now: int, later: int,
                             sha: string -> string, hash: string, hash2: string)
    ensures var (st1, reply1) := ResetPasswordStep(st, email, otp, newPassword, now, sha, hash);
      reply1.status == 200 ==>
        ResetPasswordStep(st1, email, otp, newPassword, later, sha, hash2) == (st1, Answer(400, InvalidCode))
  {
    var (st1, reply1) := ResetPasswordStep(st, email, otp, newPassword, now, sha, hash);
    if reply1.status == 200 {
      PurgedCodesAreRefused(st.otps, email.value, ResetPassword, sha(otp.value), later);
    }
  }

  /** Both reset steps require the lower-cased address to be the stored
      one: otherwise they answer 400 and change nothing. */
  lemma ResetNeedsMatchingEmail(st: AuthState, email: Option<string>, otp: Option<string>,
                                newPassword: Option<string>, n: nat, now: int, sha: string -> string,
                                hash: string, mailFails: bool)
    requires OtpLow <= n < OtpHigh && st.users != [] && Truthy(email)
    requires st.users[0].email != Text.Lower(email.value)
    ensures RequestPasswordResetOtpStep(st, email, n, now, sha, mailFails) == (st, Answer(400, EmailMismatch))
    ensures Truthy(otp) && Truthy(newPassword) ==>
      ResetPasswordStep(st, email, otp, newPassword, now, sha, hash) == (st, Answer(400, EmailMismatch))
  {
  }

  /** A successful reset stores the new hash and keeps everything else of
      the user, and keeps the codes of the other purpose. */
  lemma ResetChangesOnlyPassword(st: AuthState, email: Option<string>, otp: Option<string>,
                                 newPassword: Option<string>, now: int, sha: string -> string, hash: string,
                                 anyHash: string, later: int)
    ensures var (st1, reply) := ResetPasswordStep(st, email, otp, newPassword, now, sha, hash);
      reply.status == 200 ==>
        && st1.users == st.users[0 := st.users[0].(password := hash)]
        && (OtpAccepted(st1.otps, email.value, CreateSystemUser, anyHash, later)
            <==> OtpAccepted(st.otps, email.value, CreateSystemUser, anyHash, later))
  {
    if Truthy(email) && Truthy(otp) && Truthy(newPassword) && st.users != []
       && st.users[0].email == Text.Lower(email.value)
       && OtpAccepted(st.otps, email.value, ResetPassword, sha(otp.value), now)
    {
      PurgeKeepsOtherPurposes(st.otps, email.value, ResetPassword, CreateSystemUser, anyHash, later);
    }
  }

  /** The legacy upgrade: a plain-text stored password equal to the input
      logs in and is replaced by its bcrypt hash, after which logins go
      through bcrypt. */
  lemma LegacyPasswordUpgraded(st: AuthState, email: Option<string>, password: Option<string>, now: int,
                               config: TokenConfig, compare: (string, string) -> bool, freshHash: string)
    requires st.users != [] && Truthy(email) && Truthy(password)
    requires st.users[0].email == Text.Lower(email.value)
    requires !IsHashedPassword(st.users[0].password) && st.users[0].password == password.value
    requires IsHashedPassword(freshHash)
    ensures var (st1, reply) := LoginStep(st, email, password, now, config, compare, freshHash);
      && reply.status == 200 && reply.grant.Some?
      && st1.users == st.users[0 := st.users[0].(password := freshHash)]
      && LoginStep(st1, email, password, now, config, compare, freshHash).1.status
         == (if compare(password.value, freshHash) then 200 else 401)
  {
    var key := Text.Lower(email.value);
    assert FindByEmail(st.users, key) == Some(0);
    PlainPasswordAccepted(st, email, password, now, config, compare, freshHash, 0);
    var st1 := LoginStep(st, email, password, now, config, compare, freshHash).0;
    assert FindByEmail(st1.users, key) == Some(0);
    HashedPasswordCompared(st1, email, password, now, config, compare, freshHash, 0);
  }

  /** A stored plain-text password equal to the input logs in and is
      replaced by the fresh hash. */
  lemma PlainPasswordAccepted(st: AuthState, email: Option<string>, password: Option<string>, now: int,
                              config: TokenConfig, compare: (string, string) -> bool, freshHash: string, i: nat)
    requires Truthy(email) && Truthy(password)
    requires FindByEmail(st.users, Text.Lower(email.value)) == Some(i)
    requires !IsHashedPassword(st.users[i].password) && st.users[i].password == password.value
    ensures var (st1, reply) := LoginStep(st, email, password, now, config, compare, freshHash);
      && st1 == st.(users := st.users[i := st.users[i].(password := freshHash)])
      && reply.status == 200 && reply.grant.Some?
  {
  }

  /** A stored bcrypt hash is checked with bcrypt only, and the login
      changes nothing. */
  lemma HashedPasswordCompared(st: AuthState, email: Option<string>, password: Option<string>, now: int,
                               config: TokenConfig, compare: (string, string) -> bool, freshHash: string, i: nat)
    requires Truthy(email) && Truthy(password)
    requires FindByEmail(st.users, Text.Lower(email.value)) == Some(i)
    requires IsHashedPassword(st.users[i].password)
    ensures var (st1, reply) := LoginStep(st, email, password, now, config, compare, freshHash);
      st1 == st && reply.status == (if compare(password.value, st.users[i].password) then 200 else 401)
  {
  }

  /** A wrong password answers 401 without a token and changes nothing. */
  lemma WrongPasswordRefused(st: AuthState, email: Option<string>, password: Option<string>, now: int,
                             config: TokenConfig, compare: (string, string) -> bool, freshHash: string)
    requires Truthy(email) && Truthy(password)
    requires var i := FindByEmail(st.users, Text.Lower(email.value));
      i.Some? && (var stored := st.users[i.value].password;
        if IsHashedPassword(stored) then !compare(password.value, stored) else stored != password.value)
    ensures LoginStep(st, email, password, now, config, compare, freshHash) == (st, Answer(401, NotMatched))
  {
  }

  /** A login answers 200 exactly when it carries a token, and the token
      is the one `issueToken` makes for the user found. */
  lemma LoginGrantIffOk(st: AuthState, email: Option<string>, password: Option<string>, now: int,
                        config: TokenConfig, compare: (string, string) -> bool, freshHash: string)
    ensures var (_, reply) := LoginStep(st, email, password, now, config, compare, freshHash);
      && (reply.grant.Some? <==> reply.status == 200)
      && (reply.grant.Some? ==>
            Truthy(email) && FindByEmail(st.users, Text.Lower(email.value)).Some?
            && reply.grant.value
               == IssueToken(st.users[FindByEmail(st.users, Text.Lower(email.value)).value], now, config))
  {
  }

  /** Setting the logo stores the trimmed data URL, which is read back as
      the same payload; removing it stores the empty text. Nothing else of
      the user changes. */
  lemma LogoStoredTrimmed(st: AuthState, logo: Option<string>, decodedLength: string -> nat)
    ensures var (st1, reply) := UpdateLogoStep(st, logo, decodedLength);
      && (reply.status == 200 <==> CheckLogo(logo, decodedLength).Ok? && st.users != [])
      && (reply.status == 200 ==>
            st1.users == st.users[0 := st.users[0].(instituteLogo := Text.Trim(logo.value))]
            && ParseLogoBase64(Some(st1.users[0].instituteLogo)) == ParseLogoBase64(logo))
      && (reply.status != 200 ==> st1 == st)
    ensures var (st2, reply2) := DeleteLogoStep(st);
      reply2.status == 200 ==> st2.users == st.users[0 := st.users[0].(instituteLogo := "")]
  {
    var (st1, reply) := UpdateLogoStep(st, logo, decodedLength);
    if reply.status == 200 {
      assert st1.users[0].instituteLogo == Text.Trim(logo.value);
      Text.TrimIdempotent(logo.value);
      ParseSeesTrimmedText(Text.Trim(logo.value), logo.value);
    }
  }

  // ---------------------------------------------------------------------
  // The collections, updated in place.

  class Store {
    var users: seq<SystemUser>
    var otps: seq<OtpRecord>
    var outbox: seq<Mail>

    constructor ()
      ensures users == [] && otps == [] && outbox == []
    {
      users, otps, outbox := [], [], [];
    }

    function State(): AuthState
      reads this
    {
      AuthState(users, otps, outbox)
    }

    method CreateSystemUser(name: Option<string>, email: Option<string>, instituteName: Option<string>,
                            password: Option<string>, otp: Option<string>, now: int,
                            sha: string -> string, passwordHash: string) returns (reply: Reply)
      modifies this
      ensures (State(), reply) == CreateSystemUserStep(old(State()), name, email, instituteName, password,
                                                       otp, now, sha, passwordHash)
    {
      if !Truthy(name) || !Truthy(email) || !Truthy(instituteName) || !Truthy(password) || !Truthy(otp) {
        return Answer(400, AllFieldsRequired);
      }
      if users != [] {
        return Answer(409, UserExists);
      }
      if !OtpAccepted(otps, email.value, AuthRules.CreateSystemUser, sha(otp.value), now) {
        return Answer(400, InvalidCode);
      }
      users := [SystemUser(name.value, email.value, instituteName.value, passwordHash, "")];
      otps := PurgeOtps(otps, OtpKey(email.value), AuthRules.CreateSystemUser);
      reply := Answer(201, UserCreated);
    }

    method RequestSystemUserOtp(email: Option<string>, name: Option<string>, n: nat, now: int,
                                sha: string -> string, mailFails: bool) returns (reply: Reply)
      requires OtpLow <= n < OtpHigh
      modifies this
      ensures (State(), reply) == RequestSystemUserOtpStep(old(State()), email, name, n, now, sha, mailFails)
    {
      if !Truthy(email) {
        return Answer(400, EmailRequired);
      }
      if users != [] {
        return Answer(409, UserExists);
      }
      otps := otps + [IssuedOtp(email.value, n, AuthRules.CreateSystemUser, now, sha)];
      if mailFails {
        return Answer(500, CodeNotSent);
      }
      outbox := outbox + [Mail(email.value, name, OtpText(n), "create")];
      reply := Answer(200, CodeSent);
    }

    method Login(email: Option<string>, password: Option<string>, now: int, config: TokenConfig,
                 compare: (string, string) -> bool, freshHash: string) returns (reply: Reply)
      modifies this
      ensures (State(), reply) == LoginStep(old(State()), email, password, now, config, compare, freshHash)
    {
      if !Truthy(email) || !Truthy(password) {
        return Answer(400, CredentialsRequired);
      }
      var found := FindByEmail(users, Text.Lower(email.value));
      if found.None? {
        return Answer(404, NoUser);
      }
      var i := found.value;
      var stored := users[i].password;
      var matches := false;
      if IsHashedPassword(stored) {
        matches := compare(password.value, stored);
      } else {
        matches := stored == password.value;
        if matches {
          users := users[i := users[i].(password := freshHash)];
        }
      }
      if !matches {
        return Answer(401, NotMatched);
      }
      reply := Reply(200, LoginOk, Some(IssueToken(users[i], now, config)));
    }

    method RequestPasswordResetOtp(email: Option<string>, n: nat, now: int, sha: string -> string,
                                   mailFails: bool) returns (reply: Reply)
      requires OtpLow <= n < OtpHigh
      modifies this
      ensures (State(), reply) == RequestPasswordResetOtpStep(old(State()), email, n, now, sha, mailFails)
    {
      if !Truthy(email) {
        return Answer(400, EmailRequired);
      }
      if users == [] {
        return Answer(404, NoUser);
      }
      if users[0].email != Text.Lower(email.value) {
        return Answer(400, EmailMismatch);
      }
      otps := otps + [IssuedOtp(email.value, n, AuthRules.ResetPassword, now, sha)];
      if mailFails {
        return Answer(500, CodeNotSent);
      }
      outbox := outbox + [Mail(email.value, Some(users[0].name), OtpText(n), "reset")];
      reply := Answer(200, CodeSent);
    }

    method ResetPassword(email: Option<string>, otp: Option<string>, newPassword: Option<string>, now: int,
                         sha: string -> string, freshHash: string) returns (reply: Reply)
      modifies this
      ensures (State(), reply) == ResetPasswordStep(old(State()), email, otp, newPassword, now, sha, freshHash)
    {
      if !Truthy(email) || !Truthy(otp) || !Truthy(newPassword) {
        return Answer(400, ResetFieldsRequired);
      }
      if users == [] {
        return Answer(404, NoUser);
      }
      if users[0].email != Text.Lower(email.value) {
        return Answer(400, EmailMismatch);
      }
      if !OtpAccepted(otps, email.value, AuthRules.ResetPassword, sha(otp.value), now) {
        return Answer(400, InvalidCode);
      }
      users := users[0 := users[0].(password := freshHash)];
      otps := PurgeOtps(otps, OtpKey(email.value), AuthRules.ResetPassword);
      reply := Answer(200, ResetOk);
    }

    method UpdateSystemUserLogo(logo: Option<string>, decodedLength: string -> nat) returns (reply: Reply)
      modifies this
      ensures (State(), reply) == UpdateLogoStep(old(State()), logo, decodedLength)
    {
      var checked := CheckLogo(logo, decodedLength);
      if checked.Err? {
        return Answer(400, checked.error);
      }
      if users == [] {
        return Answer(404, NoUser);
      }
      users := users[0 := users[0].(instituteLogo := checked.value)];
      reply := Answer(200, LogoUpdated);
    }

    method DeleteSystemUserLogo() returns (reply: Reply)
      modifies this
      ensures (State(), reply) == DeleteLogoStep(old(State()))
    {
      if users == [] {
        return Answer(404, NoUser);
      }
      users := users[0 := users[0].(instituteLogo := "")];
      reply := Answer(200, LogoRemoved);
    }
  }
}
