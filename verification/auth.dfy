/** The user-profile server actions (`registerAdmin`, `createOrUpdateUser`,
    `checkUserRole`). Sign-up, the session lookup, the `is_admin` RPC and
    every refusal by the database enter as inputs; the `users` table is a
    map from id to row. */
module Auth {
  import opened Wrappers
  import opened Text
  import opened Store
  import Middleware

  /** The error test both `registerAdmin` and `checkUserRole` use for a
      row-level security refusal. */
  predicate PermissionDenied(e: DbError) {
    e.code == "42501" || Includes(e.message, "permission")
  }

  /* ---------------------------------------------------------------------- */
  /* createOrUpdateUser                                                     */
  /* ---------------------------------------------------------------------- */

  /** The default of the `role` parameter. */
  const CustomerRole: string := "customer"

  /** `{ success: true, user }` or `{ success: false, error, code }`. */
  datatype UserOutcome = UserSaved(user: UserRow) | UserNotSaved(error: string, code: string)

  /** The answer together with the users table afterwards. */
  datatype Upsert = Upsert(outcome: UserOutcome, users: Users)

  /** `createOrUpdateUser(userId, email, role)`; `role` is None when the
      caller leaves it out. `lookupError` is the error of the
      `maybeSingle()` lookup, after which the data is null; `refused` is a
      refusal of the write. */
  function CreateOrUpdateUser(users: Users, userId: Id, email: string, role: Option<string>,
                              lookupError: Option<DbError>, refused: Option<DbError>): (r: Upsert)
    // a lookup error other than "no rows" is returned before any write
    ensures lookupError.Some? && lookupError.value.code != NoRows.code ==>
              r == Upsert(UserNotSaved(lookupError.value.message, lookupError.value.code), users)
    ensures r.outcome.UserNotSaved? ==> r.users == users
    ensures OnlyKeyChanges(users, r.users, userId)
    // a saved user carries the requested role, in the table and in the answer
    ensures r.outcome.UserSaved? ==>
              && userId in r.users
              && r.users[userId].role == Some(role.GetOr(CustomerRole))
              && r.outcome.user.role == Some(role.GetOr(CustomerRole))
              && r.outcome.user.email == email
    // a write happens only when the row is missing or has another role
    ensures r.users != users ==> userId !in users || users[userId].role != Some(role.GetOr(CustomerRole))
    // without a lookup error a missing row is inserted, a row with another role rewritten
    ensures lookupError.None? && userId !in users && refused.None? ==>
              r.users == users[userId := UserRow(email, None, Some(role.GetOr(CustomerRole)))]
    ensures lookupError.None? && userId in users && users[userId].role != Some(role.GetOr(CustomerRole))
            && refused.None? ==>
              r.users == users[userId := users[userId].(role := Some(role.GetOr(CustomerRole)), email := email)]
    ensures lookupError.None? && refused.None? ==> r.outcome.UserSaved?
  {
    var wanted := role.GetOr(CustomerRole);
    if lookupError.Some? && lookupError.value.code != NoRows.code then
      Upsert(UserNotSaved(lookupError.value.message, lookupError.value.code), users)
    else if lookupError.None? && userId in users then
      var existing := users[userId];
      if existing.role != Some(wanted) then
        match UpdateRow(users, userId, (row: UserRow) => row.(role := Some(wanted), email := email), refused)
        case Success(after) => Upsert(UserSaved(after[userId]), after)
        case Failure(e) => Upsert(UserNotSaved(e.message, e.code), users)
      else
        // `{ ...existingUser, email }`: the lookup selected only id and role
        Upsert(UserSaved(UserRow(email, None, existing.role)), users)
    else
      var row := UserRow(email, None, Some(wanted));
      match InsertRow(users, userId, row, refused)
      case Success(after) => Upsert(UserSaved(row), after)
      case Failure(e) => Upsert(UserNotSaved(e.message, e.code), users)
  }

  /** A second call with the same arguments, once the first has succeeded,
      writes nothing. */
  lemma CreateOrUpdateUserSettles(users: Users, userId: Id, email: string, role: Option<string>)
    requires CreateOrUpdateUser(users, userId, email, role, None, None).outcome.UserSaved?
    ensures var after := CreateOrUpdateUser(users, userId, email, role, None, None).users;
            CreateOrUpdateUser(after, userId, email, role, None, None).users == after
  {
  }

  /** When the role already matches, the answer carries the passed email
      although the stored row keeps its old one. */
  lemma MatchingRoleKeepsStoredEmail(users: Users, userId: Id, email: string, role: Option<string>)
    requires userId in users && users[userId].role == Some(role.GetOr(CustomerRole))
    requires users[userId].email != email
    ensures var r := CreateOrUpdateUser(users, userId, email, role, None, None);
            r.outcome.UserSaved? && r.outcome.user.email == email && r.users[userId].email != email
  {
  }

  /* ---------------------------------------------------------------------- */
  /* checkUserRole                                                          */
  /* ---------------------------------------------------------------------- */

  /** `supabase.auth.getUser()`: an error, no user, or a signed-in user. */
  datatype Session = SessionError | NoSession | SignedIn(id: Id)

  /** The `is_admin` RPC: it throws, returns an error, or returns a value. */
  datatype AdminRpc = RpcThrew | RpcFailed | RpcAnswered(value: bool)

  /** The answer of `checkUserRole`. `Known` has `success` and `exists` true;
      `Unknown` has both false. */
  datatype RoleCheck =
    | Known(id: Id, email: Option<string>, role: Option<string>, isAdmin: bool)
    | Unknown(error: string, code: Option<string>)

  const ConfigMissingText: string := "Supabase configuration missing. Please check your environment variables."
  const InvalidIdText: string := "Invalid user ID"
  const SessionExpiredText: string := "Authentication session expired. Please login again."
  const MismatchText: string := "User ID mismatch. Please login again."
  const NotFoundText: string := "User record not found in database. Please ensure your user record exists."
  const RoleFailedText: string := "Failed to check user role"
  const UnknownCode: string := "UNKNOWN"

  /** The four guards of `checkUserRole` all pass. */
  predicate Guarded(configured: bool, userId: Id, session: Session) {
    configured && userId != "" && session == SignedIn(userId)
  }

  /** `checkUserRole(userId)`. `configured` says whether both Supabase
      environment variables are set; `lookupError` is the error of the
      `maybeSingle()` lookup of the row. */
  function CheckUserRole(configured: bool, userId: Id, session: Session, users: Users,
                         lookupError: Option<DbError>, rpc: AdminRpc): (r: RoleCheck)
    // the guards, in order
    ensures !configured ==> r == Unknown(ConfigMissingText, None)
    ensures configured && userId == "" ==> r == Unknown(InvalidIdText, None)
    ensures configured && userId != "" && !session.SignedIn? ==> r == Unknown(SessionExpiredText, None)
    ensures configured && userId != "" && session.SignedIn? && session.id != userId ==>
              r == Unknown(MismatchText, None)
    ensures r.Known? ==> Guarded(configured, userId, session) && r.id == userId
    // a successful lookup: found iff the row exists, admin iff its role normalises to "admin"
    ensures Guarded(configured, userId, session) && lookupError.None? ==>
              (r.Known? <==> userId in users)
    ensures Guarded(configured, userId, session) && lookupError.None? && userId !in users ==>
              r == Unknown(NotFoundText, None)
    ensures r.Known? && lookupError.None? ==>
              && r.email == Some(users[userId].email)
              && r.role == users[userId].role
              && (r.isAdmin <==> r.role.Some? && NormaliseRole(r.role.value) == "admin")
    // a failed lookup: admin only through a permission fallback whose RPC answers true
    ensures Guarded(configured, userId, session) && lookupError.Some? ==>
              (r.Known? <==> PermissionDenied(lookupError.value) && rpc == RpcAnswered(true))
    ensures r.Known? && lookupError.Some? ==> r == Known(userId, None, Some("admin"), true)
    ensures Guarded(configured, userId, session) && lookupError.Some? && r.Unknown? ==>
              r == Unknown(MessageOr(lookupError.value.message, RoleFailedText),
                           Some(MessageOr(lookupError.value.code, UnknownCode)))
  {
    if !configured then Unknown(ConfigMissingText, None)
    else if userId == "" then Unknown(InvalidIdText, None)
    else if !session.SignedIn? then Unknown(SessionExpiredText, None)
    else if session.id != userId then Unknown(MismatchText, None)
    else if lookupError.Some? then
      var e := lookupError.value;
      if PermissionDenied(e) && rpc == RpcAnswered(true) then Known(userId, None, Some("admin"), true)
      else Unknown(MessageOr(e.message, RoleFailedText), Some(MessageOr(e.code, UnknownCode)))
    else if userId !in users then Unknown(NotFoundText, None)
    else
      var row := users[userId];
      var isAdmin := match row.role
        case Some(role) => NormaliseRole(role) == "admin"
        case None => false;
      Known(userId, Some(row.email), row.role, isAdmin)
  }

  /** With a successful lookup, `checkUserRole` calls a user an admin exactly
      when the route guard admits that user to a protected page. */
  lemma CheckAgreesWithGuard(userId: Id, users: Users, rpc: AdminRpc)
    requires userId != "" && userId in users
    ensures var r := CheckUserRole(true, userId, SignedIn(userId), users, None, rpc);
            r.Known? && (r.isAdmin <==>
              Middleware.Decide(Middleware.AdminPath, Some(userId), Middleware.Row(users[userId].role))
              == Middleware.Next)
  {
    assert StartsWith(Middleware.AdminPath, Middleware.AdminPath);
    assert Middleware.AdminPath !in Middleware.PublicPages;
  }

  /** A user saved by `createOrUpdateUser` is read back by `checkUserRole`
      with the requested role (default "customer"), and is an admin exactly
      when that role normalises to "admin". */
  lemma SavedUserReadsBack(users: Users, userId: Id, email: string, role: Option<string>,
                           lookupError: Option<DbError>, refused: Option<DbError>, rpc: AdminRpc)
    requires userId != ""
    requires CreateOrUpdateUser(users, userId, email, role, lookupError, refused).outcome.UserSaved?
    ensures var after := CreateOrUpdateUser(users, userId, email, role, lookupError, refused).users;
            var r := CheckUserRole(true, userId, SignedIn(userId), after, None, rpc);
            && r.Known? && r.role == Some(role.GetOr(CustomerRole))
            && (r.isAdmin <==> NormaliseRole(role.GetOr(CustomerRole)) == "admin")
  {
  }

  /** The admin gate of the other server actions is stricter: it compares
      the raw role, so a role that only normalises to "admin" passes
      `checkUserRole` but fails the gate. */
  lemma GateStricterThanCheck(userId: Id, users: Users, rpc: AdminRpc)
    requires userId != "" && userId in users
    ensures IsAdmin(users, Some(userId)) ==>
              CheckUserRole(true, userId, SignedIn(userId), users, None, rpc).isAdmin
    ensures users[userId].role.Some? && NormaliseRole(users[userId].role.value) == "admin"
            && users[userId].role != Some("admin") ==>
              CheckUserRole(true, userId, SignedIn(userId), users, None, rpc).isAdmin
              && !IsAdmin(users, Some(userId))
  {
    var r := CheckUserRole(true, userId, SignedIn(userId), users, None, rpc);
    assert r.Known? && r.role == users[userId].role;
    if IsAdmin(users, Some(userId)) {
      Middleware.RawAdminIsAdmitted();
    }
  }

  /* ---------------------------------------------------------------------- */
  /* registerAdmin                                                          */
  /* ---------------------------------------------------------------------- */

  /** `supabase.auth.signUp(...)`: an error with a message and an optional
      HTTP status, no user, or the new user with its id and email ("" when
      the auth service gives none). */
  datatype SignUp = SignUpError(message: string, status: Option<int>) | NoAuthUser | SignedUpUser(id: Id, email: string)

  /** The `code` field of a failed registration. */
  datatype Code = NoCode | UserExistsCode | StatusCode(status: int) | DbCode(code: string)

  /** `{ success: true, user, message }` or `{ success: false, error, code }`. */
  datatype Registration = Registered(user: UserRow, message: string) | NotRegistered(error: string, code: Code)

  /** The answer together with the users table afterwards. */
  datatype Register = Register(outcome: Registration, users: Users)

  const ExistsText: string := "This email is already registered. Please use the login page instead."
  const SignUpFailedText: string := "Failed to create account. Please try again."
  const NoAccountText: string := "Failed to create user account. Please try again."
  const RoleNotSetText: string := "Account created but failed to set admin role. Please contact support."
  const ProfileFailedText: string := "Failed to create user profile"
  const CreatedText: string := "Admin account created successfully! You can now login."
  const UpdatedText: string := "Admin account updated successfully! You can now login."

  /** The sign-up error messages that mean the account exists already. */
  predicate AlreadyExists(message: string) {
    Includes(message, "already registered") || Includes(message, "already exists")
  }

  /** A duplicate key is not mistaken for a permission refusal. */
  lemma NoPermissionInDuplicateKey()
    ensures !PermissionDenied(DuplicateKey)
  {
    assert 'm' !in "duplicate key value ";
    assert 'm' !in "violates unique ";
    assert 'm' !in "constraint";
    IncludesChars(DuplicateKey.message, "permission", 'm');
  }

  /** `registerAdmin(email, password, name)`. The password only reaches the
      auth service, whose answer is `signUp`. `insertRefused` and
      `updateRefused` are refusals of the profile insert and of the
      fallback update; a row the sign-up trigger already created makes the
      insert fail as a duplicate key. */
  function RegisterAdmin(users: Users, email: string, name: string, signUp: SignUp,
                         insertRefused: Option<DbError>, updateRefused: Option<DbError>): (r: Register)
    // an existing account is reported without touching the table
    ensures signUp.SignUpError? && AlreadyExists(signUp.message) ==>
              r == Register(NotRegistered(ExistsText, UserExistsCode), users)
    ensures !signUp.SignedUpUser? ==> r.outcome.NotRegistered? && r.users == users
    ensures r.outcome.NotRegistered? ==> r.users == users
    ensures signUp.SignedUpUser? ==> OnlyKeyChanges(users, r.users, signUp.id)
    // every registration leaves an admin row with the given name, and answers with it
    ensures r.outcome.Registered? ==>
              && signUp.SignedUpUser?
              && signUp.id in r.users
              && r.users[signUp.id].role == Some("admin")
              && r.users[signUp.id].name == Some(name)
              && r.outcome.user == r.users[signUp.id]
    // a fresh row is inserted with the auth email, falling back to the given one
    ensures signUp.SignedUpUser? && signUp.id !in users && insertRefused.None? ==>
              r == Register(Registered(UserRow(MessageOr(signUp.email, email), Some(name), Some("admin")), CreatedText),
                            users[signUp.id := UserRow(MessageOr(signUp.email, email), Some(name), Some("admin"))])
    // a permission refusal falls back to an update that also rewrites the email
    ensures signUp.SignedUpUser? && insertRefused.Some? && PermissionDenied(insertRefused.value)
            && signUp.id in users && updateRefused.None? ==>
              r.outcome == Registered(r.users[signUp.id], CreatedText)
              && r.users[signUp.id].email == MessageOr(signUp.email, email)
    // a row left by the sign-up trigger is updated, keeping its email
    ensures signUp.SignedUpUser? && insertRefused.None? && signUp.id in users && updateRefused.None? ==>
              r.outcome == Registered(r.users[signUp.id], UpdatedText)
              && r.users[signUp.id].email == users[signUp.id].email
  {
    NoPermissionInDuplicateKey();
    match signUp
    case SignUpError(message, status) =>
      if AlreadyExists(message) then Register(NotRegistered(ExistsText, UserExistsCode), users)
      else
        var code := if status.Some? then StatusCode(status.value) else NoCode;
        Register(NotRegistered(MessageOr(message, SignUpFailedText), code), users)
    case NoAuthUser => Register(NotRegistered(NoAccountText, NoCode), users)
    case SignedUpUser(id, authEmail) =>
      var address := MessageOr(authEmail, email);
      var row := UserRow(address, Some(name), Some("admin"));
      match InsertRow(users, id, row, insertRefused)
      case Success(after) => Register(Registered(row, CreatedText), after)
      case Failure(e) =>
        var failed := Register(NotRegistered(MessageOr(e.message, ProfileFailedText), DbCode(e.code)), users);
        if PermissionDenied(e) then
          match UpdateRow(users, id, (r0: UserRow) => r0.(role := Some("admin"), name := Some(name), email := address), updateRefused)
          case Success(after) => Register(Registered(after[id], CreatedText), after)
          case Failure(u) => Register(NotRegistered(RoleNotSetText, DbCode(u.code)), users)
        else if e.code == "23505" then
          match UpdateRow(users, id, (r0: UserRow) => r0.(role := Some("admin"), name := Some(name)), updateRefused)
          case Success(after) => Register(Registered(after[id], UpdatedText), after)
          case Failure(_) => failed
        else failed
  }

  /** A registered account is an admin for every check in the system: the
      action gate, `checkUserRole` and the route guard. */
  lemma RegisteredIsAdmin(users: Users, email: string, name: string, signUp: SignUp,
                          insertRefused: Option<DbError>, updateRefused: Option<DbError>, rpc: AdminRpc)
    requires signUp.SignedUpUser? && signUp.id != ""
    requires RegisterAdmin(users, email, name, signUp, insertRefused, updateRefused).outcome.Registered?
    ensures var after := RegisterAdmin(users, email, name, signUp, insertRefused, updateRefused).users;
            && IsAdmin(after, Some(signUp.id))
            && CheckUserRole(true, signUp.id, SignedIn(signUp.id), after, None, rpc).isAdmin
            && Middleware.Decide(Middleware.AdminPath, Some(signUp.id), Middleware.Row(after[signUp.id].role))
               == Middleware.Next
  {
    var after := RegisterAdmin(users, email, name, signUp, insertRefused, updateRefused).users;
    GateStricterThanCheck(signUp.id, after, rpc);
    CheckAgreesWithGuard(signUp.id, after, rpc);
  }
}
