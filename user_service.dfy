/**
 * app/services/user_service.py: the user endpoints over the `users` table.
 * Each endpoint is a method on the table, proved equal to a function of
 * the table before the request that gives the reply and the table after.
 */
module UserService {
  import opened Wrappers
  import opened Http
  import opened Json
  import opened Enums
  import opened Passwords
  import opened DbErrors
  import opened Tokens
  import opened UserStore
  import opened UserSchemas
  import opened RequestSchemas
  import opened ResponseSchemas
  import opened AuthService

  type Reply = Outcome<ResponseModel<Json>>

  /** An endpoint's reply and the table after it. */
  datatype ServiceResult = ServiceResult(reply: Reply, rows: Rows)

  predicate Succeeded(reply: Reply)
  {
    reply.Done? && reply.value.success
  }

  const InvalidUserId := HttpError(StatusNotFound, "Invalid user_id")
  const UnprocessableUpdate := HttpError(StatusUnprocessable, "Data provided is invalid or cannot be processed.")
  const AdminOnly: Option<seq<UserType>> := Some([Admin])

  /** The success reply of an endpoint that answers with the user's id. */
  function IdReply(id: Uuid, message: string): Reply
  {
    Done(Success(StatusOk, Some(JObject(map["id" := JStr(id)])), Some(message)))
  }

  function MessageReply(message: string): Reply
  {
    Done(Success(StatusOk, None, Some(message)))
  }

  /** The reply a failed database call turns into. */
  function DbFailure(e: DbError): (r: Reply)
    ensures r.Done? && !r.value.success && r.value.status == HandleDbErrors(e).statusCode
  {
    Done(Failure(HandleDbErrors(e)))
  }

  /** `UUID(payload['id'])`: the caller's id, when the claim is a string. */
  function CallerId(payload: Claims): Option<Uuid>
  {
    if "id" in payload && payload["id"].CStr? then Some(payload["id"].s) else None
  }

  const BadCallerId := "ValueError: badly formed hexadecimal UUID string"

  // ---------------------------------------------------------------------
  // __get_user_by_id

  /** `[UserModel.id == id]`, extended with `is_deleted == flag` when a flag is given. */
  function ByIdConditions(id: Uuid, isDeleted: Option<bool>): (c: seq<Condition>)
    ensures IdIs(id) in c
    ensures forall row :: MatchesAll(row, c) <==> row.id == id && (isDeleted.Some? ==> row.isDeleted == isDeleted.value)
  {
    var c := [IdIs(id)] + if isDeleted.Some? then [IsDeletedIs(isDeleted.value)] else [];
    assert forall row :: MatchesAll(row, c) <==> row.id == id && (isDeleted.Some? ==> row.isDeleted == isDeleted.value) by {
      forall row ensures MatchesAll(row, c) <==> row.id == id && (isDeleted.Some? ==> row.isDeleted == isDeleted.value) {
        assert Holds(row, c[0]) <==> row.id == id;
        if isDeleted.Some? {
          assert Holds(row, c[1]) <==> row.isDeleted == isDeleted.value;
        }
      }
    }
    c
  }

  /** A lookup either finds the row or ends the request with the reply to send. */
  datatype Lookup = Found(row: UserRow) | Stop(reply: Reply)

  /**
   * `__get_user_by_id` as its callers need it: the stored row under `id`
   * when it passes the deletion filter, 404 when there is none, and the
   * database error's reply when the query fails.
   */
  function LookupUser(rows: Rows, id: Uuid, isDeleted: Option<bool>, fault: Option<DbError>): (r: Lookup)
    requires Unique(rows)
    ensures r.Found? <==> fault.None? && id in rows && (isDeleted.Some? ==> rows[id].isDeleted == isDeleted.value)
    ensures r.Found? ==> r.row == rows[id]
    ensures fault.Some? ==> r == Stop(DbFailure(fault.value))
    ensures fault.None? && !r.Found? ==> r == Stop(Raised(InvalidUserId))
  {
    var conds := ByIdConditions(id, isDeleted);
    IdLookupIsUnique(rows, id, conds);
    assert id in rows && MatchesAll(rows[id], conds) ==> id in Matching(rows, conds);
    match OneOrNone(rows, conds, fault)
    case FetchFailed(e) => Stop(DbFailure(e))
    case NoRow => Stop(Raised(InvalidUserId))
    case OneRow(row) =>
      OneRowIsStored(rows, conds, fault);
      Found(row)
  }

  /** `__get_user_by_id` on the table, building the conditions one by one. */
  method GetUserById(db: UserTable, id: Uuid, isDeleted: Option<bool>, fault: Option<DbError>) returns (r: Lookup)
    requires db.Valid()
    ensures r == LookupUser(db.rows, id, isDeleted, fault)
  {
    var whereArgs := [IdIs(id)];
    if isDeleted.Some? {
      whereArgs := whereArgs + [IsDeletedIs(isDeleted.value)];
    }
    assert whereArgs == ByIdConditions(id, isDeleted);
    var fetched := db.ScalarOneOrNone(whereArgs, fault);
    match fetched
    case FetchFailed(e) => r := Stop(DbFailure(e));
    case NoRow => r := Stop(Raised(InvalidUserId));
    case OneRow(row) => r := Found(row);
  }

  /** What `__get_user_by_id` returns as written: a row, or on a database error a `ResponseModel` in its place. */
  datatype Got = GotRow(row: UserRow) | GotResponse(response: ResponseModel<Json>)

  function GetUserByIdAsWritten(rows: Rows, id: Uuid, isDeleted: Option<bool>, fault: Option<DbError>): (r: Outcome<Got>)
    ensures fault.Some? ==> r == Done(GotResponse(Failure(HandleDbErrors(fault.value))))
  {
    match OneOrNone(rows, ByIdConditions(id, isDeleted), fault)
    case FetchFailed(e) => Done(GotResponse(Failure(HandleDbErrors(e))))
    case NoRow => Raised(InvalidUserId)
    case OneRow(row) => Done(GotRow(row))
  }

  /** Every caller's next step treats what it got as a row (`.id`, `.to_dict()`, or setting `is_deleted`). */
  function UseAsRow(got: Outcome<Got>): (r: Outcome<UserRow>)
    ensures got.Done? && got.value.GotResponse? ==> r.Crashed?
    ensures got.Done? && got.value.GotRow? ==> r == Done(got.value.row)
  {
    match got
    case Done(GotRow(row)) => Done(row)
    case Done(GotResponse(_)) => Crashed("AttributeError: 'ResponseModel' object has no attribute 'id'")
    case Raised(e) => Raised(e)
    case Crashed(why) => Crashed(why)
  }

  /**
   * As written, a failing lookup becomes an unhandled error (a 500) in
   * every caller, where the database error's own reply was meant.
   */
  lemma LookupFailureCrashesCallers(rows: Rows, id: Uuid, isDeleted: Option<bool>, e: DbError)
    requires Unique(rows)
    ensures UseAsRow(GetUserByIdAsWritten(rows, id, isDeleted, Some(e))).Crashed?
    ensures LookupUser(rows, id, isDeleted, Some(e)) == Stop(DbFailure(e))
    ensures HandleDbErrors(e).statusCode != StatusInternalError ==>
              LookupUser(rows, id, isDeleted, Some(e)).reply.value.status != StatusInternalError
  {
  }

  // ---------------------------------------------------------------------
  // __update_user_by_id

  /** The update sends null for some column; every column is NOT NULL. */
  predicate SendsNull(u: UpdateUser)
  {
    u.username.SetNull? || u.email.SetNull? || u.password.SetNull? || u.status.SetNull? || u.isDeleted.SetNull? || u.isVerified.SetNull?
  }

  function Pick<T>(f: Field<T>, current: T): T
  {
    if f.SetTo? then f.value else current
  }

  /**
   * The row after `UPDATE users SET <dump> WHERE id = row.id`, with a sent
   * password stored hashed: every sent column takes its new value, every
   * other column keeps its own, and a null is refused by NOT NULL.
   */
  function ApplyUpdate(row: UserRow, u: UpdateUser, salt: nat): (r: Result<UserRow, DbError>)
    ensures r.Err? <==> SendsNull(u)
    ensures r.Err? ==> r.error == NullValue
    ensures r.Ok? ==> r.value.id == row.id && r.value.userType == row.userType
    ensures r.Ok? ==> r.value.username == Pick(u.username, row.username) && r.value.email == Pick(u.email, row.email)
    ensures r.Ok? ==> r.value.status == Pick(u.status, row.status)
    ensures r.Ok? ==> r.value.isDeleted == Pick(u.isDeleted, row.isDeleted) && r.value.isVerified == Pick(u.isVerified, row.isVerified)
    ensures r.Ok? && u.password.SetTo? ==> r.value.password == HashPassword(u.password.value, salt)
    ensures r.Ok? && u.password.Unset? ==> r.value.password == row.password
  {
    if SendsNull(u) then Err(NullValue)
    else
      var password := if u.password.SetTo? then HashPassword(u.password.value, salt) else row.password;
      Ok(row.(username := Pick(u.username, row.username), email := Pick(u.email, row.email), password := password,
              status := Pick(u.status, row.status), isDeleted := Pick(u.isDeleted, row.isDeleted),
              isVerified := Pick(u.isVerified, row.isVerified)))
  }

  /** The row as the update writes it as written: the password column receives the submitted text itself. */
  function ApplyUpdateAsWritten(row: UserRow, u: UpdateUser): (r: Result<UserRow, DbError>)
    ensures r.Err? <==> SendsNull(u)
    ensures r.Ok? && u.password.SetTo? ==> r.value.password == Unrecognised(u.password.value)
  {
    if SendsNull(u) then Err(NullValue)
    else
      var password := if u.password.SetTo? then Unrecognised(u.password.value) else row.password;
      Ok(row.(username := Pick(u.username, row.username), email := Pick(u.email, row.email), password := password,
              status := Pick(u.status, row.status), isDeleted := Pick(u.isDeleted, row.isDeleted),
              isVerified := Pick(u.isVerified, row.isVerified)))
  }

  /** As written, a password set by an update can never be checked again; stored hashed, it verifies. */
  lemma UpdatedPasswordCannotBeVerified(row: UserRow, u: UpdateUser, salt: nat, laterSalt: nat)
    requires !SendsNull(u) && u.password.SetTo?
    ensures VerifyPassword(u.password.value, ApplyUpdateAsWritten(row, u).value.password, laterSalt).Err?
    ensures VerifyPassword(u.password.value, ApplyUpdate(row, u, salt).value.password, laterSalt) == Ok(Verification(true, None))
  {
    HashThenVerify(u.password.value, u.password.value, salt, laterSalt);
  }

  /** Every gate of an update passes. */
  predicate UpdateAllowed(rows: Rows, id: Uuid, u: UpdateUser, salt: nat, lookupFault: Option<DbError>, commitFault: Option<DbError>)
  {
    && !NothingSet(u) && lookupFault.None? && id in rows && !rows[id].isDeleted && !SendsNull(u) && commitFault.None?
    && Unique(rows[id := ApplyUpdate(rows[id], u, salt).value])
  }

  /**
   * `__update_user_by_id`: an update with nothing sent is refused before
   * any lookup; the user must exist and not be deleted; on success only
   * that user's row changes, as `ApplyUpdate` says, and the reply carries
   * its id; on any failure the table is unchanged.
   */
  function UpdateUserByIdSpec(rows: Rows, id: Uuid, u: UpdateUser, salt: nat,
                              lookupFault: Option<DbError>, commitFault: Option<DbError>): (r: ServiceResult)
    requires Unique(rows)
    ensures Unique(r.rows)
    ensures NothingSet(u) ==> r == ServiceResult(Raised(UnprocessableUpdate), rows)
    ensures !NothingSet(u) && lookupFault.None? && (id !in rows || rows[id].isDeleted) ==>
              r == ServiceResult(Raised(InvalidUserId), rows)
    ensures !NothingSet(u) && lookupFault.None? && id in rows && !rows[id].isDeleted && SendsNull(u) ==>
              r == ServiceResult(DbFailure(NullValue), rows)
    ensures Succeeded(r.reply) <==> UpdateAllowed(rows, id, u, salt, lookupFault, commitFault)
    ensures Succeeded(r.reply) ==>
              r.rows == rows[id := ApplyUpdate(rows[id], u, salt).value] && r.reply == IdReply(id, "User updated successfully.")
    ensures !Succeeded(r.reply) ==> r.rows == rows
  {
    if NothingSet(u) then ServiceResult(Raised(UnprocessableUpdate), rows)
    else match LookupUser(rows, id, Some(false), lookupFault)
      case Stop(reply) => ServiceResult(reply, rows)
      case Found(row) =>
        match ApplyUpdate(row, u, salt)
        case Err(e) => ServiceResult(DbFailure(e), rows)
        case Ok(updated) =>
          match Committed(rows[id := updated], commitFault)
          case Err(e) => ServiceResult(DbFailure(e), rows)
          case Ok(next) => ServiceResult(IdReply(id, "User updated successfully."), next)
  }

  method UpdateUserById(db: UserTable, id: Uuid, u: UpdateUser, salt: nat,
                        lookupFault: Option<DbError>, commitFault: Option<DbError>) returns (reply: Reply)
    requires db.Valid()
    modifies db
    ensures db.Valid()
    ensures reply == UpdateUserByIdSpec(old(db.rows), id, u, salt, lookupFault, commitFault).reply
    ensures db.rows == UpdateUserByIdSpec(old(db.rows), id, u, salt, lookupFault, commitFault).rows
  {
    var userDict := UpdateDump(u);
    EmptyDumpMeansNothingSet(u);
    if userDict == map[] {
      return Raised(UnprocessableUpdate);
    }
    var found := GetUserById(db, id, Some(false), lookupFault);
    if found.Stop? {
      return found.reply;
    }
    var applied := ApplyUpdate(found.row, u, salt);
    if applied.Err? {
      return DbFailure(applied.error);
    }
    var error := db.Commit(db.rows[id := applied.value], commitFault);
    if error.Some? {
      return DbFailure(error.value);
    }
    reply := IdReply(id, "User updated successfully.");
  }

  /**
   * `__update_user_by_id` as written: a failing lookup hands its
   * `ResponseModel` on as if it were the row, which crashes the request,
   * and a sent password is written as the submitted text.
   */
  function UpdateUserByIdAsWritten(rows: Rows, id: Uuid, u: UpdateUser,
                                   lookupFault: Option<DbError>, commitFault: Option<DbError>): (r: ServiceResult)
    requires Unique(rows)
    ensures Unique(r.rows)
    ensures NothingSet(u) ==> r == ServiceResult(Raised(UnprocessableUpdate), rows)
    ensures !NothingSet(u) && lookupFault.Some? ==> r.reply.Crashed? && r.rows == rows
    ensures Succeeded(r.reply) ==>
              && id in rows && ApplyUpdateAsWritten(rows[id], u).Ok?
              && r.rows == rows[id := ApplyUpdateAsWritten(rows[id], u).value]
    ensures !Succeeded(r.reply) ==> r.rows == rows
  {
    if NothingSet(u) then ServiceResult(Raised(UnprocessableUpdate), rows)
    else match UseAsRow(GetUserByIdAsWritten(rows, id, Some(false), lookupFault))
      case Raised(e) => ServiceResult(Raised(e), rows)
      case Crashed(why) => ServiceResult(Crashed(why), rows)
      case Done(row) =>
        OneRowIsStored(rows, ByIdConditions(id, Some(false)), lookupFault);
        match ApplyUpdateAsWritten(row, u)
        case Err(e) => ServiceResult(DbFailure(e), rows)
        case Ok(updated) =>
          match Committed(rows[id := updated], commitFault)
          case Err(e) => ServiceResult(DbFailure(e), rows)
          case Ok(next) => ServiceResult(IdReply(id, "User updated successfully."), next)
  }

  /** Whether a replaced row keeps the table unique depends only on its id, username and email. */
  lemma SameNamesSameUniqueness(rows: Rows, x: UserRow, y: UserRow)
    requires x.id == y.id && x.username == y.username && x.email == y.email
    ensures Unique(rows[x.id := x]) <==> Unique(rows[y.id := y])
  {
    var rx, ry := rows[x.id := x], rows[y.id := y];
    assert rx.Keys == ry.Keys;
    assert forall k :: k in rx ==> rx[k].id == ry[k].id && rx[k].username == ry[k].username && rx[k].email == ry[k].email;
  }

  /**
   * The update as written and as corrected differ in two places only: a
   * failing lookup crashes instead of answering with the database error,
   * and a sent password is stored as its text instead of its hash. Every
   * other reply and every other column agree.
   */
  lemma UpdateAsWrittenVersusCorrected(rows: Rows, id: Uuid, u: UpdateUser, salt: nat,
                                       lookupFault: Option<DbError>, commitFault: Option<DbError>)
    requires Unique(rows)
    ensures var w := UpdateUserByIdAsWritten(rows, id, u, lookupFault, commitFault);
      var c := UpdateUserByIdSpec(rows, id, u, salt, lookupFault, commitFault);
      && (!NothingSet(u) && lookupFault.Some? ==> w.reply.Crashed? && c.reply == DbFailure(lookupFault.value))
      && (lookupFault.None? ==> w.reply == c.reply)
      && (lookupFault.None? && u.password.Unset? ==> w.rows == c.rows)
      && (Succeeded(w.reply) && u.password.SetTo? ==>
            && id in w.rows && id in c.rows
            && w.rows[id] == c.rows[id].(password := Unrecognised(u.password.value))
            && c.rows[id].password == HashPassword(u.password.value, salt))
  {
    var w := UpdateUserByIdAsWritten(rows, id, u, lookupFault, commitFault);
    var c := UpdateUserByIdSpec(rows, id, u, salt, lookupFault, commitFault);
    if !NothingSet(u) && lookupFault.None? && id in rows && !rows[id].isDeleted && !SendsNull(u) {
      var conds := ByIdConditions(id, Some(false));
      IdLookupIsUnique(rows, id, conds);
      assert id in Matching(rows, conds);
      OneRowIsStored(rows, conds, lookupFault);
      var written := ApplyUpdateAsWritten(rows[id], u).value;
      var hashed := ApplyUpdate(rows[id], u, salt).value;
      assert written.id == hashed.id == id && written.username == hashed.username && written.email == hashed.email;
      SameNamesSameUniqueness(rows, written, hashed);
    }
  }

  // ---------------------------------------------------------------------
  // create_user

  /**
   * `create_user`: a new administrator, inactive and unverified, with the
   * password hashed, is added when its id, username and email are all
   * unused; otherwise the commit's error is the reply and the table is
   * unchanged.
   */
  function CreateUserSpec(rows: Rows, signup: SignupUser, freshId: Uuid, salt: nat, fault: Option<DbError>): (r: ServiceResult)
    requires Unique(rows) && ValidatePassword(signup.password).Ok?
    ensures Unique(r.rows)
    ensures Succeeded(r.reply) <==>
              && fault.None? && freshId !in rows
              && forall k :: k in rows ==> rows[k].username != signup.username && rows[k].email != signup.email
    ensures Succeeded(r.reply) ==>
              && r.rows == rows[freshId := NewUser(signup, Admin, HashPassword(signup.password, salt), freshId)]
              && r.reply == IdReply(freshId, "User created successfully.")
    ensures !Succeeded(r.reply) ==> r.rows == rows && r.reply.Done?
  {
    var row := NewUser(signup, Admin, HashPassword(signup.password, salt), freshId);
    InsertKeepsUnique(rows, row);
    match Inserted(rows, row, fault)
    case Err(e) => ServiceResult(DbFailure(e), rows)
    case Ok(next) => ServiceResult(IdReply(freshId, "User created successfully."), next)
  }

  method CreateUser(db: UserTable, signup: SignupUser, freshId: Uuid, salt: nat, fault: Option<DbError>) returns (reply: Reply)
    requires db.Valid() && ValidatePassword(signup.password).Ok?
    modifies db
    ensures db.Valid()
    ensures reply == CreateUserSpec(old(db.rows), signup, freshId, salt, fault).reply
    ensures db.rows == CreateUserSpec(old(db.rows), signup, freshId, salt, fault).rows
  {
    var row := NewUser(signup, Admin, HashPassword(signup.password, salt), freshId);
    var error := db.Insert(row, fault);
    if error.Some? {
      return DbFailure(error.value);
    }
    reply := IdReply(freshId, "User created successfully.");
  }

  // ---------------------------------------------------------------------
  // delete_user and verify_user

  /**
   * `delete_user`: a soft delete of a user that is not yet deleted: the
   * row is marked deleted and inactive and nothing else changes. The
   * caller's identity is not consulted.
   */
  function DeleteUserSpec(rows: Rows, id: Uuid, lookupFault: Option<DbError>, commitFault: Option<DbError>): (r: ServiceResult)
    requires Unique(rows)
    ensures Unique(r.rows)
    ensures Succeeded(r.reply) <==> lookupFault.None? && id in rows && !rows[id].isDeleted && commitFault.None?
    ensures Succeeded(r.reply) ==>
              r.rows == rows[id := rows[id].(isDeleted := true, status := Inactive)] && r.reply == MessageReply("User removed successfully.")
    ensures lookupFault.None? && (id !in rows || rows[id].isDeleted) ==> r.reply == Raised(InvalidUserId)
    ensures !Succeeded(r.reply) ==> r.rows == rows
  {
    match LookupUser(rows, id, Some(false), lookupFault)
    case Stop(reply) => ServiceResult(reply, rows)
    case Found(row) =>
      var updated := row.(isDeleted := true, status := Inactive);
      ReplaceKeepsUnique(rows, updated);
      match Committed(rows[id := updated], commitFault)
      case Err(e) => ServiceResult(DbFailure(e), rows)
      case Ok(next) => ServiceResult(MessageReply("User removed successfully."), next)
  }

  method DeleteUser(db: UserTable, id: Uuid, lookupFault: Option<DbError>, commitFault: Option<DbError>) returns (reply: Reply)
    requires db.Valid()
    modifies db
    ensures db.Valid()
    ensures reply == DeleteUserSpec(old(db.rows), id, lookupFault, commitFault).reply
    ensures db.rows == DeleteUserSpec(old(db.rows), id, lookupFault, commitFault).rows
  {
    var found := GetUserById(db, id, Some(false), lookupFault);
    if found.Stop? {
      return found.reply;
    }
    var updated := found.row.(isDeleted := true, status := Inactive);
    ReplaceKeepsUnique(db.rows, updated);
    var error := db.Commit(db.rows[id := updated], commitFault);
    if error.Some? {
      return DbFailure(error.value);
    }
    reply := MessageReply("User removed successfully.");
  }

  /**
   * `verify_user`: a user that is not deleted becomes verified and
   * active and nothing else changes. The endpoint asks for no token.
   */
  function VerifyUserSpec(rows: Rows, id: Uuid, lookupFault: Option<DbError>, commitFault: Option<DbError>): (r: ServiceResult)
    requires Unique(rows)
    ensures Unique(r.rows)
    ensures Succeeded(r.reply) <==> lookupFault.None? && id in rows && !rows[id].isDeleted && commitFault.None?
    ensures Succeeded(r.reply) ==>
              r.rows == rows[id := rows[id].(isVerified := true, status := Active)] && r.reply == MessageReply("User verified successfully.")
    ensures lookupFault.None? && (id !in rows || rows[id].isDeleted) ==> r.reply == Raised(InvalidUserId)
    ensures !Succeeded(r.reply) ==> r.rows == rows
  {
    match LookupUser(rows, id, Some(false), lookupFault)
    case Stop(reply) => ServiceResult(reply, rows)
    case Found(row) =>
      var updated := row.(isVerified := true, status := Active);
      ReplaceKeepsUnique(rows, updated);
      match Committed(rows[id := updated], commitFault)
      case Err(e) => ServiceResult(DbFailure(e), rows)
      case Ok(next) => ServiceResult(MessageReply("User verified successfully."), next)
  }

  method VerifyUser(db: UserTable, id: Uuid, lookupFault: Option<DbError>, commitFault: Option<DbError>) returns (reply: Reply)
    requires db.Valid()
    modifies db
    ensures db.Valid()
    ensures reply == VerifyUserSpec(old(db.rows), id, lookupFault, commitFault).reply
    ensures db.rows == VerifyUserSpec(old(db.rows), id, lookupFault, commitFault).rows
  {
    var found := GetUserById(db, id, Some(false), lookupFault);
    if found.Stop? {
      return found.reply;
    }
    var updated := found.row.(isVerified := true, status := Active);
    ReplaceKeepsUnique(db.rows, updated);
    var error := db.Commit(db.rows[id := updated], commitFault);
    if error.Some? {
      return DbFailure(error.value);
    }
    reply := MessageReply("User verified successfully.");
  }

  // ---------------------------------------------------------------------
  // fetch_user_by_id, fetch_current_user, current_user_update, update_user

  /** The refusal of `identity_required`, as an endpoint's reply. */
  function Denied(access: Outcome<()>): (r: Reply)
    requires !access.Done?
    ensures access.Raised? ==> r == Raised(access.error)
    ensures access.Crashed? ==> r.Crashed?
  {
    if access.Raised? then Raised(access.error) else Crashed(access.reason)
  }

  /** The 200 reply with one user serialised for the caller. */
  function UserReply(row: UserRow, caller: Uuid): Reply
  {
    Done(Success(StatusOk, Some(JObject(OutUserJson(row, caller, {}))), None))
  }

  /**
   * `fetch_user_by_id` (administrators only): the user under `id` that
   * passes the query's deletion filter, serialised for the caller.
   */
  function FetchUserByIdSpec(rows: Rows, payload: Claims, q: QueryParams, id: Uuid, fault: Option<DbError>): (r: Reply)
    requires Unique(rows)
    ensures Succeeded(r) <==>
              && IdentityOf(payload) == Some(Admin) && fault.None? && id in rows
              && (q.isDeleted.Some? ==> rows[id].isDeleted == q.isDeleted.value) && CallerId(payload).Some?
    ensures Succeeded(r) ==> r == UserReply(rows[id], CallerId(payload).value)
    ensures IdentityOf(payload).Some? && IdentityOf(payload) != Some(Admin) ==> r == Raised(NoPermission)
  {
    var access := IdentityRequired(AdminOnly, payload);
    if !access.Done? then Denied(access)
    else match LookupUser(rows, id, q.isDeleted, fault)
      case Stop(reply) => reply
      case Found(row) => if CallerId(payload).None? then Crashed(BadCallerId) else UserReply(row, CallerId(payload).value)
  }

  /** `fetch_current_user`: the caller's own row, which the reply marks as the current user. */
  function FetchCurrentUserSpec(rows: Rows, payload: Claims, q: QueryParams, fault: Option<DbError>): (r: Reply)
    requires Unique(rows)
    ensures Succeeded(r) <==>
              && CallerId(payload).Some? && fault.None? && CallerId(payload).value in rows
              && (q.isDeleted.Some? ==> rows[CallerId(payload).value].isDeleted == q.isDeleted.value)
    ensures Succeeded(r) ==>
              && r == UserReply(rows[CallerId(payload).value], CallerId(payload).value)
              && r.value.payload.value.fields["is_current_user"] == JBool(true)
  {
    match CallerId(payload)
    case None => Crashed(BadCallerId)
    case Some(caller) =>
      match LookupUser(rows, caller, q.isDeleted, fault)
      case Stop(reply) => reply
      case Found(row) => UserReply(row, caller)
  }

  /** `current_user_update`: the update applied to the caller's own row, with no identity check. */
  function CurrentUserUpdateSpec(rows: Rows, payload: Claims, u: UpdateUser, salt: nat,
                                 lookupFault: Option<DbError>, commitFault: Option<DbError>): (r: ServiceResult)
    requires Unique(rows)
    ensures Unique(r.rows)
    ensures CallerId(payload).Some? ==>
              r == UpdateUserByIdSpec(rows, CallerId(payload).value, u, salt, lookupFault, commitFault)
    ensures CallerId(payload).None? ==> r.reply.Crashed? && r.rows == rows
  {
    match CallerId(payload)
    case None => ServiceResult(Crashed(BadCallerId), rows)
    case Some(caller) => UpdateUserByIdSpec(rows, caller, u, salt, lookupFault, commitFault)
  }

  /** `update_user` (administrators only): the update applied to the row under `id`. */
  function UpdateUserSpec(rows: Rows, payload: Claims, id: Uuid, u: UpdateUser, salt: nat,
                          lookupFault: Option<DbError>, commitFault: Option<DbError>): (r: ServiceResult)
    requires Unique(rows)
    ensures Unique(r.rows)
    ensures IdentityOf(payload) == Some(Admin) ==> r == UpdateUserByIdSpec(rows, id, u, salt, lookupFault, commitFault)
    ensures IdentityOf(payload) != Some(Admin) ==> !Succeeded(r.reply) && r.rows == rows
    ensures IdentityOf(payload).Some? && IdentityOf(payload) != Some(Admin) ==> r == ServiceResult(Raised(NoPermission), rows)
  {
    var access := IdentityRequired(AdminOnly, payload);
    if !access.Done? then ServiceResult(Denied(access), rows)
    else UpdateUserByIdSpec(rows, id, u, salt, lookupFault, commitFault)
  }

  method UpdateUser(db: UserTable, payload: Claims, id: Uuid, u: UpdateUser, salt: nat,
                    lookupFault: Option<DbError>, commitFault: Option<DbError>) returns (reply: Reply)
    requires db.Valid()
    modifies db
    ensures db.Valid()
    ensures reply == UpdateUserSpec(old(db.rows), payload, id, u, salt, lookupFault, commitFault).reply
    ensures db.rows == UpdateUserSpec(old(db.rows), payload, id, u, salt, lookupFault, commitFault).rows
    ensures IdentityOf(payload).Some? && IdentityOf(payload) != Some(Admin) ==>
              reply == Raised(NoPermission) && db.rows == old(db.rows)
  {
    var access := IdentityRequired(AdminOnly, payload);
    if !access.Done? {
      return Denied(access);
    }
    reply := UpdateUserById(db, id, u, salt, lookupFault, commitFault);
  }

  method CurrentUserUpdate(db: UserTable, payload: Claims, u: UpdateUser, salt: nat,
                           lookupFault: Option<DbError>, commitFault: Option<DbError>) returns (reply: Reply)
    requires db.Valid()
    modifies db
    ensures db.Valid()
    ensures reply == CurrentUserUpdateSpec(old(db.rows), payload, u, salt, lookupFault, commitFault).reply
    ensures db.rows == CurrentUserUpdateSpec(old(db.rows), payload, u, salt, lookupFault, commitFault).rows
  {
    var caller := CallerId(payload);
    if caller.None? {
      return Crashed(BadCallerId);
    }
    reply := UpdateUserById(db, caller.value, u, salt, lookupFault, commitFault);
  }

  // ---------------------------------------------------------------------
  // fetch_all_users

  /** The attributes of `UserModel` that name a column, and so can be sorted by. */
  const SortColumns: set<string> :=
    {"id", "username", "email", "password", "type", "status", "is_verified", "is_deleted", "created_at", "updated_at"}

  /** The listing's conditions: `is_deleted == flag` when the query gives one, none otherwise. */
  function ListingConditions(q: QueryParams): (c: seq<Condition>)
    ensures forall row :: MatchesAll(row, c) <==> (q.isDeleted.Some? ==> row.isDeleted == q.isDeleted.value)
  {
    var c := if q.isDeleted.Some? then [IsDeletedIs(q.isDeleted.value)] else [];
    assert forall row :: MatchesAll(row, c) <==> (q.isDeleted.Some? ==> row.isDeleted == q.isDeleted.value) by {
      forall row ensures MatchesAll(row, c) <==> (q.isDeleted.Some? ==> row.isDeleted == q.isDeleted.value) {
        if q.isDeleted.Some? {
          assert Holds(row, c[0]) <==> row.isDeleted == q.isDeleted.value;
        }
      }
    }
    c
  }

  /** The rows of a page, serialised for the caller in the order given. */
  function UserList(page: seq<UserRow>, caller: Uuid): (items: seq<Json>)
    ensures |items| == |page|
    ensures forall i :: 0 <= i < |page| ==> items[i] == JObject(OutUserJson(page[i], caller, {}))
  {
    seq(|page|, i requires 0 <= i < |page| => JObject(OutUserJson(page[i], caller, {})))
  }

  /**
   * `fetch_all_users` (administrators only), given the page the database
   * returned: a name outside the columns cannot be sorted by; otherwise
   * the reply lists the page and counts every row that passes the
   * deletion filter.
   */
  function ListingReply(rows: Rows, payload: Claims, url: QueryMap, q: QueryParams, fault: Option<DbError>,
                        page: seq<UserRow>): (r: Reply)
    requires WellFormed(q)
    ensures IdentityOf(payload).Some? && IdentityOf(payload) != Some(Admin) ==> r == Raised(NoPermission)
    ensures IdentityOf(payload) == Some(Admin) && q.sortBy !in SortColumns ==> r.Crashed?
    ensures IdentityOf(payload) == Some(Admin) && q.sortBy in SortColumns && fault.Some? ==> r == DbFailure(fault.value)
    ensures Succeeded(r) <==>
              IdentityOf(payload) == Some(Admin) && q.sortBy in SortColumns && fault.None? && (page != [] ==> CallerId(payload).Some?)
    ensures Succeeded(r) ==>
              && r.value.status == StatusOk
              && r.value.pagination == Some(Pagination(q.page, q.perPage, |Matching(rows, ListingConditions(q))|))
              && r.value.meta == Some(Meta(Some(q.sortBy), Some(q.sortOrder.Value()), Some(Filters(q))))
              && r.value.payload.Some? && r.value.payload.value.JArray? && |r.value.payload.value.items| == |page|
              && forall i :: 0 <= i < |page| ==>
                   r.value.payload.value.items[i] == JObject(OutUserJson(page[i], CallerId(payload).value, {}))
  {
    var access := IdentityRequired(AdminOnly, payload);
    if !access.Done? then Denied(access)
    else if q.sortBy !in SortColumns then Crashed("ValueError: Invalid column name: " + q.sortBy)
    else if fault.Some? then DbFailure(fault.value)
    else if page != [] && CallerId(payload).None? then Crashed(BadCallerId)
    else
      var caller := if CallerId(payload).Some? then CallerId(payload).value else "";
      var count := |Matching(rows, ListingConditions(q))|;
      Done(CreateModel(url, q, StatusOk, true, Some(JArray(UserList(page, caller))), None, None, count).value)
  }

  method FetchAllUsers(db: UserTable, payload: Claims, url: QueryMap, q: QueryParams, fault: Option<DbError>)
    returns (reply: Reply, page: seq<UserRow>)
    requires db.Valid() && WellFormed(q) && q.page >= 1 && q.perPage >= 1
    ensures reply == ListingReply(db.rows, payload, url, q, fault, page)
    ensures Succeeded(reply) ==> IsPage(db.rows, ListingConditions(q), (q.page - 1) * q.perPage, q.perPage, page)
  {
    page := [];
    var access := IdentityRequired(AdminOnly, payload);
    if !access.Done? {
      return Denied(access), page;
    }
    if q.sortBy !in SortColumns {
      return Crashed("ValueError: Invalid column name: " + q.sortBy), page;
    }
    var whereArgs: seq<Condition> := [];
    if q.isDeleted.Some? {
      whereArgs := whereArgs + [IsDeletedIs(q.isDeleted.value)];
    }
    if fault.Some? {
      return DbFailure(fault.value), page;
    }
    assert whereArgs == ListingConditions(q);
    var matching := db.Scalars(whereArgs);
    page := db.Page(whereArgs, (q.page - 1) * q.perPage, q.perPage);
    var caller := CallerId(payload);
    if page != [] && caller.None? {
      return Crashed(BadCallerId), page;
    }
    var items := UserList(page, if caller.Some? then caller.value else "");
    var model := CreateModel(url, q, StatusOk, true, Some(JArray(items)), None, None, |matching|);
    reply := Done(model.value);
  }
}
