/**
 * Properties that span several endpoints: what a user can do after
 * signing up, being verified, being deleted, or changing a password, and
 * how the login's identifier lookup behaves over the whole table.
 */
module Lifecycle {
  import opened Wrappers
  import opened Http
  import opened Json
  import opened Config
  import opened Enums
  import opened Passwords
  import opened DbErrors
  import opened Tokens
  import opened UserStore
  import opened UserSchemas
  import opened RequestSchemas
  import opened ResponseSchemas
  import opened AuthService
  import opened UserService

  /** The identifier names exactly one row: that row's email or username, and no other row's email or username. */
  predicate NamesOnly(rows: Rows, id: Uuid, identifier: string)
  {
    && id in rows && (rows[id].email == identifier || rows[id].username == identifier)
    && forall k :: k in rows && k != id ==> rows[k].email != identifier && rows[k].username != identifier
  }

  lemma {:induction false} SoleMatch(rows: Rows, id: Uuid, creds: UserCredentials, env: Env)
    requires Unique(rows) && NamesOnly(rows, id, creds.identifier) && env.lookupFault.None?
    ensures LoginLookup(rows, creds, env) == OneRow(rows[id])
  {
    var conds := [EmailOrUsernameIs(creds.identifier)];
    assert Matching(rows, conds) == {id} by {
      forall k | k in rows ensures MatchesAll(rows[k], conds) <==> k == id {
        assert MatchesAll(rows[k], conds) <==> Holds(rows[k], conds[0]);
      }
    }
  }

  /** Rewriting a row without touching its username or email leaves who an identifier names unchanged. */
  lemma NamesOnlyAfterRewrite(rows: Rows, row: UserRow, identifier: string)
    requires row.id in rows && row.username == rows[row.id].username && row.email == rows[row.id].email
    requires NamesOnly(rows, row.id, identifier)
    ensures NamesOnly(rows[row.id := row], row.id, identifier)
  {
  }

  /** The row a successful signup adds, named by its email alone when no username equals that email. */
  lemma SignupNamesNewRow(rows: Rows, signup: SignupUser, freshId: Uuid, salt: nat)
    requires Unique(rows) && ValidatePassword(signup.password).Ok?
    requires Succeeded(CreateUserSpec(rows, signup, freshId, salt, None).reply)
    requires forall k :: k in rows ==> rows[k].username != signup.email
    ensures var created := CreateUserSpec(rows, signup, freshId, salt, None).rows;
      && NamesOnly(created, freshId, signup.email)
      && created[freshId] == NewUser(signup, Admin, HashPassword(signup.password, salt), freshId)
  {
  }

  /** Right after signup, logging in with the new credentials is refused: the account is not verified. */
  lemma SignupLoginRefused(s: Settings, rows: Rows, signup: SignupUser, freshId: Uuid, salt: nat, env: Env)
    requires Unique(rows) && ValidatePassword(signup.password).Ok?
    requires Succeeded(CreateUserSpec(rows, signup, freshId, salt, None).reply)
    requires forall k :: k in rows ==> rows[k].username != signup.email
    requires env.lookupFault.None?
    ensures var created := CreateUserSpec(rows, signup, freshId, salt, None).rows;
      LoginSpec(s, created, UserCredentials(signup.email, signup.password), env).reply == Raised(NotVerified)
  {
    var created := CreateUserSpec(rows, signup, freshId, salt, None).rows;
    var creds := UserCredentials(signup.email, signup.password);
    SignupNamesNewRow(rows, signup, freshId, salt);
    SoleMatch(created, freshId, creds, env);
    LoginRefusals(s, created, creds, env);
  }

  /**
   * Once `verify_user` has run on a new signup, logging in succeeds, leaves
   * the table as it was, and reaches a user whose type is administrator
   * (every signup is created as one).
   */
  lemma VerifiedSignupLogsIn(s: Settings, rows: Rows, signup: SignupUser, freshId: Uuid, salt: nat, env: Env)
    requires Unique(rows) && ValidatePassword(signup.password).Ok?
    requires Succeeded(CreateUserSpec(rows, signup, freshId, salt, None).reply)
    requires forall k :: k in rows ==> rows[k].username != signup.email
    requires env.lookupFault.None?
    ensures var created := CreateUserSpec(rows, signup, freshId, salt, None).rows;
      var creds := UserCredentials(signup.email, signup.password);
      var verified := VerifyUserSpec(created, freshId, None, None);
      && Succeeded(verified.reply)
      && LoginAllowed(verified.rows, creds, env)
      && LoginLookup(verified.rows, creds, env).row.userType == Admin
      && LoginSpec(s, verified.rows, creds, env).rows == verified.rows
  {
    var created := CreateUserSpec(rows, signup, freshId, salt, None).rows;
    var creds := UserCredentials(signup.email, signup.password);
    SignupNamesNewRow(rows, signup, freshId, salt);
    var verified := VerifyUserSpec(created, freshId, None, None);
    var active := created[freshId].(isVerified := true, status := Active);
    assert verified.rows == created[freshId := active];
    NamesOnlyAfterRewrite(created, active, creds.identifier);
    SoleMatch(verified.rows, freshId, creds, env);
  }

  /**
   * A token carrying a user's id and identity type opens exactly the endpoints
   * restricted to the user's type, and the "who am I" endpoint resolves it
   * on any table that still holds the user's id.
   */
  lemma IdentityTokenOpens(rows: Rows, row: UserRow, token: Jwt)
    requires Unique(rows) && row.id in rows
    requires "id" in token.claims && token.claims["id"] == CStr(row.id)
    requires "identity_type" in token.claims && token.claims["identity_type"] == CInt(row.userType.Value())
    ensures && Present(token.claims, "id")
            && (IdentityRequired(AdminOnly, token.claims).Done? <==> row.userType == Admin)
            && Succeeded(VerifyAccessToken(rows, token.claims, None))
  {
    LoginIdentityChecks(row, [Admin], token);
  }

  /** The access token of any successful login passes both checks on the table the login leaves. */
  lemma LoginTokenIdentity(s: Settings, rows: Rows, creds: UserCredentials, env: Env)
    requires Unique(rows) && LoginAllowed(rows, creds, env)
    ensures var row := LoginLookup(rows, creds, env).row;
      var login := LoginSpec(s, rows, creds, env);
      && login.reply.Done? && login.reply.value.payload.Some?
      && var claims := login.reply.value.payload.value.accessToken.claims;
      && (IdentityRequired(AdminOnly, claims).Done? <==> row.userType == Admin)
      && Unique(login.rows) && Present(claims, "id")
      && Succeeded(VerifyAccessToken(login.rows, claims, None))
  {
    var login := LoginSpec(s, rows, creds, env);
    LoginKeepsUser(s, rows, creds, env);
    TokenReplyOpens(s, login.rows, LoginLookup(rows, creds, env).row, env, login.reply);
  }

  /** The token response over a stored user's claims passes both checks on that table. */
  lemma TokenReplyOpens(s: Settings, rows: Rows, row: UserRow, env: Env, reply: TokenReply)
    requires Unique(rows) && row.id in rows
    requires reply == Done(TokenResponse(s, IdentityClaims(row), env))
    ensures && reply.Done? && reply.value.payload.Some?
            && var claims := reply.value.payload.value.accessToken.claims;
            && (IdentityRequired(AdminOnly, claims).Done? <==> row.userType == Admin)
            && Present(claims, "id")
            && Succeeded(VerifyAccessToken(rows, claims, None))
  {
    IdentityTokens(s, row, env);
    IdentityTokenOpens(rows, row, reply.value.payload.value.accessToken);
  }


  /** A successful login answers with the token response over the user's claims and keeps the user's row. */
  lemma LoginKeepsUser(s: Settings, rows: Rows, creds: UserCredentials, env: Env)
    requires Unique(rows) && LoginAllowed(rows, creds, env)
    ensures var row := LoginLookup(rows, creds, env).row; var login := LoginSpec(s, rows, creds, env);
      && login.reply == Done(TokenResponse(s, IdentityClaims(row), env))
      && Unique(login.rows) && row.id in login.rows
  {
    LoginReply(s, rows, creds, env);
    OneRowIsStored(rows, [EmailOrUsernameIs(creds.identifier)], env.lookupFault);
  }



  /**
   * Deleting a user shuts the login (403: inactive once verified,
   * unverified before), yet an access token issued before still works for
   * the "who am I" endpoint. The user's own profile lookup answers 404
   * only when the query asks for `is_deleted=false`; with the default
   * query, which sets no deletion filter, or with `is_deleted=true`, it
   * still serves the deleted row.
   */
  lemma DeletedUserKeepsTokenAccess(s: Settings, rows: Rows, id: Uuid, creds: UserCredentials, env: Env,
                                    payload: Claims, q: QueryParams)
    requires Unique(rows) && id in rows && !rows[id].isDeleted
    requires NamesOnly(rows, id, creds.identifier) && Matches(creds.password, rows[id].password)
    requires env.lookupFault.None?
    requires "id" in payload && payload["id"] == CStr(id)
    ensures var deleted := DeleteUserSpec(rows, id, None, None);
      && Succeeded(deleted.reply)
      && (rows[id].isVerified ==> LoginSpec(s, deleted.rows, creds, env).reply == Raised(AccountInactive))
      && (!rows[id].isVerified ==> LoginSpec(s, deleted.rows, creds, env).reply == Raised(NotVerified))
      && Succeeded(VerifyAccessToken(deleted.rows, payload, None))
      && (q.isDeleted == Some(false) ==> FetchCurrentUserSpec(deleted.rows, payload, q, None) == Raised(InvalidUserId))
      && (q.isDeleted != Some(false) ==>
            && id in deleted.rows && deleted.rows[id].isDeleted
            && FetchCurrentUserSpec(deleted.rows, payload, q, None) == UserReply(deleted.rows[id], id))
  {
    var deleted := DeleteUserSpec(rows, id, None, None);
    var gone := rows[id].(isDeleted := true, status := Inactive);
    assert deleted.rows == rows[id := gone];
    NamesOnlyAfterRewrite(rows, gone, creds.identifier);
    ReplaceKeepsUnique(rows, gone);
    SoleMatch(deleted.rows, id, creds, env);
    LoginRefusals(s, deleted.rows, creds, env);
    assert Present(payload, "id");
  }

  /** An identifier that is one user's email and another's username makes the lookup ambiguous: 400 for any password. */
  lemma AmbiguousIdentifierBlocksLogin(s: Settings, rows: Rows, a: Uuid, b: Uuid, creds: UserCredentials, env: Env)
    requires Unique(rows) && a in rows && b in rows && a != b
    requires rows[a].email == creds.identifier && rows[b].username == creds.identifier
    requires env.lookupFault.None?
    ensures LoginSpec(s, rows, creds, env).reply == Done(Failure(HandleDbErrors(MultipleResultsFound)))
    ensures LoginSpec(s, rows, creds, env).reply.value.status == StatusBadRequest
  {
    var conds := [EmailOrUsernameIs(creds.identifier)];
    assert Holds(rows[a], conds[0]) && Holds(rows[b], conds[0]);
    assert {a, b} <= Matching(rows, conds);
    SubsetCard({a, b}, Matching(rows, conds));
  }

  /** The update that only sends a new password. */
  function PasswordOnly(password: string): UpdateUser
  {
    UpdateUser(Unset, Unset, SetTo(password), Unset, Unset, Unset)
  }

  /**
   * As written, once a user changes their password through an update,
   * logging in with the new password is an unhandled error (500).
   */
  lemma PasswordChangeBreaksLogin(s: Settings, rows: Rows, id: Uuid, identifier: string, newPassword: string, env: Env)
    requires Unique(rows) && NamesOnly(rows, id, identifier) && env.lookupFault.None?
    ensures var after := rows[id := ApplyUpdateAsWritten(rows[id], PasswordOnly(newPassword)).value];
      && Unique(after)
      && LoginSpec(s, after, UserCredentials(identifier, newPassword), env).reply.Crashed?
  {
    var row := ApplyUpdateAsWritten(rows[id], PasswordOnly(newPassword)).value;
    ReplaceKeepsUnique(rows, row);
    NamesOnlyAfterRewrite(rows, row, identifier);
    var creds := UserCredentials(identifier, newPassword);
    SoleMatch(rows[id := row], id, creds, env);
    LoginRefusals(s, rows[id := row], creds, env);
  }

  /** With the password hashed on update, a verified, active user logs in with the new password. */
  lemma PasswordChangeKeepsLogin(s: Settings, rows: Rows, id: Uuid, identifier: string, newPassword: string, salt: nat, env: Env)
    requires Unique(rows) && NamesOnly(rows, id, identifier) && env.lookupFault.None?
    requires !rows[id].isDeleted && rows[id].isVerified && rows[id].status == Active
    ensures var update := UpdateUserByIdSpec(rows, id, PasswordOnly(newPassword), salt, None, None);
      && Succeeded(update.reply)
      && LoginAllowed(update.rows, UserCredentials(identifier, newPassword), env)
  {
    var row := ApplyUpdate(rows[id], PasswordOnly(newPassword), salt).value;
    ReplaceKeepsUnique(rows, row);
    NamesOnlyAfterRewrite(rows, row, identifier);
    SoleMatch(rows[id := row], id, UserCredentials(identifier, newPassword), env);
  }

  /**
   * `current_user_update` checks no identity and accepts `status`: a
   * suspended user holding a valid access token can make themselves
   * active again.
   */
  lemma SuspendedUserCanReactivate(rows: Rows, payload: Claims, salt: nat)
    requires Unique(rows) && CallerId(payload).Some?
    requires CallerId(payload).value in rows
    requires !rows[CallerId(payload).value].isDeleted && rows[CallerId(payload).value].status == Suspended
    ensures var update := CurrentUserUpdateSpec(rows, payload, UpdateUser(Unset, Unset, Unset, SetTo(Active), Unset, Unset), salt, None, None);
      && Succeeded(update.reply)
      && update.rows[CallerId(payload).value].status == Active
  {
    var id := CallerId(payload).value;
    var u := UpdateUser(Unset, Unset, Unset, SetTo(Active), Unset, Unset);
    ReplaceKeepsUnique(rows, ApplyUpdate(rows[id], u, salt).value);
  }
}
