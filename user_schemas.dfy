/**
 * The user schemas of app/schemas/user.py: the password policy of the
 * signup and update validators, the defaults of a new user, the JSON form
 * of `OutUser`, and the partial update `UpdateUser`.
 */
module UserSchemas {
  import opened Wrappers
  import opened Strings
  import opened Json
  import opened Enums
  import opened Passwords
  import opened UserStore

  // ---------------------------------------------------------------------
  // The password policy

  /** The special characters of the policy: `[#?!@$%^&*-]`. */
  predicate IsSpecial(c: char)
  {
    c == '#' || c == '?' || c == '!' || c == '@' || c == '$' || c == '%' || c == '^' || c == '&' || c == '*' || c == '-'
  }

  datatype CharClass = UpperClass | LowerClass | DigitClass | SpecialClass

  predicate InClass(c: char, cls: CharClass)
  {
    match cls
    case UpperClass => IsUpper(c)
    case LowerClass => IsLower(c)
    case DigitClass => IsDigit(c)
    case SpecialClass => IsSpecial(c)
  }

  predicate NoNewline(s: string)
  {
    forall i :: 0 <= i < |s| ==> s[i] != '\n'
  }

  /** `(?=.*?[cls])` at the start: a character of the class is reached without crossing a newline. */
  predicate Lookahead(s: string, cls: CharClass)
  {
    exists i :: 0 <= i < |s| && InClass(s[i], cls) && NoNewline(s[..i])
  }

  /** `.{8,}$`: eight or more non-newline characters, then the end or a final newline. */
  predicate DotsToEnd(s: string)
  {
    exists n :: 8 <= n <= |s| && NoNewline(s[..n]) && (n == |s| || (n == |s| - 1 && s[n] == '\n'))
  }

  /**
   * `re.match(r'^(?=.*?[A-Z])(?=.*?[a-z])(?=.*?[0-9])(?=.*?[#?!@$%^&*-]).{8,}$', s)`
   * succeeds, read operator by operator.
   */
  predicate MatchesPasswordRegex(s: string)
  {
    Lookahead(s, UpperClass) && Lookahead(s, LowerClass) && Lookahead(s, DigitClass) && Lookahead(s, SpecialClass)
    && DotsToEnd(s)
  }

  /** The index of the first newline, or the length. */
  function LineLength(s: string): (n: nat)
    ensures n <= |s| && NoNewline(s[..n]) && (n < |s| ==> s[n] == '\n')
  {
    if s == [] || s[0] == '\n' then 0
    else
      var n := 1 + LineLength(s[1..]);
      assert s[..n] == [s[0]] + s[1..][..n - 1];
      n
  }

  predicate Contains(t: string, cls: CharClass)
  {
    exists i :: 0 <= i < |t| && InClass(t[i], cls)
  }

  /**
   * The policy in words: one line of at least 8 characters (optionally
   * followed by a single final newline) containing an upper-case letter,
   * a lower-case letter, a digit and one of `#?!@$%^&*-`.
   */
  predicate MeetsPasswordPolicy(s: string)
  {
    var t := s[..LineLength(s)];
    && (|t| == |s| || |t| == |s| - 1)
    && |t| >= 8
    && Contains(t, UpperClass) && Contains(t, LowerClass) && Contains(t, DigitClass) && Contains(t, SpecialClass)
  }

  /** No newline-free prefix reaches past the first line. */
  lemma LineBound(s: string, i: nat)
    requires i <= |s| && NoNewline(s[..i])
    ensures i <= LineLength(s)
  {
  }

  lemma LookaheadWithinLine(s: string, cls: CharClass)
    ensures Lookahead(s, cls) <==> Contains(s[..LineLength(s)], cls)
  {
    var n := LineLength(s);
    var t := s[..n];
    if Lookahead(s, cls) {
      var i :| 0 <= i < |s| && InClass(s[i], cls) && NoNewline(s[..i]);
      LineBound(s, i);
      assert t[i] == s[i];
    }
    if Contains(t, cls) {
      var i :| 0 <= i < |t| && InClass(t[i], cls);
      assert s[..i] == t[..i];
      assert s[i] == t[i];
    }
  }

  lemma DotsWithinLine(s: string)
    ensures DotsToEnd(s) <==> (var n := LineLength(s); (n == |s| || n == |s| - 1) && n >= 8)
  {
    var n := LineLength(s);
    if DotsToEnd(s) {
      var m :| 8 <= m <= |s| && NoNewline(s[..m]) && (m == |s| || (m == |s| - 1 && s[m] == '\n'));
      LineBound(s, m);
    }
    if (n == |s| || n == |s| - 1) && n >= 8 {
      assert 8 <= n <= |s| && NoNewline(s[..n]);
    }
  }

  /** The regex and the policy in words accept the same passwords. */
  lemma PasswordRegexMeansPolicy(s: string)
    ensures MatchesPasswordRegex(s) <==> MeetsPasswordPolicy(s)
  {
    LookaheadWithinLine(s, UpperClass);
    LookaheadWithinLine(s, LowerClass);
    LookaheadWithinLine(s, DigitClass);
    LookaheadWithinLine(s, SpecialClass);
    DotsWithinLine(s);
  }

  const PasswordMessage :=
    "Password must be at least 8 characters long, include an uppercase letter, a lowercase letter, a number, and a special character."

  /** `SignupUser.validate_password`. */
  function ValidatePassword(v: string): (r: Result<string, string>)
    ensures r.Ok? <==> MatchesPasswordRegex(v)
    ensures r.Ok? ==> r.value == v
    ensures r.Err? ==> r.error == PasswordMessage
  {
    if MatchesPasswordRegex(v) then Ok(v) else Err(PasswordMessage)
  }

  /** `UpdateUser.validate_password`: no password passes, any given one must meet the same rule. */
  function ValidateUpdatePassword(v: Option<string>): (r: Result<Option<string>, string>)
    ensures v.None? ==> r == Ok(None)
    ensures v.Some? ==> (r.Ok? <==> ValidatePassword(v.value).Ok?)
    ensures r.Ok? ==> r.value == v
    ensures r.Err? ==> r.error == PasswordMessage
  {
    match v
    case None => Ok(None)
    case Some(p) => if MatchesPasswordRegex(p) then Ok(v) else Err(PasswordMessage)
  }

  lemma {:induction false} SingleLine(s: string)
    requires NoNewline(s)
    ensures LineLength(s) == |s|
  {
    if s != [] {
      SingleLine(s[1..]);
    }
  }

  /** A sample password the policy accepts. */
  lemma StrongPasswordAccepted()
    ensures ValidatePassword("Passw0rd!").Ok?
  {
    var good := "Passw0rd!";
    assert NoNewline(good[..9]) by {
      assert good[..9] == good;
    }
    assert InClass(good[0], UpperClass) && NoNewline(good[..0]);
    assert InClass(good[1], LowerClass) && NoNewline(good[..1]);
    assert InClass(good[5], DigitClass) && NoNewline(good[..5]) by {
      assert good[..5] == "Passw";
    }
    assert InClass(good[8], SpecialClass) && NoNewline(good[..8]) by {
      assert good[..8] == "Passw0rd";
    }
  }

  /** A sample password without a special character, refused. */
  lemma PasswordWithoutSpecialRefused()
    ensures ValidatePassword("Passw0rdd").Err?
  {
    var bad := "Passw0rdd";
    assert forall i :: 0 <= i < |bad| ==> !InClass(bad[i], SpecialClass);
  }

  // ---------------------------------------------------------------------
  // New users

  /** The fields a signup carries. */
  datatype SignupUser = SignupUser(username: string, email: string, password: string)

  datatype UserCredentials = UserCredentials(identifier: string, password: string)

  /**
   * `User.model_validate` of a signup with its type and hashed password
   * filled in: a fresh id, status INACTIVE, not deleted, not verified.
   */
  function NewUser(signup: SignupUser, userType: UserType, hashed: StoredPassword, freshId: Uuid): (row: UserRow)
    ensures row.id == freshId && row.username == signup.username && row.email == signup.email
    ensures row.password == hashed && row.userType == userType
    ensures row.status == Inactive && !row.isDeleted && !row.isVerified
  {
    UserRow(freshId, signup.username, signup.email, hashed, userType, Inactive, false, false)
  }

  // ---------------------------------------------------------------------
  // OutUser

  /** The JSON serialiser of `status` and `type`: `{value, mapped}`. */
  function EnumJson(value: int, name: string): (j: Json)
    ensures j.JObject? && j.fields.Keys == {"value", "mapped"}
    ensures j.fields["value"] == JInt(value) && j.fields["mapped"] == JStr(Pretty(name))
  {
    JObject(map["value" := JInt(value), "mapped" := JStr(Pretty(name))])
  }

  /** The fields `OutUser` emits in JSON, before any `exclude`. */
  const OutUserFields: set<string> :=
    {"id", "username", "email", "type", "status", "is_deleted", "is_verified", "is_current_user"}

  /**
   * `OutUser.model_validate({**row.to_dict(), 'current_user_id': current})
   * .model_dump(mode='json', exclude=excluded)`.
   */
  function OutUserJson(row: UserRow, current: Uuid, excluded: set<string>): (r: map<string, Json>)
    ensures r.Keys == OutUserFields - excluded
    ensures "password" !in r && "current_user_id" !in r
    ensures "is_current_user" in r ==> r["is_current_user"] == JBool(row.id == current)
    ensures "status" in r ==> r["status"] == EnumJson(row.status.Value(), row.status.Name())
    ensures "type" in r ==> r["type"] == EnumJson(row.userType.Value(), row.userType.Name())
    ensures "id" in r ==> r["id"] == JStr(row.id)
  {
    var full := map[
      "id" := JStr(row.id), "username" := JStr(row.username), "email" := JStr(row.email),
      "type" := EnumJson(row.userType.Value(), row.userType.Name()),
      "status" := EnumJson(row.status.Value(), row.status.Name()),
      "is_deleted" := JBool(row.isDeleted), "is_verified" := JBool(row.isVerified),
      "is_current_user" := JBool(row.id == current)];
    assert full.Keys == OutUserFields;
    full - excluded
  }

  /** Reading a serialised status or type back: the `value` entry names the member. */
  function StatusFromJson(j: Json): Option<UserStatus>
  {
    if j.JObject? && "value" in j.fields && j.fields["value"].JInt? then UserStatusFromValue(j.fields["value"].i) else None
  }

  function TypeFromJson(j: Json): Option<UserType>
  {
    if j.JObject? && "value" in j.fields && j.fields["value"].JInt? then UserTypeFromValue(j.fields["value"].i) else None
  }

  /** The JSON form loses nothing about status and type, and `mapped` is the readable name. */
  lemma OutUserEnumsRoundTrip(row: UserRow, current: Uuid)
    ensures StatusFromJson(OutUserJson(row, current, {})["status"]) == Some(row.status)
    ensures TypeFromJson(OutUserJson(row, current, {})["type"]) == Some(row.userType)
    ensures OutUserJson(row, current, {})["status"].fields["mapped"] == JStr(Title(ReplaceChar(row.status.Name(), '_', ' ')))
  {
    ValueRoundTrips(row.userType, row.status);
  }

  // ---------------------------------------------------------------------
  // UpdateUser

  /** A field of a partial update: not sent, sent as null, or sent with a value. */
  datatype Field<T> = Unset | SetNull | SetTo(value: T)

  datatype UpdateUser = UpdateUser(
    username: Field<string>,
    email: Field<string>,
    password: Field<string>,
    status: Field<UserStatus>,
    isDeleted: Field<bool>,
    isVerified: Field<bool>)

  /** The update validator: only a password that is sent with a value is checked. */
  function ValidateUpdateUser(u: UpdateUser): (r: Result<UpdateUser, string>)
    ensures r.Ok? <==> !u.password.SetTo? || ValidatePassword(u.password.value).Ok?
    ensures r.Ok? ==> r.value == u
    ensures r.Err? ==> r.error == PasswordMessage
  {
    var given := if u.password.SetTo? then Some(u.password.value) else None;
    match ValidateUpdatePassword(given)
    case Ok(_) => Ok(u)
    case Err(e) => Err(e)
  }

  function TextJson(f: Field<string>): Json
  {
    if f.SetTo? then JStr(f.value) else JNull
  }

  function FlagJson(f: Field<bool>): Json
  {
    if f.SetTo? then JBool(f.value) else JNull
  }

  function StatusJson(f: Field<UserStatus>): Json
  {
    if f.SetTo? then JInt(f.value.Value()) else JNull
  }

  /** The column names an update may write. */
  const UpdatableColumns: set<string> := {"username", "email", "password", "status", "is_deleted", "is_verified"}

  /** `user.model_dump(mode='json', exclude_unset=True)`: exactly the fields that were sent, null where null was sent. */
  function UpdateDump(u: UpdateUser): (d: map<string, Json>)
    ensures d.Keys <= UpdatableColumns
    ensures ("username" in d <==> !u.username.Unset?) && ("email" in d <==> !u.email.Unset?)
    ensures ("password" in d <==> !u.password.Unset?) && ("status" in d <==> !u.status.Unset?)
    ensures ("is_deleted" in d <==> !u.isDeleted.Unset?) && ("is_verified" in d <==> !u.isVerified.Unset?)
    ensures "username" in d ==> d["username"] == TextJson(u.username)
    ensures "email" in d ==> d["email"] == TextJson(u.email)
    ensures "password" in d ==> d["password"] == TextJson(u.password)
    ensures "status" in d ==> d["status"] == StatusJson(u.status)
    ensures "is_deleted" in d ==> d["is_deleted"] == FlagJson(u.isDeleted)
    ensures "is_verified" in d ==> d["is_verified"] == FlagJson(u.isVerified)
  {
    var d0: map<string, Json> := map[];
    var d1 := if u.username.Unset? then d0 else d0["username" := TextJson(u.username)];
    var d2 := if u.email.Unset? then d1 else d1["email" := TextJson(u.email)];
    var d3 := if u.password.Unset? then d2 else d2["password" := TextJson(u.password)];
    var d4 := if u.status.Unset? then d3 else d3["status" := StatusJson(u.status)];
    var d5 := if u.isDeleted.Unset? then d4 else d4["is_deleted" := FlagJson(u.isDeleted)];
    if u.isVerified.Unset? then d5 else d5["is_verified" := FlagJson(u.isVerified)]
  }

  /** An update that sends no field at all. */
  predicate NothingSet(u: UpdateUser)
  {
    u.username.Unset? && u.email.Unset? && u.password.Unset? && u.status.Unset? && u.isDeleted.Unset? && u.isVerified.Unset?
  }

  lemma EmptyDumpMeansNothingSet(u: UpdateUser)
    ensures UpdateDump(u) == map[] <==> NothingSet(u)
  {
  }
}
