/**
 * The enumerations of app/schemas/enums.py: the `BaseEnum` helpers over an
 * enumeration given as its members in declaration order, the four value
 * sets the authentication core uses, and the stock-keeping-unit table.
 */
module Enums {
  import opened Wrappers
  import opened Strings

  datatype EnumValue = IntValue(i: int) | StrValue(s: string)

  /** One member: its name, its value, and its `unit` property when the class has one. */
  datatype Member = Member(name: string, value: EnumValue, unit: Option<string>)

  /** One entry of `to_dict('json')`. */
  datatype JsonEntry = JsonEntry(name: string, nameParam: string, namePretty: string, value: EnumValue)

  datatype EnumDict = PythonDict(entries: map<string, EnumValue>) | JsonList(items: seq<JsonEntry>)

  datatype EnumList = PythonValues(values: seq<EnumValue>) | JsonNames(names: seq<string>)

  predicate DistinctNames(cls: seq<Member>)
  {
    forall i, j :: 0 <= i < j < |cls| ==> cls[i].name != cls[j].name
  }

  /** What `@unique` enforces: no two members share a value. */
  predicate DistinctValues(cls: seq<Member>)
  {
    forall i, j :: 0 <= i < j < |cls| ==> cls[i].value != cls[j].value
  }

  /** `name.replace('_', ' ').title()`. */
  function Pretty(name: string): string
  {
    Title(ReplaceChar(name, '_', ' '))
  }

  /** An upper-case member name reads as capitalised words: a two-word name. */
  lemma PrettyAccessToken()
    ensures Pretty("ACCESS_TOKEN") == "Access Token"
  {
    PrettyOf("ACCESS_TOKEN", "ACCESS TOKEN", "Access Token");
  }

  /** An upper-case member name reads as capitalised words: a one-word name. */
  lemma PrettyAdmin()
    ensures Pretty("ADMIN") == "Admin"
  {
    PrettyOf("ADMIN", "ADMIN", "Admin");
  }

  /** `Pretty(name)` is `t` when `spaced` is `name` with blanks for underscores and `t` is its title case. */
  lemma PrettyOf(name: string, spaced: string, t: string)
    requires |spaced| == |name| == |t|
    requires forall i :: 0 <= i < |name| ==> spaced[i] == if name[i] == '_' then ' ' else name[i]
    requires forall i :: 0 <= i < |t| ==>
               t[i] == if StartsWord(spaced, i) then ToUpperChar(spaced[i]) else ToLowerChar(spaced[i])
    ensures Pretty(name) == t
  {
    assert ReplaceChar(name, '_', ' ') == spaced;
    forall i | 0 <= i < |t|
      ensures Title(spaced)[i] == t[i]
    {
      TitleAfterAt(spaced, false, i);
    }
  }

  /** `getattr(opt, 'unit', opt.name).lower()`: the unit when there is one, else the name, with no capital left. */
  function NameParam(m: Member): (r: string)
    ensures |r| == |if m.unit.Some? then m.unit.value else m.name|
    ensures forall i :: 0 <= i < |r| ==> !IsUpper(r[i])
  {
    Lower(if m.unit.Some? then m.unit.value else m.name)
  }

  /** The dict comprehension `{opt.name: opt.value for opt in cls}`, inserting members in order. */
  function NameValueDict(cls: seq<Member>): (d: map<string, EnumValue>)
    ensures d.Keys == set i | 0 <= i < |cls| :: cls[i].name
    decreases |cls|
  {
    if cls == [] then map[]
    else
      var d := NameValueDict(cls[..|cls| - 1]);
      assert forall i | 0 <= i < |cls| - 1 :: cls[..|cls| - 1][i] == cls[i];
      d[cls[|cls| - 1].name := cls[|cls| - 1].value]
  }

  /** In a class whose names are distinct, every name is mapped to its own value. */
  lemma {:induction false} NameValueDictLookup(cls: seq<Member>, k: nat)
    requires DistinctNames(cls) && k < |cls|
    ensures NameValueDict(cls)[cls[k].name] == cls[k].value
    decreases |cls|
  {
    var init := cls[..|cls| - 1];
    if k < |cls| - 1 {
      assert DistinctNames(init) by {
        forall i, j | 0 <= i < j < |init| ensures init[i].name != init[j].name {
          assert init[i] == cls[i] && init[j] == cls[j];
        }
      }
      NameValueDictLookup(init, k);
      assert init[k] == cls[k];
    }
  }

  /** `BaseEnum.to_dict(mode)`; a mode other than 'python' or 'json' returns None. */
  function ToDict(cls: seq<Member>, mode: string): (r: Option<EnumDict>)
    ensures mode == "python" ==> r == Some(PythonDict(NameValueDict(cls)))
    ensures mode == "json" ==> r.Some? && r.value.JsonList? && |r.value.items| == |cls|
    ensures mode == "json" ==> forall i :: 0 <= i < |cls| ==>
              r.value.items[i] == JsonEntry(cls[i].name, NameParam(cls[i]), Pretty(cls[i].name), cls[i].value)
    ensures mode != "python" && mode != "json" ==> r == None
  {
    if mode == "python" then Some(PythonDict(NameValueDict(cls)))
    else if mode == "json" then
      Some(JsonList(seq(|cls|, i requires 0 <= i < |cls| =>
        JsonEntry(cls[i].name, NameParam(cls[i]), Pretty(cls[i].name), cls[i].value))))
    else None
  }

  /** `BaseEnum.to_list(mode)`: values in order, or lower-cased names. */
  function ToList(cls: seq<Member>, mode: string): (r: Option<EnumList>)
    ensures mode == "python" ==> r.Some? && r.value.PythonValues? && |r.value.values| == |cls|
    ensures mode == "python" ==> forall i :: 0 <= i < |cls| ==> r.value.values[i] == cls[i].value
    ensures mode == "json" ==> r.Some? && r.value.JsonNames? && |r.value.names| == |cls|
    ensures mode == "json" ==> forall i :: 0 <= i < |cls| ==> r.value.names[i] == Lower(cls[i].name)
    ensures mode != "python" && mode != "json" ==> r == None
  {
    if mode == "python" then Some(PythonValues(seq(|cls|, i requires 0 <= i < |cls| => cls[i].value)))
    else if mode == "json" then Some(JsonNames(seq(|cls|, i requires 0 <= i < |cls| => Lower(cls[i].name))))
    else None
  }

  // ---------------------------------------------------------------------
  // The value sets of the authentication core

  datatype TokenType = AccessToken | RefreshToken
  {
    function Name(): string
    {
      match this
      case AccessToken => "ACCESS_TOKEN"
      case RefreshToken => "REFRESH_TOKEN"
    }

    function Value(): string
    {
      match this
      case AccessToken => "access_token"
      case RefreshToken => "refresh_token"
    }
  }

  datatype GrantType = Password | RefreshTokenGrant
  {
    function Name(): string
    {
      match this
      case Password => "PASSWORD"
      case RefreshTokenGrant => "REFRESH_TOKEN"
    }

    function Value(): string
    {
      match this
      case Password => "password"
      case RefreshTokenGrant => "refresh_token"
    }
  }

  datatype UserType = Admin | Business | Customer
  {
    function Name(): string
    {
      match this
      case Admin => "ADMIN"
      case Business => "BUSINESS"
      case Customer => "CUSTOMER"
    }

    function Value(): int
    {
      match this
      case Admin => 0
      case Business => 1
      case Customer => 2
    }
  }

  datatype UserStatus = Inactive | Active | Suspended
  {
    function Name(): string
    {
      match this
      case Inactive => "INACTIVE"
      case Active => "ACTIVE"
      case Suspended => "SUSPENDED"
    }

    function Value(): int
    {
      match this
      case Inactive => 0
      case Active => 1
      case Suspended => 2
    }
  }

  const TokenTypeClass: seq<Member> :=
    [Member(AccessToken.Name(), StrValue(AccessToken.Value()), None),
     Member(RefreshToken.Name(), StrValue(RefreshToken.Value()), None)]

  const GrantTypeClass: seq<Member> :=
    [Member(Password.Name(), StrValue(Password.Value()), None),
     Member(RefreshTokenGrant.Name(), StrValue(RefreshTokenGrant.Value()), None)]

  const UserTypeClass: seq<Member> :=
    [Member(Admin.Name(), IntValue(Admin.Value()), None),
     Member(Business.Name(), IntValue(Business.Value()), None),
     Member(Customer.Name(), IntValue(Customer.Value()), None)]

  const UserStatusClass: seq<Member> :=
    [Member(Inactive.Name(), IntValue(Inactive.Value()), None),
     Member(Active.Name(), IntValue(Active.Value()), None),
     Member(Suspended.Name(), IntValue(Suspended.Value()), None)]

  /** `UserType(v)`: the member with value `v`, or a ValueError. */
  function UserTypeFromValue(v: int): (r: Option<UserType>)
    ensures r.Some? <==> 0 <= v <= 2
    ensures r.Some? ==> r.value.Value() == v
  {
    if v == 0 then Some(Admin) else if v == 1 then Some(Business) else if v == 2 then Some(Customer) else None
  }

  /** `UserStatus(v)`: the member with value `v`, or a ValueError. */
  function UserStatusFromValue(v: int): (r: Option<UserStatus>)
    ensures r.Some? <==> 0 <= v <= 2
    ensures r.Some? ==> r.value.Value() == v
  {
    if v == 0 then Some(Inactive) else if v == 1 then Some(Active) else if v == 2 then Some(Suspended) else None
  }

  lemma ValueRoundTrips(t: UserType, s: UserStatus)
    ensures UserTypeFromValue(t.Value()) == Some(t)
    ensures UserStatusFromValue(s.Value()) == Some(s)
  {
  }

  /** Every `@unique` value set has pairwise distinct values, and each class lists exactly its datatype's members. */
  lemma ValueSetsAreUnique()
    ensures DistinctValues(TokenTypeClass) && DistinctValues(GrantTypeClass)
    ensures DistinctValues(UserTypeClass) && DistinctValues(UserStatusClass)
    ensures forall t: UserType :: Member(t.Name(), IntValue(t.Value()), None) in UserTypeClass
    ensures forall s: UserStatus :: Member(s.Name(), IntValue(s.Value()), None) in UserStatusClass
  {
  }

  // ---------------------------------------------------------------------
  // StockKeepingUnit

  const SkuNames: seq<string> :=
    ["PIECE", "DOZEN", "GROSS", "PAIR", "SET", "GRAM", "KILOGRAM", "MILLIGRAM", "TONNE",
     "MILLILITER", "LITER", "CUBIC_METER", "METER", "CENTIMETER", "INCH", "FOOT",
     "SQUARE_METER", "SQUARE_FOOT", "HOUR", "DAY", "PACKET", "BOX", "CRATE", "ROLL",
     "BOTTLE", "CAN"]

  /** The fixed value-to-unit table of `StockKeepingUnit.unit`. */
  const UnitMapper: map<int, string> :=
    map[0 := "pcs", 1 := "dozen", 2 := "gross", 3 := "pair(s)", 4 := "set(s)", 5 := "g",
        6 := "kg", 7 := "mg", 8 := "t", 9 := "ml", 10 := "l", 11 := "m\U{B3}", 12 := "m",
        13 := "cm", 14 := "in", 15 := "ft", 16 := "m\U{B2}", 17 := "ft\U{B2}", 18 := "hr(s)",
        19 := "day(s)", 20 := "packet(s)", 21 := "box(es)", 22 := "crate(s)", 23 := "roll(s)",
        24 := "bottle(s)", 25 := "can(s)"]

  /** `unit_mapper.get(self.value, self.name.lower())`. */
  function SkuUnit(value: int, name: string): (u: string)
    ensures 0 <= value <= 25 ==> u == UnitMapper[value]
    ensures !(0 <= value <= 25) ==> u == Lower(name)
  {
    assert forall v :: v in UnitMapper <==> 0 <= v <= 25;
    if value in UnitMapper then UnitMapper[value] else Lower(name)
  }

  /** The members PIECE = 0 through CAN = 25, each with its unit. */
  const SkuClass: seq<Member> :=
    seq(|SkuNames|, i requires 0 <= i < |SkuNames| => Member(SkuNames[i], IntValue(i), Some(SkuUnit(i, SkuNames[i]))))

  /**
   * Every member's value lies in 0..25, so its unit always comes from the
   * table and the lower-cased-name fallback is never taken for a member;
   * the values are pairwise distinct.
   */
  lemma SkuUnitsComeFromTable()
    ensures |SkuClass| == 26 && DistinctValues(SkuClass)
    ensures forall i :: 0 <= i < |SkuClass| ==>
              SkuClass[i].value == IntValue(i) && SkuClass[i].unit == Some(UnitMapper[i])
  {
  }
}
