/**
 * The `users` table of app/models/user.py, held in memory, and the query
 * shapes the services run against it: a conjunction of conditions,
 * executed with `scalars(...).one_or_none()`, and a commit that the
 * database may refuse.
 */
module UserStore {
  import opened Wrappers
  import opened Enums
  import opened Passwords
  import opened DbErrors

  /** A user id (a UUID) in its canonical text form. */
  type Uuid = string

  /** One row of `users`; the creation and update timestamps are not part of this model. */
  datatype UserRow = UserRow(
    id: Uuid,
    username: string,
    email: string,
    password: StoredPassword,
    userType: UserType,
    status: UserStatus,
    isVerified: bool,
    isDeleted: bool)

  type Rows = map<Uuid, UserRow>

  /** The table's constraints: rows are keyed by their id, and usernames and emails are unique. */
  predicate Unique(rows: Rows)
  {
    && (forall k :: k in rows ==> rows[k].id == k)
    && (forall a, b :: a in rows && b in rows && a != b ==>
          rows[a].username != rows[b].username && rows[a].email != rows[b].email)
  }

  /** A `WHERE` condition of the services' statements. */
  datatype Condition =
    | IdIs(id: Uuid)
    | IsDeletedIs(flag: bool)
      /** `or_(email == identifier, username == identifier)` */
    | EmailOrUsernameIs(identifier: string)

  predicate Holds(row: UserRow, c: Condition)
  {
    match c
    case IdIs(id) => row.id == id
    case IsDeletedIs(flag) => row.isDeleted == flag
    case EmailOrUsernameIs(identifier) => row.email == identifier || row.username == identifier
  }

  /** `.where(*conditions)`: every condition holds. */
  predicate MatchesAll(row: UserRow, conds: seq<Condition>)
  {
    forall i :: 0 <= i < |conds| ==> Holds(row, conds[i])
  }

  function Matching(rows: Rows, conds: seq<Condition>): (ids: set<Uuid>)
    ensures ids <= rows.Keys
    ensures forall k :: k in ids <==> k in rows && MatchesAll(rows[k], conds)
  {
    set k | k in rows && MatchesAll(rows[k], conds)
  }

  /** What `one_or_none()` gives back, or the SQLAlchemy error it raises. */
  datatype Fetched = NoRow | OneRow(row: UserRow) | FetchFailed(error: DbError)

  /**
   * `session.scalars(statement).one_or_none()`: a failing query raises
   * `fault`; otherwise no match gives nothing, one match gives that row,
   * and several raise MultipleResultsFound.
   */
  function OneOrNone(rows: Rows, conds: seq<Condition>, fault: Option<DbError>): (r: Fetched)
    ensures fault.Some? ==> r == FetchFailed(fault.value)
    ensures fault.None? && Matching(rows, conds) == {} ==> r == NoRow
    ensures fault.None? && |Matching(rows, conds)| > 1 ==> r == FetchFailed(MultipleResultsFound)
    ensures r.OneRow? <==> fault.None? && |Matching(rows, conds)| == 1
    ensures r.OneRow? ==> exists k :: k in rows && rows[k] == r.row && Matching(rows, conds) == {k}
  {
    var ids := Matching(rows, conds);
    if fault.Some? then FetchFailed(fault.value)
    else if ids == {} then NoRow
    else if |ids| > 1 then FetchFailed(MultipleResultsFound)
    else
      var k := SingleElement(ids);
      OneRow(rows[k])
  }

  function SingleElement(s: set<Uuid>): (k: Uuid)
    requires |s| == 1
    ensures s == {k}
  {
    var k :| k in s;
    assert s == {k} by {
      forall j | j in s ensures j == k {
        if j != k { SubsetCard({j, k}, s); }
      }
    }
    k
  }

  /** A lookup by id matches at most the row stored under that id. */
  lemma {:induction false} IdLookupIsUnique(rows: Rows, id: Uuid, conds: seq<Condition>)
    requires Unique(rows)
    requires IdIs(id) in conds
    ensures Matching(rows, conds) <= {id}
    ensures OneOrNone(rows, conds, None) != FetchFailed(MultipleResultsFound)
  {
    var i :| 0 <= i < |conds| && conds[i] == IdIs(id);
    forall k | k in Matching(rows, conds) ensures k == id {
      assert Holds(rows[k], conds[i]);
    }
    if |Matching(rows, conds)| > 1 {
      var m := Matching(rows, conds);
      assert m <= {id};
      SubsetCard(m, {id});
    }
  }

  /** A row `one_or_none` returns is the row stored under its own id. */
  lemma OneRowIsStored(rows: Rows, conds: seq<Condition>, fault: Option<DbError>)
    requires Unique(rows)
    requires OneOrNone(rows, conds, fault).OneRow?
    ensures var row := OneOrNone(rows, conds, fault).row; row.id in rows && rows[row.id] == row
  {
  }

  /** Rewriting a stored row without touching its id, username or email keeps the table's constraints. */
  lemma ReplaceKeepsUnique(rows: Rows, row: UserRow)
    requires Unique(rows) && row.id in rows
    requires row.username == rows[row.id].username && row.email == rows[row.id].email
    ensures Unique(rows[row.id := row])
  {
  }

  lemma SubsetCard(a: set<Uuid>, b: set<Uuid>)
    requires a <= b
    ensures |a| <= |b|
  {
    assert b == a + (b - a);
  }

  /**
   * Committing pending rows: a failing commit raises `fault`; rows that
   * break a unique constraint raise an IntegrityError; otherwise they are
   * the new table.
   */
  function Committed(pending: Rows, fault: Option<DbError>): (r: Result<Rows, DbError>)
    ensures r.Ok? <==> fault.None? && Unique(pending)
    ensures r.Ok? ==> r.value == pending
    ensures fault.None? && !Unique(pending) ==> r == Err(DuplicateKey)
  {
    if fault.Some? then Err(fault.value)
    else if !Unique(pending) then Err(DuplicateKey)
    else Ok(pending)
  }

  /**
   * `session.add(row)` then `commit()`: a failing commit raises `fault`; a
   * row whose id, username or email is already taken raises an
   * IntegrityError; otherwise the row joins the table.
   */
  function Inserted(rows: Rows, row: UserRow, fault: Option<DbError>): (r: Result<Rows, DbError>)
    ensures r.Ok? <==> fault.None? && row.id !in rows && Unique(rows[row.id := row])
    ensures r.Ok? ==> r.value == rows[row.id := row]
    ensures fault.None? && row.id in rows ==> r == Err(DuplicateKey)
  {
    if fault.None? && row.id in rows then Err(DuplicateKey) else Committed(rows[row.id := row], fault)
  }

  /** A new row keeps the table's constraints exactly when its username and email are both unused. */
  lemma InsertKeepsUnique(rows: Rows, row: UserRow)
    requires Unique(rows)
    ensures row.id !in rows ==>
              (Unique(rows[row.id := row]) <==>
                 forall k :: k in rows ==> rows[k].username != row.username && rows[k].email != row.email)
  {
    var next := rows[row.id := row];
    if row.id !in rows && Unique(next) {
      forall k | k in rows ensures rows[k].username != row.username && rows[k].email != row.email {
        assert k in next && row.id in next && k != row.id;
      }
    }
  }

  /** The page a listing returns: `limit` matching rows after skipping `offset`, each stored under its id, none twice. */
  predicate IsPage(rows: Rows, conds: seq<Condition>, offset: nat, limit: nat, page: seq<UserRow>)
  {
    var total := |Matching(rows, conds)|;
    && |page| == (if total <= offset then 0 else if total - offset < limit then total - offset else limit)
    && (forall i :: 0 <= i < |page| ==> page[i].id in Matching(rows, conds) && rows[page[i].id] == page[i])
    && (forall i, j :: 0 <= i < j < |page| ==> page[i].id != page[j].id)
  }

  /** The counts a finished page scan leaves determine the page length `IsPage` asks for. */
  lemma PageLength(total: nat, offset: nat, limit: nat, skipped: nat, taken: nat, left: nat)
    requires skipped <= offset && taken <= limit && skipped + taken + left == total
    requires taken > 0 ==> skipped == offset
    requires left == 0 || taken == limit
    ensures taken == if total <= offset then 0 else if total - offset < limit then total - offset else limit
  {
  }

  /**
   * OFFSET and LIMIT over the selected ids: they are visited one at a time,
   * the first `offset` skipped and then up to `limit` rows kept.
   */
  method OffsetLimit(rows: Rows, ids: set<Uuid>, offset: nat, limit: nat) returns (page: seq<UserRow>)
    requires ids <= rows.Keys && forall k :: k in ids ==> rows[k].id == k
    ensures |page| == if |ids| <= offset then 0 else if |ids| - offset < limit then |ids| - offset else limit
    ensures forall i :: 0 <= i < |page| ==> page[i].id in ids && rows[page[i].id] == page[i]
    ensures forall i, j :: 0 <= i < j < |page| ==> page[i].id != page[j].id
  {
    var todo := ids;
    var skipped := 0;
    page := [];
    while todo != {} && |page| < limit
      invariant todo <= ids
      invariant skipped <= offset && |page| <= limit
      invariant skipped + |page| + |todo| == |ids|
      invariant |page| > 0 ==> skipped == offset
      invariant forall i :: 0 <= i < |page| ==> page[i].id in ids && page[i].id !in todo && rows[page[i].id] == page[i]
      invariant forall i, j :: 0 <= i < j < |page| ==> page[i].id != page[j].id
      decreases |todo|
    {
      var k :| k in todo;
      todo := todo - {k};
      if skipped < offset {
        skipped := skipped + 1;
      } else {
        page := page + [rows[k]];
      }
    }
    PageLength(|ids|, offset, limit, skipped, |page|, |todo|);
  }

  /** The in-memory `users` table that a request's session reads and writes. */
  class UserTable {
    var rows: Rows

    ghost predicate Valid()
      reads this
    {
      Unique(rows)
    }

    constructor ()
      ensures rows == map[] && Valid()
    {
      rows := map[];
    }

    /** `session.scalars(statement)`: the ids of the rows the conditions select, found by a scan. */
    method Scalars(conds: seq<Condition>) returns (ids: set<Uuid>)
      ensures ids == Matching(rows, conds)
    {
      ids := {};
      var todo := rows.Keys;
      while todo != {}
        invariant todo <= rows.Keys
        invariant forall k :: k in ids <==> k in rows && k !in todo && MatchesAll(rows[k], conds)
        decreases |todo|
      {
        var k :| k in todo;
        if MatchesAll(rows[k], conds) {
          ids := ids + {k};
        }
        todo := todo - {k};
      }
    }

    /** `session.scalars(statement).one_or_none()`, with `fault` the error a failing query raises. */
    method ScalarOneOrNone(conds: seq<Condition>, fault: Option<DbError>) returns (r: Fetched)
      ensures r == OneOrNone(rows, conds, fault)
    {
      if fault.Some? {
        return FetchFailed(fault.value);
      }
      var ids := Scalars(conds);
      if ids == {} {
        r := NoRow;
      } else if |ids| > 1 {
        r := FetchFailed(MultipleResultsFound);
      } else {
        var k := SingleElement(ids);
        r := OneRow(rows[k]);
      }
    }

    /**
     * `session.scalars(statement.offset(offset).limit(limit)).all()`: the
     * matching rows, the first `offset` skipped and then up to `limit` kept.
     * The order of the rows is not modelled.
     */
    method Page(conds: seq<Condition>, offset: nat, limit: nat) returns (page: seq<UserRow>)
      requires Valid()
      ensures IsPage(rows, conds, offset, limit, page)
    {
      var ids := Scalars(conds);
      page := OffsetLimit(rows, ids, offset, limit);
    }

    /** Adding one row and committing; on failure the table keeps its rows. */
    method Insert(row: UserRow, fault: Option<DbError>) returns (error: Option<DbError>)
      requires Valid()
      modifies this
      ensures Valid()
      ensures error.None? <==> Inserted(old(rows), row, fault).Ok?
      ensures error.None? ==> rows == old(rows)[row.id := row]
      ensures error.Some? ==> rows == old(rows) && Inserted(old(rows), row, fault) == Err(error.value)
    {
      if fault.None? && row.id in rows {
        return Some(DuplicateKey);
      }
      error := Commit(rows[row.id := row], fault);
    }

    /** `session.commit()` of the pending rows; on failure the table keeps its rows. */
    method Commit(pending: Rows, fault: Option<DbError>) returns (error: Option<DbError>)
      requires Valid()
      modifies this
      ensures Valid()
      ensures error.None? <==> Committed(pending, fault).Ok?
      ensures error.None? ==> rows == pending
      ensures error.Some? ==> rows == old(rows) && Committed(pending, fault) == Err(error.value)
    {
      match Committed(pending, fault)
      case Ok(next) =>
        rows := next;
        error := None;
      case Err(e) =>
        error := Some(e);
    }
  }
}
