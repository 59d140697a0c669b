/** The pieces shared by the server actions: identifiers, the `users` table,
    database errors, the admin gate and the newest-first ordering the
    database applies to listings (`order('created_at', { ascending: false })`). */
module Store {
  import opened Wrappers
  import opened Text

  type Id = string

  /** A row of the `users` table. The role column may be null. */
  datatype UserRow = UserRow(email: string, name: Option<string>, role: Option<string>)

  type Users = map<Id, UserRow>

  /** An error object returned by the database client. */
  datatype DbError = DbError(code: string, message: string)

  const UnauthorizedText: string := "Unauthorized"

  /** `error.message || fallback`: an empty message is replaced. */
  function MessageOr(message: string, fallback: string): (r: string)
    ensures message != "" ==> r == message
    ensures message == "" ==> r == fallback
  {
    if message == "" then fallback else message
  }

  /** The `error` field of an action's `{ data, error }` answer: the error
      text, or `null` on success. */
  function ErrorOf<A>(answer: Result<A, string>): (e: Option<string>)
    ensures e.Some? <==> answer.Failure?
    ensures e.Some? ==> e.value == answer.error
  {
    if answer.Failure? then Some(answer.error) else None
  }

  /** `if (error)` in the pages: JavaScript reads `null` and the empty
      string as false, so an empty error text counts as no error. */
  predicate Truthy(e: Option<string>) {
    e.Some? && e.value != ""
  }

  /** `role?.toString().toLowerCase().trim()`: the role normalisation of the
      route guard and of `checkUserRole`. */
  function NormaliseRole(role: string): string {
    Trim(Lower(role))
  }

  /** The gate of the admin-only server actions: a signed-in user whose
      `users` row has role exactly "admin". The role is compared raw, without
      trimming or case folding; a failed role query returns no row and so
      fails the gate. */
  predicate IsAdmin(users: Users, user: Option<Id>) {
    user.Some? && user.value in users && users[user.value].role == Some("admin")
  }

  /** `after` differs from `before` at most at key `id`: no other key is
      added or removed, and every other row keeps its value. */
  ghost predicate OnlyKeyChanges<R>(before: map<Id, R>, after: map<Id, R>, id: Id) {
    && (forall k :: k != id ==> (k in after <==> k in before))
    && (forall k :: k != id && k in before ==> after[k] == before[k])
  }

  /* ---------------------------------------------------------------------- */
  /* Table writes                                                           */
  /* ---------------------------------------------------------------------- */

  /** The error PostgreSQL reports for a second row with the same primary key.
      The message is written in three pieces so that a proof about its
      characters can look at one short piece at a time. */
  const DuplicateKey: DbError := DbError("23505", "duplicate key value " + "violates unique " + "constraint")

  /** The error `.single()` reports when a statement returns no row. */
  const NoRows: DbError := DbError("PGRST116", "JSON object requested, multiple (or no) rows returned")

  /** `insert(row).select().single()`. `refused` is an error the database
      raises for reasons outside the model (a row-level security policy,
      say); otherwise an existing id is a duplicate key. */
  function InsertRow<R>(table: map<Id, R>, id: Id, row: R, refused: Option<DbError>): (r: Result<map<Id, R>, DbError>)
    ensures r.Success? <==> refused.None? && id !in table
    ensures r.Success? ==> r.value == table[id := row]
    ensures refused.None? && id in table ==> r == Failure(DuplicateKey)
  {
    if refused.Some? then Failure(refused.value)
    else if id in table then Failure(DuplicateKey)
    else Success(table[id := row])
  }

  /** `update(change).eq('id', id).select().single()`: the row with that id
      is rewritten by `change`; no such row is an error. */
  function UpdateRow<R>(table: map<Id, R>, id: Id, change: R -> R, refused: Option<DbError>): (r: Result<map<Id, R>, DbError>)
    ensures r.Success? <==> refused.None? && id in table
    ensures r.Success? ==> r.value == table[id := change(table[id])]
    ensures refused.None? && id !in table ==> r == Failure(NoRows)
  {
    if refused.Some? then Failure(refused.value)
    else if id !in table then Failure(NoRows)
    else Success(table[id := change(table[id])])
  }

  /** A write by a server action: its answer and the table afterwards. */
  datatype Write<A, R> = Write(answer: Result<A, string>, table: map<Id, R>)

  /** An admin-only `delete().eq('id', id)` without `.single()`: the action
      of `deleteBooking` and `deleteService`. Deleting an unknown id is no
      error. */
  function AdminDelete<R>(table: map<Id, R>, users: Users, user: Option<Id>, id: Id,
                          refused: Option<DbError>): (r: Write<(), R>)
    ensures !IsAdmin(users, user) ==> r == Write(Failure(UnauthorizedText), table)
    ensures r.answer.Failure? ==> r.table == table
    ensures r.answer.Success? <==> IsAdmin(users, user) && refused.None?
    // the row with that id goes, and nothing else
    ensures r.answer.Success? ==> id !in r.table
    ensures OnlyKeyChanges(table, r.table, id)
  {
    if !IsAdmin(users, user) then Write(Failure(UnauthorizedText), table)
    else if refused.Some? then Write(Failure(refused.value.message), table)
    else Write(Success(()), table - {id})
  }

  /* ---------------------------------------------------------------------- */
  /* Newest-first listings                                                  */
  /* ---------------------------------------------------------------------- */

  /** Every id is a key of the table, and creation times never increase
      along the sequence. */
  predicate NewestFirstOrder<R>(ids: seq<Id>, table: map<Id, R>, createdAt: R -> int) {
    && (forall i :: 0 <= i < |ids| ==> ids[i] in table)
    && (forall i, j :: 0 <= i < j < |ids| ==> createdAt(table[ids[i]]) >= createdAt(table[ids[j]]))
  }

  /** Inserts `k` in front of the first id that is not newer than it. */
  function InsertNewestFirst<R>(ids: seq<Id>, k: Id, table: map<Id, R>, createdAt: R -> int): (r: seq<Id>)
    requires k in table
    requires NewestFirstOrder(ids, table, createdAt)
    ensures multiset(r) == multiset(ids) + multiset{k}
    ensures NewestFirstOrder(r, table, createdAt)
    decreases |ids|
  {
    if |ids| == 0 || createdAt(table[ids[0]]) <= createdAt(table[k]) then
      [k] + ids
    else
      var rest := InsertNewestFirst(ids[1..], k, table, createdAt);
      assert ids == [ids[0]] + ids[1..];
      forall j | 0 <= j < |rest|
        ensures createdAt(table[rest[j]]) <= createdAt(table[ids[0]])
      {
        FromTailOrNew(ids, rest, k, j);
      }
      [ids[0]] + rest
  }

  /** An element of a sequence holding the tail of `ids` and `k` is `k` or
      an element of the tail. */
  lemma FromTailOrNew<T>(ids: seq<T>, rest: seq<T>, k: T, j: int)
    requires |ids| > 0 && 0 <= j < |rest|
    requires multiset(rest) == multiset(ids[1..]) + multiset{k}
    ensures rest[j] == k || exists i :: 1 <= i < |ids| && ids[i] == rest[j]
  {
    assert rest[j] in multiset(rest);
    if rest[j] != k {
      assert rest[j] in multiset(ids[1..]);
      var i :| 0 <= i < |ids[1..]| && ids[1..][i] == rest[j];
      assert ids[i + 1] == rest[j];
    }
  }

  /** The ids of a table ordered newest first: every key exactly once. Rows
      with equal creation times may come in any order. */
  method NewestFirst<R>(table: map<Id, R>, createdAt: R -> int) returns (ids: seq<Id>)
    ensures multiset(ids) == multiset(table.Keys)
    ensures NewestFirstOrder(ids, table, createdAt)
  {
    ids := [];
    var remaining := table.Keys;
    while remaining != {}
      invariant remaining <= table.Keys
      invariant multiset(ids) + multiset(remaining) == multiset(table.Keys)
      invariant NewestFirstOrder(ids, table, createdAt)
      decreases |remaining|
    {
      var k :| k in remaining;
      ids := InsertNewestFirst(ids, k, table, createdAt);
      remaining := remaining - {k};
    }
  }

  /** Each key of the table appears exactly once in a listing whose multiset
      of ids is the key set. */
  lemma ListingHasEveryKeyOnce<R>(ids: seq<Id>, table: map<Id, R>)
    requires multiset(ids) == multiset(table.Keys)
    ensures |ids| == |table|
    ensures forall k :: k in table <==> k in ids
    ensures forall i, j :: 0 <= i < j < |ids| ==> ids[i] != ids[j]
  {
    assert |multiset(ids)| == |ids|;
    assert |multiset(table.Keys)| == |table.Keys|;
    forall k
      ensures k in table <==> k in ids
    {
      assert k in ids <==> k in multiset(ids);
    }
    forall i, j | 0 <= i < j < |ids|
      ensures ids[i] != ids[j]
    {
      assert ids == ids[..j] + ids[j..];
      assert multiset(ids) == multiset(ids[..j]) + multiset(ids[j..]);
      assert ids[..j][i] == ids[i] && ids[j..][0] == ids[j];
      assert multiset(ids[..j])[ids[i]] >= 1 && multiset(ids[j..])[ids[j]] >= 1;
      assert multiset(ids)[ids[i]] <= 1;
    }
  }
}
