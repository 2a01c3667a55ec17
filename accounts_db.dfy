/**
 * The `twitter_accounts` table of the account registry, held in memory: its
 * rows in id order and the AUTOINCREMENT counter. SQLite's constraints are
 * stated as `ValidTable`; each statement the module issues is a transition
 * function on `Table`, and `AccountsDb` applies them in place.
 */
module AccountsDb {
  import opened Opt
  import opened PyText

  /** One row; `active` is the INTEGER column, 1 for active and 0 for inactive. */
  datatype Row = Row(
    id: int,
    handle: string,
    addedAt: string,
    active: int,
    category: Option<string>,
    notes: Option<string>)

  /**
   * The rows in id order, and the id the next inserted row receives: one more
   * than the largest id ever assigned, so a deleted row's id is never reused.
   */
  datatype Table = Table(rows: seq<Row>, nextId: int)

  /** `id` positive, increasing and below the counter; `handle` UNIQUE; `active` 0 or 1. */
  predicate ValidTable(t: Table) {
    1 <= t.nextId &&
    (forall i | 0 <= i < |t.rows| :: 1 <= t.rows[i].id < t.nextId && (t.rows[i].active == 0 || t.rows[i].active == 1)) &&
    (forall i, j | 0 <= i < j < |t.rows| :: t.rows[i].id < t.rows[j].id && t.rows[i].handle != t.rows[j].handle)
  }

  predicate HasHandle(rows: seq<Row>, handle: string) {
    exists i | 0 <= i < |rows| :: rows[i].handle == handle
  }

  /** `handle.lstrip('@')` */
  function Normalise(handle: string): string {
    LStripChar(handle, '@')
  }

  /** `INSERT`: an already present handle violates UNIQUE and leaves the table as it was. */
  function Insert(t: Table, handle: string, addedAt: string, category: Option<string>, notes: Option<string>): Table {
    if HasHandle(t.rows, handle) then t
    else Table(t.rows + [Row(t.nextId, handle, addedAt, 1, category, notes)], t.nextId + 1)
  }

  /** `DELETE ... WHERE handle = ?` */
  function Delete(t: Table, handle: string): Table {
    Table(Without(t.rows, handle), t.nextId)
  }

  function Without(rows: seq<Row>, handle: string): seq<Row>
    decreases |rows|
  {
    if rows == [] then [] else (if rows[0].handle == handle then [] else [rows[0]]) + Without(rows[1..], handle)
  }

  /** `UPDATE ... SET active = 1 - active WHERE handle = ?` */
  function Toggle(t: Table, handle: string): Table {
    Table(seq(|t.rows|, i requires 0 <= i < |t.rows| =>
                if t.rows[i].handle == handle then t.rows[i].(active := 1 - t.rows[i].active) else t.rows[i]),
          t.nextId)
  }

  /** `SELECT handle ... WHERE active = 1 ORDER BY id` */
  function ActiveHandles(rows: seq<Row>): seq<string>
    decreases |rows|
  {
    if rows == [] then [] else (if rows[0].active == 1 then [rows[0].handle] else []) + ActiveHandles(rows[1..])
  }

  datatype DefaultAccount = DefaultAccount(handle: string, category: string, notes: string)

  const DefaultAccounts := [
    DefaultAccount("unusual_whales", "market", "Options flow and dark pool alerts"),
    DefaultAccount("FirstSquawk", "news", "Real-time macro and geopolitical headlines"),
    DefaultAccount("AutismCapital", "macro", "Macro intelligence and geopolitical signals"),
    DefaultAccount("Mayhem4Markets", "market", "Market structure and volatility commentary"),
    DefaultAccount("BasedBiohacker", "bio", "Biotech and health sector signals")
  ]

  /** `INSERT OR IGNORE` of each account in turn, all stamped `now`. */
  function SeedWith(t: Table, accounts: seq<DefaultAccount>, now: string): Table
    decreases |accounts|
  {
    if accounts == [] then t
    else
      var a := accounts[0];
      SeedWith(Insert(t, a.handle, now, Some(a.category), Some(a.notes)), accounts[1..], now)
  }

  /** The seeding `init_db` performs. */
  function Seed(t: Table, now: string): Table {
    SeedWith(t, DefaultAccounts, now)
  }

  // ---------------------------------------------------------------------------
  // Properties of the statements
  // ---------------------------------------------------------------------------

  /**
   * An insert adds a row exactly when the handle is new: the row comes last,
   * is active, and takes an id above every id assigned so far. A duplicate
   * leaves the table unchanged. The table stays valid.
   */
  lemma InsertFacts(t: Table, handle: string, addedAt: string, category: Option<string>, notes: Option<string>)
    requires ValidTable(t)
    ensures var r := Insert(t, handle, addedAt, category, notes);
      ValidTable(r) && HasHandle(r.rows, handle) &&
      (HasHandle(t.rows, handle) ==> r == t) &&
      (!HasHandle(t.rows, handle) ==>
        r.rows == t.rows + [Row(t.nextId, handle, addedAt, 1, category, notes)] &&
        r.nextId == t.nextId + 1 &&
        forall i | 0 <= i < |t.rows| :: t.rows[i].id < t.nextId)
  {
    var r := Insert(t, handle, addedAt, category, notes);
    if !HasHandle(t.rows, handle) {
      assert r.rows[|t.rows|].handle == handle;
    }
  }

  lemma {:induction false} WithoutFacts(rows: seq<Row>, handle: string)
    ensures |Without(rows, handle)| <= |rows|
    ensures forall r | r in Without(rows, handle) :: r in rows && r.handle != handle
    ensures forall r | r in rows && r.handle != handle :: r in Without(rows, handle)
    ensures !HasHandle(rows, handle) ==> Without(rows, handle) == rows
    decreases |rows|
  {
    if rows != [] {
      WithoutFacts(rows[1..], handle);
      assert rows == [rows[0]] + rows[1..];
      if !HasHandle(rows, handle) {
        assert rows[0].handle != handle;
        assert !HasHandle(rows[1..], handle) by {
          forall i | 0 <= i < |rows[1..]| ensures rows[1..][i].handle != handle {
            assert rows[1..][i] == rows[i + 1];
          }
        }
      }
    }
  }

  /** A row placed before a valid table keeps it valid when its id is smaller and its handle new. */
  lemma ConsValid(x: Row, rest: seq<Row>, nextId: int)
    requires ValidTable(Table(rest, nextId))
    requires 1 <= x.id < nextId && (x.active == 0 || x.active == 1)
    requires forall y | y in rest :: x.id < y.id && x.handle != y.handle
    ensures ValidTable(Table([x] + rest, nextId))
  {
    var w := [x] + rest;
    forall i, j | 0 <= i < j < |w| ensures w[i].id < w[j].id && w[i].handle != w[j].handle {
      assert w[j] == rest[j - 1];
      if i > 0 {
        assert w[i] == rest[i - 1];
      } else {
        assert rest[j - 1] in rest;
      }
    }
  }

  /** In a valid table the first row precedes every later one in id and differs from it in handle. */
  lemma HeadBeforeTail(t: Table)
    requires ValidTable(t) && t.rows != []
    ensures forall y | y in t.rows[1..] :: t.rows[0].id < y.id && t.rows[0].handle != y.handle
  {
    forall y | y in t.rows[1..] ensures t.rows[0].id < y.id && t.rows[0].handle != y.handle {
      var m :| 0 <= m < |t.rows[1..]| && t.rows[1..][m] == y;
      assert t.rows[m + 1] == y;
    }
  }

  lemma TailValid(t: Table)
    requires ValidTable(t) && t.rows != []
    ensures ValidTable(Table(t.rows[1..], t.nextId))
  {
    var r := t.rows[1..];
    forall i, j | 0 <= i < j < |r| ensures r[i].id < r[j].id && r[i].handle != r[j].handle {
      assert r[i] == t.rows[i + 1] && r[j] == t.rows[j + 1];
    }
    forall i | 0 <= i < |r| ensures 1 <= r[i].id < t.nextId && (r[i].active == 0 || r[i].active == 1) {
      assert r[i] == t.rows[i + 1];
    }
  }

  /** Deleting keeps order, so a subsequence of an increasing-id, unique-handle table is again one. */
  lemma {:induction false} WithoutKeepsValid(t: Table, handle: string)
    requires ValidTable(t)
    ensures ValidTable(Table(Without(t.rows, handle), t.nextId))
    decreases |t.rows|
  {
    if t.rows != [] {
      var tail := Table(t.rows[1..], t.nextId);
      TailValid(t);
      WithoutKeepsValid(tail, handle);
      WithoutFacts(t.rows[1..], handle);
      var wt := Without(t.rows[1..], handle);
      if t.rows[0].handle != handle {
        assert Without(t.rows, handle) == [t.rows[0]] + wt;
        HeadBeforeTail(t);
        ConsValid(t.rows[0], wt, t.nextId);
      } else {
        assert Without(t.rows, handle) == [] + wt == wt;
      }
    }
  }

  /**
   * Removing deletes exactly the row with that handle: afterwards no row has
   * it, every other row stays, in order, and the counter is untouched (ids
   * are not reused). Removing an absent handle changes nothing.
   */
  lemma DeleteFacts(t: Table, handle: string)
    requires ValidTable(t)
    ensures var r := Delete(t, handle);
      ValidTable(r) && !HasHandle(r.rows, handle) && r.nextId == t.nextId &&
      (forall x | x in t.rows && x.handle != handle :: x in r.rows) &&
      (forall x | x in r.rows :: x in t.rows) &&
      (!HasHandle(t.rows, handle) ==> r == t)
  {
    WithoutFacts(t.rows, handle);
    WithoutKeepsValid(t, handle);
    var r := Delete(t, handle);
    assert !HasHandle(r.rows, handle) by {
      forall i | 0 <= i < |r.rows| ensures r.rows[i].handle != handle {
        assert r.rows[i] in r.rows;
      }
    }
  }

  /**
   * Toggling flips `active` on the row with that handle and on no other; the
   * table stays valid, and toggling twice restores it.
   */
  lemma ToggleFacts(t: Table, handle: string)
    requires ValidTable(t)
    ensures var r := Toggle(t, handle);
      ValidTable(r) && |r.rows| == |t.rows| && r.nextId == t.nextId &&
      (forall i | 0 <= i < |t.rows| ::
         r.rows[i].id == t.rows[i].id && r.rows[i].handle == t.rows[i].handle &&
         r.rows[i].active == (if t.rows[i].handle == handle then 1 - t.rows[i].active else t.rows[i].active) &&
         r.rows[i] == t.rows[i].(active := r.rows[i].active)) &&
      (!HasHandle(t.rows, handle) ==> r == t) &&
      Toggle(r, handle) == t
  {
    var r := Toggle(t, handle);
    var rr := Toggle(r, handle);
    assert |rr.rows| == |t.rows|;
    forall i | 0 <= i < |t.rows| ensures rr.rows[i] == t.rows[i] {
    }
    if !HasHandle(t.rows, handle) {
      forall i | 0 <= i < |t.rows| ensures r.rows[i] == t.rows[i] {
      }
    }
  }

  /** A handle present in a prefix is present in the whole. */
  lemma PrefixHasHandle(a: seq<Row>, b: seq<Row>, h: string)
    requires |a| <= |b| && b[..|a|] == a && HasHandle(a, h)
    ensures HasHandle(b, h)
  {
    var i :| 0 <= i < |a| && a[i].handle == h;
    assert b[i] == a[i];
  }

  /** An insert keeps the rows before it as a prefix and leaves the handle present. */
  lemma InsertGrows(t: Table, handle: string, addedAt: string, category: Option<string>, notes: Option<string>)
    ensures var r := Insert(t, handle, addedAt, category, notes);
      |t.rows| <= |r.rows| && r.rows[..|t.rows|] == t.rows && t.nextId <= r.nextId && HasHandle(r.rows, handle)
  {
    var r := Insert(t, handle, addedAt, category, notes);
    if !HasHandle(t.rows, handle) {
      assert r.rows[|t.rows|].handle == handle;
    }
  }

  lemma {:induction false} SeedWithValid(t: Table, accounts: seq<DefaultAccount>, now: string)
    requires ValidTable(t)
    ensures ValidTable(SeedWith(t, accounts, now))
    decreases |accounts|
  {
    if accounts != [] {
      var a := accounts[0];
      InsertFacts(t, a.handle, now, Some(a.category), Some(a.notes));
      SeedWithValid(Insert(t, a.handle, now, Some(a.category), Some(a.notes)), accounts[1..], now);
    }
  }

  lemma {:induction false} SeedWithGrows(t: Table, accounts: seq<DefaultAccount>, now: string)
    ensures var r := SeedWith(t, accounts, now);
      |t.rows| <= |r.rows| && r.rows[..|t.rows|] == t.rows && t.nextId <= r.nextId
    decreases |accounts|
  {
    if accounts != [] {
      var a := accounts[0];
      var t1 := Insert(t, a.handle, now, Some(a.category), Some(a.notes));
      InsertGrows(t, a.handle, now, Some(a.category), Some(a.notes));
      SeedWithGrows(t1, accounts[1..], now);
      var r := SeedWith(t1, accounts[1..], now);
      assert r.rows[..|t1.rows|][..|t.rows|] == r.rows[..|t.rows|];
    }
  }

  lemma {:induction false} SeedWithCovers(t: Table, accounts: seq<DefaultAccount>, now: string)
    ensures forall k | 0 <= k < |accounts| :: HasHandle(SeedWith(t, accounts, now).rows, accounts[k].handle)
    decreases |accounts|
  {
    if accounts != [] {
      var a := accounts[0];
      var t1 := Insert(t, a.handle, now, Some(a.category), Some(a.notes));
      var r := SeedWith(t1, accounts[1..], now);
      InsertGrows(t, a.handle, now, Some(a.category), Some(a.notes));
      SeedWithGrows(t1, accounts[1..], now);
      SeedWithCovers(t1, accounts[1..], now);
      PrefixHasHandle(t1.rows, r.rows, a.handle);
      forall k | 0 < k < |accounts| ensures HasHandle(r.rows, accounts[k].handle) {
        assert accounts[k] == accounts[1..][k - 1];
      }
    }
  }

  /**
   * Seeding with any list of accounts keeps the table valid, keeps every
   * existing row where it was, never lowers the counter, and leaves every
   * listed handle present.
   */
  lemma SeedWithFacts(t: Table, accounts: seq<DefaultAccount>, now: string)
    requires ValidTable(t)
    ensures var r := SeedWith(t, accounts, now);
      ValidTable(r) && |t.rows| <= |r.rows| && r.rows[..|t.rows|] == t.rows && t.nextId <= r.nextId &&
      (forall k | 0 <= k < |accounts| :: HasHandle(r.rows, accounts[k].handle))
  {
    SeedWithValid(t, accounts, now);
    SeedWithGrows(t, accounts, now);
    SeedWithCovers(t, accounts, now);
  }

  /** One step of `SeedWith` at position `i`. */
  lemma SeedWithStep(t: Table, accounts: seq<DefaultAccount>, i: nat, now: string)
    requires i < |accounts|
    ensures SeedWith(t, accounts[i..], now) ==
      SeedWith(Insert(t, accounts[i].handle, now, Some(accounts[i].category), Some(accounts[i].notes)), accounts[i + 1..], now)
  {
    assert accounts[i..][1..] == accounts[i + 1..];
  }

  /** When every account's handle is present, seeding changes nothing. */
  lemma {:induction false} SeedWithPresent(t: Table, accounts: seq<DefaultAccount>, now: string)
    requires forall k | 0 <= k < |accounts| :: HasHandle(t.rows, accounts[k].handle)
    ensures SeedWith(t, accounts, now) == t
    decreases |accounts|
  {
    if accounts != [] {
      assert HasHandle(t.rows, accounts[0].handle);
      assert forall k | 0 <= k < |accounts[1..]| :: accounts[1..][k] == accounts[k + 1];
      SeedWithPresent(t, accounts[1..], now);
    }
  }

  /**
   * Seeding keeps every existing row as it was (an inactive default stays
   * inactive), leaves every default handle present, and is idempotent: a
   * second seeding, at any time, changes nothing.
   */
  lemma SeedFacts(t: Table, now: string, later: string)
    requires ValidTable(t)
    ensures var r := Seed(t, now);
      ValidTable(r) && r.rows[..|t.rows|] == t.rows &&
      (forall k | 0 <= k < |DefaultAccounts| :: HasHandle(r.rows, DefaultAccounts[k].handle)) &&
      Seed(r, later) == r
  {
    SeedWithFacts(t, DefaultAccounts, now);
    SeedWithPresent(Seed(t, now), DefaultAccounts, later);
  }

  /** Seeding an empty table yields the five defaults, active, with ids 1 to 5. */
  lemma SeedEmpty(now: string)
    ensures var r := Seed(Table([], 1), now);
      r.nextId == 6 && |r.rows| == 5 &&
      forall k | 0 <= k < 5 ::
        r.rows[k] == Row(k + 1, DefaultAccounts[k].handle, now, 1,
                         Some(DefaultAccounts[k].category), Some(DefaultAccounts[k].notes))
  {
    var t0 := Table([], 1);
    var accs := DefaultAccounts;
    var t1 := Insert(t0, accs[0].handle, now, Some(accs[0].category), Some(accs[0].notes));
    var t2 := Insert(t1, accs[1].handle, now, Some(accs[1].category), Some(accs[1].notes));
    assert !HasHandle(t1.rows, accs[1].handle) by { assert t1.rows[0].handle == accs[0].handle; }
    var t3 := Insert(t2, accs[2].handle, now, Some(accs[2].category), Some(accs[2].notes));
    assert !HasHandle(t2.rows, accs[2].handle) by {
      assert t2.rows[0].handle == accs[0].handle && t2.rows[1].handle == accs[1].handle;
    }
    var t4 := Insert(t3, accs[3].handle, now, Some(accs[3].category), Some(accs[3].notes));
    assert !HasHandle(t3.rows, accs[3].handle) by {
      assert t3.rows[0].handle == accs[0].handle && t3.rows[1].handle == accs[1].handle
        && t3.rows[2].handle == accs[2].handle;
    }
    var t5 := Insert(t4, accs[4].handle, now, Some(accs[4].category), Some(accs[4].notes));
    assert !HasHandle(t4.rows, accs[4].handle) by {
      assert t4.rows[0].handle == accs[0].handle && t4.rows[1].handle == accs[1].handle
        && t4.rows[2].handle == accs[2].handle && t4.rows[3].handle == accs[3].handle;
    }
    assert accs[1..][1..][1..][1..][1..] == [];
    assert Seed(t0, now) == t5;
  }

  /**
   * The active handles are those of exactly the rows with `active = 1`, in
   * row (that is, id) order.
   */
  lemma {:induction false} ActiveHandlesFacts(rows: seq<Row>)
    ensures |ActiveHandles(rows)| <= |rows|
    ensures forall h :: h in ActiveHandles(rows) <==> exists i | 0 <= i < |rows| :: rows[i].handle == h && rows[i].active == 1
    decreases |rows|
  {
    if rows != [] {
      ActiveHandlesFacts(rows[1..]);
      forall h ensures h in ActiveHandles(rows) <==> exists i | 0 <= i < |rows| :: rows[i].handle == h && rows[i].active == 1 {
        if h in ActiveHandles(rows[1..]) {
          var i :| 0 <= i < |rows[1..]| && rows[1..][i].handle == h && rows[1..][i].active == 1;
          assert rows[i + 1] == rows[1..][i];
        }
        if exists i | 0 <= i < |rows| :: rows[i].handle == h && rows[i].active == 1 {
          var i :| 0 <= i < |rows| && rows[i].handle == h && rows[i].active == 1;
          if i > 0 {
            assert rows[1..][i - 1] == rows[i];
          }
        }
      }
    }
  }

  lemma ActiveHandlesStep(rows: seq<Row>, i: int)
    requires 0 <= i < |rows|
    ensures ActiveHandles(rows[i..]) == (if rows[i].active == 1 then [rows[i].handle] else []) + ActiveHandles(rows[i + 1..])
  {
    assert rows[i..][1..] == rows[i + 1..];
  }

  /** The `@` normalisation removes every leading `@`, so repeating it or adding more `@` changes nothing. */
  lemma NormaliseFacts(handle: string)
    ensures Normalise(Normalise(handle)) == Normalise(handle)
    ensures Normalise("@" + handle) == Normalise(handle)
    ensures Normalise(handle) == [] || Normalise(handle)[0] != '@'
  {
    var r := LStripChar(handle, '@');
    assert r == [] || r[0] != '@';
    assert LStripChar(r, '@') == r;
    var h := "@" + handle;
    assert h != [] && h[0] == '@' && h[1..] == handle;
    assert LStripChar(h, '@') == LStripChar(h[1..], '@');
  }

  // ---------------------------------------------------------------------------
  // The table, updated in place
  // ---------------------------------------------------------------------------

  class AccountsDb {
    var rows: seq<Row>
    var nextId: int

    function State(): Table
      reads this
    {
      Table(rows, nextId)
    }

    predicate Valid()
      reads this
    {
      ValidTable(State())
    }

    /** A freshly created, empty table. */
    constructor ()
      ensures State() == Table([], 1) && Valid()
    {
      rows := [];
      nextId := 1;
    }

    /** `init_db`: the defaults are inserted or ignored one by one, all stamped `now`. */
    method InitDb(now: string)
      requires Valid()
      modifies this
      ensures State() == Seed(old(State()), now) && Valid()
    {
      var i := 0;
      while i < |DefaultAccounts|
        invariant 0 <= i <= |DefaultAccounts|
        invariant Valid()
        invariant SeedWith(State(), DefaultAccounts[i..], now) == Seed(old(State()), now)
      {
        var account := DefaultAccounts[i];
        ghost var before := State();
        SeedWithStep(before, DefaultAccounts, i, now);
        InsertFacts(before, account.handle, now, Some(account.category), Some(account.notes));
        if !HasHandle(rows, account.handle) {
          rows := rows + [Row(nextId, account.handle, now, 1, Some(account.category), Some(account.notes))];
          nextId := nextId + 1;
        }
        assert State() == Insert(before, account.handle, now, Some(account.category), Some(account.notes));
        i := i + 1;
      }
    }

    /** `add_account`; `added` tells whether a row was inserted or the handle already existed. */
    method AddAccount(handle: string, addedAt: string, category: Option<string>, notes: Option<string>)
      returns (added: bool)
      requires Valid()
      modifies this
      ensures State() == Insert(old(State()), Normalise(handle), addedAt, category, notes) && Valid()
      ensures added <==> !HasHandle(old(rows), Normalise(handle))
    {
      var h := LStripChar(handle, '@');
      InsertFacts(State(), h, addedAt, category, notes);
      if HasHandle(rows, h) {
        // `sqlite3.IntegrityError`: the handle already exists
        return false;
      }
      rows := rows + [Row(nextId, h, addedAt, 1, category, notes)];
      nextId := nextId + 1;
      added := true;
    }

    /** `remove_account`; `removed` is whether the statement deleted a row. */
    method RemoveAccount(handle: string) returns (removed: bool)
      requires Valid()
      modifies this
      ensures State() == Delete(old(State()), Normalise(handle)) && Valid()
      ensures removed <==> HasHandle(old(rows), Normalise(handle))
    {
      var h := LStripChar(handle, '@');
      DeleteFacts(State(), h);
      removed := HasHandle(rows, h);
      rows := Without(rows, h);
    }

    /** `toggle_account`; the result is the row's new `active` flag, or None when no row has the handle. */
    method ToggleAccount(handle: string) returns (status: Option<int>)
      requires Valid()
      modifies this
      ensures State() == Toggle(old(State()), Normalise(handle)) && Valid()
      ensures status.Some? <==> HasHandle(old(rows), Normalise(handle))
      ensures status.Some? ==> status.value == 1 - ActiveOf(old(rows), Normalise(handle))
    {
      var h := LStripChar(handle, '@');
      ToggleFacts(State(), h);
      status := if HasHandle(rows, h) then Some(1 - ActiveOf(rows, h)) else None;
      rows := Toggle(State(), h).rows;
    }

    /** `get_active_handles`. */
    method GetActiveHandles() returns (handles: seq<string>)
      ensures handles == ActiveHandles(rows)
    {
      var rs := rows;
      handles := [];
      var i := 0;
      while i < |rs|
        invariant 0 <= i <= |rs|
        invariant handles + ActiveHandles(rs[i..]) == ActiveHandles(rs)
      {
        ActiveHandlesStep(rs, i);
        if rs[i].active == 1 {
          AppendAssoc(handles, [rs[i].handle], ActiveHandles(rs[i + 1..]));
          handles := handles + [rs[i].handle];
        }
        i := i + 1;
      }
      assert rs[i..] == [];
    }
  }

  /** The `active` flag of the first row with the handle (the only one, in a valid table). */
  function ActiveOf(rows: seq<Row>, handle: string): int
    decreases |rows|
  {
    if rows == [] then 0
    else if rows[0].handle == handle then rows[0].active
    else ActiveOf(rows[1..], handle)
  }
}
