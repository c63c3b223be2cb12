/** The appointment table of `src/database.py` without SQLite: a sequence of rows and
    the AUTOINCREMENT counter, with the four operations the assistant uses (insert, the
    filtered and ordered query, the exact existence check, and delete by id). */
module Database {
  import opened Wrappers
  import opened Text

  // ---------------------------------------------------------------------------
  // Rows and the table
  // ---------------------------------------------------------------------------

  /** A row of `appointments`; the `created_at` time stamp is not modelled. */
  datatype Appointment = Appointment(
    id: nat,
    name: string,
    email: string,
    date: string,
    time: string,
    purpose: string)

  /** The rows in insertion order and the next id AUTOINCREMENT hands out. */
  datatype Table = Table(rows: seq<Appointment>, nextId: nat)

  /** Ids that grow along the rows. */
  predicate IdsIncreasing(rows: seq<Appointment>) {
    forall i, j :: 0 <= i < j < |rows| ==> rows[i].id < rows[j].id
  }

  /** Ids grow along the rows and stay below the counter, which starts at 1. */
  predicate WellFormed(t: Table) {
    && 0 < t.nextId
    && IdsIncreasing(t.rows)
    && (forall i :: 0 <= i < |t.rows| ==> t.rows[i].id < t.nextId)
  }

  /** The freshly created table. */
  const EmptyTable: Table := Table([], 1)

  lemma EmptyTableWellFormed()
    ensures WellFormed(EmptyTable) && EmptyTable.rows == []
  {
  }

  // ---------------------------------------------------------------------------
  // INSERT
  // ---------------------------------------------------------------------------

  /** `INSERT INTO appointments (...) VALUES (...)`: one row appended under the next id. */
  function Insert(t: Table, name: string, email: string, date: string, time: string, purpose: string): (r: Table)
    ensures |r.rows| == |t.rows| + 1 && r.rows[..|t.rows|] == t.rows
    ensures r.rows[|t.rows|] == Appointment(r.rows[|t.rows|].id, name, email, date, time, purpose)
    ensures WellFormed(t) ==> WellFormed(r)
    ensures WellFormed(t) ==> forall a :: a in t.rows ==> a.id < r.rows[|t.rows|].id
  {
    Table(t.rows + [Appointment(t.nextId, name, email, date, time, purpose)], t.nextId + 1)
  }

  // ---------------------------------------------------------------------------
  // SELECT ... WHERE ... ORDER BY date, time
  // ---------------------------------------------------------------------------

  /** Python truthiness of an optional string argument: present and non-empty. */
  predicate Truthy(o: Option<string>) {
    o.Some? && o.value != []
  }

  /** One condition of the WHERE clause. */
  datatype Condition =
    | NameLike(pattern: string)    // LOWER(name) LIKE LOWER('%pattern%')
    | EmailLike(pattern: string)   // LOWER(email) LIKE LOWER('%pattern%')
    | DateIs(date: string)         // date = ?

  predicate Holds(a: Appointment, c: Condition) {
    match c
    case NameLike(p) => Contains(Lower(a.name), Lower(p))
    case EmailLike(p) => Contains(Lower(a.email), Lower(p))
    case DateIs(d) => a.date == d
  }

  predicate HoldsAll(a: Appointment, conds: seq<Condition>) {
    forall i :: 0 <= i < |conds| ==> Holds(a, conds[i])
  }

  /** The rows, in order, that satisfy every condition. */
  function Where(rows: seq<Appointment>, conds: seq<Condition>): (r: seq<Appointment>)
    ensures forall a :: a in r <==> a in rows && HoldsAll(a, conds)
  {
    if rows == [] then []
    else if HoldsAll(rows[0], conds) then [rows[0]] + Where(rows[1..], conds)
    else Where(rows[1..], conds)
  }

  /** What the three optional filters of `get_appointments` ask of a row: each truthy
      one must hold, name and email as case-insensitive substrings, date exactly. */
  predicate Matches(a: Appointment, name: Option<string>, email: Option<string>, date: Option<string>) {
    && (Truthy(name) ==> Contains(Lower(a.name), Lower(name.value)))
    && (Truthy(email) ==> Contains(Lower(a.email), Lower(email.value)))
    && (Truthy(date) ==> a.date == date.value)
  }

  /** The conditions `get_appointments` appends, in its order, for the truthy filters. */
  function Conditions(name: Option<string>, email: Option<string>, date: Option<string>): seq<Condition> {
    (if Truthy(name) then [NameLike(name.value)] else [])
    + (if Truthy(email) then [EmailLike(email.value)] else [])
    + (if Truthy(date) then [DateIs(date.value)] else [])
  }

  lemma HoldsAllConcat(a: Appointment, x: seq<Condition>, y: seq<Condition>)
    ensures HoldsAll(a, x + y) <==> HoldsAll(a, x) && HoldsAll(a, y)
  {
    if HoldsAll(a, x) && HoldsAll(a, y) {
      forall i | 0 <= i < |x + y| ensures Holds(a, (x + y)[i]) {
        if i >= |x| {
          assert (x + y)[i] == y[i - |x|];
        }
      }
    }
    if HoldsAll(a, x + y) {
      forall i | 0 <= i < |x| ensures Holds(a, x[i]) {
        assert (x + y)[i] == x[i];
      }
      forall i | 0 <= i < |y| ensures Holds(a, y[i]) {
        assert (x + y)[|x| + i] == y[i];
      }
    }
  }

  lemma HoldsOne(a: Appointment, c: Condition)
    ensures HoldsAll(a, [c]) <==> Holds(a, c)
    ensures HoldsAll(a, [])
  {
    assert [c][0] == c;
  }

  /** The WHERE clause means exactly the filters' conjunction; with no truthy filter it
      is absent and every row qualifies. */
  lemma ConditionsMean(a: Appointment, name: Option<string>, email: Option<string>, date: Option<string>)
    ensures HoldsAll(a, Conditions(name, email, date)) <==> Matches(a, name, email, date)
    ensures !Truthy(name) && !Truthy(email) && !Truthy(date) ==> Conditions(name, email, date) == []
  {
    var n := if Truthy(name) then [NameLike(name.value)] else [];
    var e := if Truthy(email) then [EmailLike(email.value)] else [];
    var d := if Truthy(date) then [DateIs(date.value)] else [];
    HoldsAllConcat(a, n, e);
    HoldsAllConcat(a, n + e, d);
    HoldsOne(a, NameLike(name.GetOr([])));
    HoldsOne(a, EmailLike(email.GetOr([])));
    HoldsOne(a, DateIs(date.GetOr([])));
    assert HoldsAll(a, n) <==> (Truthy(name) ==> Contains(Lower(a.name), Lower(name.value)));
    assert HoldsAll(a, e) <==> (Truthy(email) ==> Contains(Lower(a.email), Lower(email.value)));
    assert HoldsAll(a, d) <==> (Truthy(date) ==> a.date == date.value);
  }

  /** SQLite's BINARY collation on text: code point by code point, a proper prefix
      first. */
  predicate TextLess(a: string, b: string) {
    b != [] && (a == [] || a[0] < b[0] || (a[0] == b[0] && TextLess(a[1..], b[1..])))
  }

  lemma {:induction false} TextLessIrreflexive(a: string)
    ensures !TextLess(a, a)
  {
    if a != [] {
      TextLessIrreflexive(a[1..]);
    }
  }

  lemma {:induction false} TextLessTransitive(a: string, b: string, c: string)
    requires TextLess(a, b) && TextLess(b, c)
    ensures TextLess(a, c)
  {
    if a != [] && a[0] == b[0] && b[0] == c[0] {
      TextLessTransitive(a[1..], b[1..], c[1..]);
    }
  }

  lemma {:induction false} TextLessTotal(a: string, b: string)
    ensures a == b || TextLess(a, b) || TextLess(b, a)
  {
    if a != [] && b != [] && a[0] == b[0] {
      TextLessTotal(a[1..], b[1..]);
      if a[1..] == b[1..] {
        assert a == [a[0]] + a[1..] && b == [b[0]] + b[1..];
      }
    }
  }

  /** `ORDER BY date, time`: `a` comes strictly before `b`. */
  predicate Before(a: Appointment, b: Appointment) {
    TextLess(a.date, b.date) || (a.date == b.date && TextLess(a.time, b.time))
  }

  /** Neither comes after the other; ties keep no particular order. */
  lemma BeforeAsymmetric(a: Appointment, b: Appointment)
    ensures Before(a, b) ==> !Before(b, a)
  {
    if Before(a, b) && Before(b, a) {
      if TextLess(a.date, b.date) && TextLess(b.date, a.date) {
        TextLessTransitive(a.date, b.date, a.date);
        TextLessIrreflexive(a.date);
      } else if a.date == b.date {
        TextLessIrreflexive(a.date);
        TextLessTransitive(a.time, b.time, a.time);
        TextLessIrreflexive(a.time);
      } else {
        TextLessIrreflexive(a.date);
      }
    }
  }

  /** "Not after" is transitive. */
  lemma NotBeforeTransitive(a: Appointment, b: Appointment, c: Appointment)
    requires !Before(b, a) && !Before(c, b)
    ensures !Before(c, a)
  {
    TextLessTotal(a.date, b.date);
    TextLessTotal(b.date, c.date);
    TextLessTotal(a.time, b.time);
    TextLessTotal(b.time, c.time);
    if Before(c, a) {
      if TextLess(c.date, a.date) {
        if TextLess(a.date, b.date) {
          TextLessTransitive(c.date, a.date, b.date);
          if TextLess(b.date, c.date) {
            TextLessTransitive(c.date, b.date, c.date);
            TextLessIrreflexive(c.date);
          }
        }
      } else {
        if TextLess(a.date, b.date) {
          if TextLess(b.date, c.date) {
            TextLessTransitive(a.date, b.date, c.date);
            TextLessIrreflexive(a.date);
          }
        } else {
          if a.time != b.time && TextLess(a.time, b.time) && TextLess(c.time, a.time) {
            TextLessTransitive(c.time, a.time, b.time);
          }
          if TextLess(b.time, c.time) && TextLess(c.time, a.time) {
            TextLessTransitive(b.time, c.time, a.time);
          }
        }
      }
    }
  }

  /** Nothing later comes before something earlier. */
  predicate Ordered(s: seq<Appointment>) {
    forall i, j :: 0 <= i < j < |s| ==> !Before(s[j], s[i])
  }

  /** Places `x` ahead of the first row of an ordered sequence that does not come
      before it. */
  function Place(x: Appointment, s: seq<Appointment>): (r: seq<Appointment>)
    ensures multiset(r) == multiset(s) + multiset{x}
  {
    if s == [] || !Before(s[0], x) then [x] + s
    else (assert s == [s[0]] + s[1..]; [s[0]] + Place(x, s[1..]))
  }

  lemma {:induction false} PlaceOrdered(x: Appointment, s: seq<Appointment>)
    requires Ordered(s)
    ensures Ordered(Place(x, s))
  {
    if s == [] || !Before(s[0], x) {
      forall k | 0 <= k < |s| ensures !Before(s[k], x) {
        if k > 0 {
          NotBeforeTransitive(x, s[0], s[k]);
        }
      }
    } else {
      var rest := Place(x, s[1..]);
      PlaceOrdered(x, s[1..]);
      BeforeAsymmetric(s[0], x);
      forall k | 0 <= k < |rest| ensures !Before(rest[k], s[0]) {
        assert rest[k] in multiset(rest);
        assert rest[k] == x || rest[k] in s[1..];
      }
    }
  }

  /** The query's ordering, by insertion. */
  function OrderByDateTime(s: seq<Appointment>): (r: seq<Appointment>)
    ensures multiset(r) == multiset(s)
  {
    if s == [] then []
    else (assert s == [s[0]] + s[1..]; Place(s[0], OrderByDateTime(s[1..])))
  }

  /** The ordering yields the same rows, date and time never decreasing. */
  lemma {:induction false} OrderByDateTimeOrdered(s: seq<Appointment>)
    ensures Ordered(OrderByDateTime(s)) && multiset(OrderByDateTime(s)) == multiset(s)
  {
    if s != [] {
      OrderByDateTimeOrdered(s[1..]);
      PlaceOrdered(s[0], OrderByDateTime(s[1..]));
    }
  }

  /** `get_appointments(name, email, date)` as the database answers it. */
  function Select(t: Table, name: Option<string>, email: Option<string>, date: Option<string>): seq<Appointment> {
    OrderByDateTime(Where(t.rows, Conditions(name, email, date)))
  }

  /** The query returns exactly the rows the truthy filters accept, each once per
      occurrence, ordered by date and then time as text. */
  lemma SelectMeaning(t: Table, name: Option<string>, email: Option<string>, date: Option<string>)
    ensures forall a :: a in Select(t, name, email, date) <==> a in t.rows && Matches(a, name, email, date)
    ensures Ordered(Select(t, name, email, date))
  {
    var w := Where(t.rows, Conditions(name, email, date));
    OrderByDateTimeOrdered(w);
    forall a ensures a in w <==> a in t.rows && Matches(a, name, email, date) {
      ConditionsMean(a, name, email, date);
    }
    assert forall a :: a in OrderByDateTime(w) <==> a in multiset(w);
  }

  /** With no truthy filter every row comes back. */
  lemma SelectAll(t: Table, name: Option<string>, email: Option<string>, date: Option<string>)
    requires !Truthy(name) && !Truthy(email) && !Truthy(date)
    ensures multiset(Select(t, name, email, date)) == multiset(t.rows)
  {
    assert Conditions(name, email, date) == [];
    WhereNothing(t.rows);
  }

  lemma {:induction false} WhereNothing(rows: seq<Appointment>)
    ensures Where(rows, []) == rows
  {
    if rows != [] {
      WhereNothing(rows[1..]);
      assert rows == [rows[0]] + rows[1..];
    }
  }

  /** Times compare as text: on the same day `"10:00 AM"` is listed before
      `"9:00 AM"`. */
  lemma TimeOrderIsTextual(date: string)
    ensures var ten := Appointment(1, "A", "a@b.co", date, "10:00 AM", "");
      var nine := Appointment(2, "B", "b@b.co", date, "9:00 AM", "");
      Before(ten, nine) && OrderByDateTime([nine, ten]) == [ten, nine]
  {
    var ten := Appointment(1, "A", "a@b.co", date, "10:00 AM", "");
    var nine := Appointment(2, "B", "b@b.co", date, "9:00 AM", "");
    assert TextLess(ten.time, nine.time);
    BeforeAsymmetric(ten, nine);
    assert OrderByDateTime([ten]) == [ten];
    assert [nine, ten][1..] == [ten];
  }

  // ---------------------------------------------------------------------------
  // Existence check and DELETE
  // ---------------------------------------------------------------------------

  /** `SELECT * ... WHERE name = ? AND email = ? AND date = ? AND time = ?` found a row. */
  predicate Exists(t: Table, name: string, email: string, date: string, time: string) {
    exists a :: a in t.rows && a.name == name && a.email == email && a.date == date && a.time == time
  }

  /** After an insert the exact four fields are found. */
  lemma InsertThenExists(t: Table, name: string, email: string, date: string, time: string, purpose: string)
    ensures Exists(Insert(t, name, email, date, time, purpose), name, email, date, time)
  {
    var r := Insert(t, name, email, date, time, purpose);
    assert r.rows[|t.rows|] in r.rows;
  }

  /** An insert leaves every other four-field combination as found or not found as
      before. */
  lemma InsertKeepsOthers(t: Table, name: string, email: string, date: string, time: string, purpose: string,
                          n: string, e: string, d: string, ti: string)
    requires (n, e, d, ti) != (name, email, date, time)
    ensures Exists(Insert(t, name, email, date, time, purpose), n, e, d, ti) == Exists(t, n, e, d, ti)
  {
    var r := Insert(t, name, email, date, time, purpose);
    assert r.rows == t.rows + [r.rows[|t.rows|]];
  }

  /** The rows whose id differs from `id`, in order. */
  function Without(rows: seq<Appointment>, id: nat): (r: seq<Appointment>)
    ensures forall a :: a in r <==> a in rows && a.id != id
    ensures |r| <= |rows|
  {
    if rows == [] then []
    else if rows[0].id == id then Without(rows[1..], id)
    else [rows[0]] + Without(rows[1..], id)
  }

  /** `DELETE FROM appointments WHERE id = ?` and whether it changed anything. */
  function Delete(t: Table, id: nat): (Table, bool) {
    (Table(Without(t.rows, id), t.nextId), exists a :: a in t.rows && a.id == id)
  }

  /** The first row's id is below every later one. */
  lemma HeadSmallest(rows: seq<Appointment>)
    requires IdsIncreasing(rows) && rows != []
    ensures IdsIncreasing(rows[1..])
    ensures forall b :: b in rows[1..] ==> rows[0].id < b.id
  {
    forall b | b in rows[1..] ensures rows[0].id < b.id {
      var k :| 0 <= k < |rows[1..]| && rows[1..][k] == b;
      assert rows[k + 1] == b;
    }
  }

  /** A row below every id of an increasing sequence can go in front of it. */
  lemma PrependIncreasing(x: Appointment, w: seq<Appointment>)
    requires IdsIncreasing(w) && forall b :: b in w ==> x.id < b.id
    ensures IdsIncreasing([x] + w)
  {
    forall i, j | 0 <= i < j < |[x] + w| ensures ([x] + w)[i].id < ([x] + w)[j].id {
      if i == 0 {
        assert w[j - 1] in w;
      } else {
        assert ([x] + w)[i] == w[i - 1] && ([x] + w)[j] == w[j - 1];
      }
    }
  }

  /** Deleting keeps the ids growing. */
  lemma {:induction false} WithoutIncreasing(rows: seq<Appointment>, id: nat)
    requires IdsIncreasing(rows)
    ensures IdsIncreasing(Without(rows, id))
  {
    if rows != [] {
      HeadSmallest(rows);
      WithoutIncreasing(rows[1..], id);
      if rows[0].id != id {
        PrependIncreasing(rows[0], Without(rows[1..], id));
      }
    }
  }

  /** With ids unique, a delete that hits removes exactly one row. */
  lemma {:induction false} WithoutHit(rows: seq<Appointment>, id: nat)
    requires IdsIncreasing(rows) && exists a :: a in rows && a.id == id
    ensures |Without(rows, id)| == |rows| - 1
  {
    HeadSmallest(rows);
    if rows[0].id == id {
      WithoutAbsent(rows[1..], id);
    } else {
      var a :| a in rows && a.id == id;
      assert a in rows[1..];
      WithoutHit(rows[1..], id);
    }
  }

  /** Delete removes exactly the rows with that id, keeps the counter, reports whether
      it removed anything, and on a well-formed table removes at most one row. */
  lemma DeleteMeaning(t: Table, id: nat)
    ensures var (r, removed) := Delete(t, id);
      && (forall a :: a in r.rows <==> a in t.rows && a.id != id)
      && r.nextId == t.nextId
      && (removed <==> exists a :: a in t.rows && a.id == id)
      && (WellFormed(t) ==> WellFormed(r))
      && (WellFormed(t) && removed ==> |r.rows| == |t.rows| - 1)
      && (!removed ==> r.rows == t.rows)
  {
    var (r, removed) := Delete(t, id);
    if WellFormed(t) {
      WithoutIncreasing(t.rows, id);
      if removed {
        WithoutHit(t.rows, id);
      }
      forall i | 0 <= i < |r.rows| ensures r.rows[i].id < r.nextId {
        assert r.rows[i] in t.rows;
      }
    }
    if !removed {
      WithoutAbsent(t.rows, id);
    }
  }

  lemma {:induction false} WithoutAbsent(rows: seq<Appointment>, id: nat)
    requires forall a :: a in rows ==> a.id != id
    ensures Without(rows, id) == rows
  {
    if rows != [] {
      WithoutAbsent(rows[1..], id);
      assert rows == [rows[0]] + rows[1..];
    }
  }

  // ---------------------------------------------------------------------------
  // The table object
  // ---------------------------------------------------------------------------

  /** The `appointments` table as a mutable object. */
  class AppointmentStore {
    var rows: seq<Appointment>
    var nextId: nat

    function Model(): Table
      reads this
    {
      Table(rows, nextId)
    }

    ghost predicate Valid()
      reads this
    {
      WellFormed(Model())
    }

    /** An empty table, as `init_db` creates it. */
    constructor ()
      ensures Valid() && Model() == EmptyTable
    {
      rows := [];
      nextId := 1;
    }

    /** `add_appointment`. */
    method AddAppointment(name: string, email: string, date: string, time: string, purpose: string)
      requires Valid()
      modifies this
      ensures Valid()
      ensures Model() == Insert(old(Model()), name, email, date, time, purpose)
    {
      rows := rows + [Appointment(nextId, name, email, date, time, purpose)];
      nextId := nextId + 1;
    }

    /** `get_appointments`: the truthy filters become WHERE conditions, in the source's
        order, and the matching rows come back ordered by date and time. */
    method GetAppointments(name: Option<string>, email: Option<string>, date: Option<string>)
      returns (result: seq<Appointment>)
      ensures result == Select(Model(), name, email, date)
      ensures forall a :: a in result <==> a in rows && Matches(a, name, email, date)
      ensures Ordered(result)
    {
      var conditions: seq<Condition> := [];
      if Truthy(name) {
        conditions := conditions + [NameLike(name.value)];
      }
      if Truthy(email) {
        conditions := conditions + [EmailLike(email.value)];
      }
      if Truthy(date) {
        conditions := conditions + [DateIs(date.value)];
      }
      assert conditions == Conditions(name, email, date);
      result := OrderByDateTime(Where(rows, conditions));
      SelectMeaning(Model(), name, email, date);
    }

    /** `check_appointment_exists`. */
    method CheckAppointmentExists(name: string, email: string, date: string, time: string)
      returns (found: bool)
      ensures found == Exists(Model(), name, email, date, time)
    {
      found := exists a :: a in rows && a.name == name && a.email == email && a.date == date && a.time == time;
    }

    /** `delete_appointment`: whether any row went. */
    method DeleteAppointment(id: nat) returns (removed: bool)
      requires Valid()
      modifies this
      ensures Valid()
      ensures (Model(), removed) == Delete(old(Model()), id)
    {
      DeleteMeaning(Model(), id);
      removed := exists a :: a in rows && a.id == id;
      rows := Without(rows, id);
    }
  }
}
