/** The `entries` table of db.go and the operations on it, over an
    in-memory table.  The table is a sequence of rows in insertion order plus
    the AUTOINCREMENT counter.  Each operation is first given as a function
    from the old table to its outcome (the transition functions below), and
    the class `Database` at the end performs the operations in place and is
    proved to agree with those functions.

    The clock and the SQL connection are not modelled: the time an operation
    stamps is a parameter `now`, and whether the connection fails is a
    parameter `fault` that says which kind of SQL statement fails during the
    call (a query, or a statement that writes). */
module Store {
  import opened Wrappers
  import Helpers

  type Timestamp = int

  datatype Entry = Entry(
    id: int,
    userId: string,
    startTime: Timestamp,
    endTime: Option<Timestamp>,
    note: string,
    active: bool,
    importedAt: Option<Timestamp>)

  /** The Go zero value Entry{} that the store returns along with an error. */
  const ZeroEntry := Entry(0, "", 0, None, "", false, None)

  /** A credential row of the token table, keyed by the hash of its secret. */
  datatype ApiToken = ApiToken(id: int, hash: string, isActive: bool, lastUsedAt: Option<Timestamp>)

  /** Which kind of SQL statement the connection fails on during one call:
      none, a query (Query/QueryRow), or a statement that writes (Exec). */
  datatype Fault = NoFault | QueryFault | ExecFault

  datatype StoreError =
    | AlreadyTracking
    | NoActiveEntry
    | StorageFailure(context: string)

  /** The text of the error value, as the bot relays it to the user.  For a
      storage failure it is the context the store puts in front of the
      driver's own error text. */
  function ErrorText(e: StoreError): string {
    match e
    case AlreadyTracking => "User already have started tracking."
    case NoActiveEntry => "There is no active entry currently."
    case StorageFailure(context) => context
  }

  datatype Table = Table(entries: seq<Entry>, nextId: int)

  /** A freshly created table: no rows, and AUTOINCREMENT starts at 1. */
  const EmptyTable := Table([], 1)

  // ---------------------------------------------------------------------
  // Invariants of the table
  // ---------------------------------------------------------------------

  /** Rows are kept in insertion order, so AUTOINCREMENT ids increase; in
      particular no two rows share an id. */
  predicate IdsIncreasing(es: seq<Entry>) {
    forall i, j :: 0 <= i < j < |es| ==> es[i].id < es[j].id
  }

  predicate IdsBelow(es: seq<Entry>, bound: int) {
    forall i :: 0 <= i < |es| ==> 1 <= es[i].id < bound
  }

  /** An entry is active exactly while it has no end time. */
  predicate ActiveMeansOpen(es: seq<Entry>) {
    forall i :: 0 <= i < |es| ==> (es[i].active <==> es[i].endTime.None?)
  }

  /** At most one active entry per user. */
  predicate AtMostOneActive(es: seq<Entry>) {
    forall i, j :: 0 <= i < j < |es| && es[i].active && es[j].active ==> es[i].userId != es[j].userId
  }

  predicate WellFormed(t: Table) {
    && 1 <= t.nextId <= Helpers.MaxInt64 + 1
    && IdsIncreasing(t.entries)
    && IdsBelow(t.entries, t.nextId)
    && ActiveMeansOpen(t.entries)
    && AtMostOneActive(t.entries)
  }

  lemma EmptyTableWellFormed()
    ensures WellFormed(EmptyTable)
  {
  }

  // ---------------------------------------------------------------------
  // Queries
  // ---------------------------------------------------------------------

  predicate IsActiveFor(e: Entry, userId: string) {
    e.userId == userId && e.active
  }

  /** hasActiveEntrySQL: some row of the user is active. */
  predicate HasActive(es: seq<Entry>, userId: string) {
    exists i :: 0 <= i < |es| && IsActiveFor(es[i], userId)
  }

  /** getActiveEntrySQL with LIMIT 1: the first active row of the user. */
  function FindActive(es: seq<Entry>, userId: string): (r: Option<nat>)
    ensures r.None? <==> !HasActive(es, userId)
    ensures r.Some? ==> r.value < |es| && IsActiveFor(es[r.value], userId)
    ensures r.Some? ==> forall i :: 0 <= i < r.value ==> !IsActiveFor(es[i], userId)
  {
    if es == [] then None
    else if IsActiveFor(es[0], userId) then Some(0)
    else
      match FindActive(es[1..], userId)
      case None =>
        assert forall i :: 1 <= i < |es| ==> es[i] == es[1..][i - 1];
        None
      case Some(k) => Some(k + 1)
  }

  /** Under the invariant the user's active row is the only one. */
  lemma ActiveRowUnique(t: Table, userId: string, i: nat)
    requires WellFormed(t)
    requires i < |t.entries| && IsActiveFor(t.entries[i], userId)
    ensures FindActive(t.entries, userId) == Some(i)
  {
  }

  /** The columns getActiveEntrySQL selects: not the note and not the import
      time, which therefore keep their zero values in the snapshot. */
  function ActiveColumns(e: Entry): Entry {
    Entry(e.id, e.userId, e.startTime, e.endTime, "", e.active, None)
  }

  /** getUnimportedEntriesSQL: the rows whose imported_at is unset.  The
      query has no ORDER BY; the model returns them in table order. */
  function Unimported(es: seq<Entry>): (r: seq<Entry>)
    ensures |r| <= |es|
  {
    if es == [] then []
    else
      var last := es[|es| - 1];
      Unimported(es[..|es| - 1]) + (if last.importedAt.None? then [last] else [])
  }

  /** The result holds exactly the unimported rows. */
  lemma {:induction false} UnimportedMembers(es: seq<Entry>)
    ensures forall e :: e in Unimported(es) <==> e in es && e.importedAt.None?
  {
    if es != [] {
      var n := |es| - 1;
      UnimportedMembers(es[..n]);
      assert es == es[..n] + [es[n]];
    }
  }

  /** There is nothing to import exactly when every row has been imported. */
  lemma {:induction false} UnimportedEmpty(es: seq<Entry>)
    ensures Unimported(es) == [] <==> forall i :: 0 <= i < |es| ==> es[i].importedAt.Some?
  {
    if es != [] {
      var n := |es| - 1;
      UnimportedEmpty(es[..n]);
      assert forall i :: 0 <= i < n ==> es[..n][i] == es[i];
    }
  }

  /** Every id occurs at most once among the unimported rows. */
  lemma {:induction false} UnimportedIdsIncreasing(es: seq<Entry>)
    requires IdsIncreasing(es)
    ensures IdsIncreasing(Unimported(es))
  {
    if es != [] {
      var n := |es| - 1;
      UnimportedIdsIncreasing(es[..n]);
      UnimportedMembers(es[..n]);
      var prefix := Unimported(es[..n]);
      forall i | 0 <= i < |prefix| ensures prefix[i].id < es[n].id {
        assert prefix[i] in es[..n];
      }
    }
  }

  /** checkEntrySQL: a COUNT(*) aggregate over the rows with the id, and a
      CASE over the bare imported_at column.  With no such row the bare column
      reads as NULL, so the second result is then true as well. */
  datatype CheckOutcome = CheckOutcome(present: bool, isUnimported: bool, err: Option<StoreError>)

  predicate IdExists(es: seq<Entry>, id: int) {
    exists i :: 0 <= i < |es| && es[i].id == id
  }

  predicate NoImportedRowWithId(es: seq<Entry>, id: int) {
    forall i :: 0 <= i < |es| && es[i].id == id ==> es[i].importedAt.None?
  }

  function CheckEntryResult(t: Table, id: int, fault: Fault): CheckOutcome {
    if fault == QueryFault then
      CheckOutcome(false, false, Some(StorageFailure("Error checking entry " + Helpers.FormatInt(id))))
    else
      CheckOutcome(IdExists(t.entries, id), NoImportedRowWithId(t.entries, id), None)
  }

  /** A successful probe of an existing id says whether that very row is
      still unimported (the second result means "is unimported", whatever
      its Go name says). */
  lemma CheckEntryMeaning(t: Table, id: int, fault: Fault, i: nat)
    requires WellFormed(t) && fault != QueryFault
    requires i < |t.entries| && t.entries[i].id == id
    ensures CheckEntryResult(t, id, fault).present
    ensures CheckEntryResult(t, id, fault).isUnimported <==> t.entries[i].importedAt.None?
  {
  }

  // ---------------------------------------------------------------------
  // Transitions
  // ---------------------------------------------------------------------

  /** createEntrySQL: an active row with the given user and note, started
      now, with no end time and no import time. */
  function NewEntry(id: int, userId: string, note: string, now: Timestamp): Entry {
    Entry(id, userId, now, None, note, true, None)
  }

  datatype StartOutcome = StartOutcome(err: Option<StoreError>, table: Table)

  /** StartTracking: check for an active entry, then insert.  AUTOINCREMENT
      cannot go past the largest 64-bit id; the insert then fails. */
  function StartTransition(t: Table, userId: string, note: string, now: Timestamp, fault: Fault): StartOutcome {
    if fault == QueryFault then
      StartOutcome(Some(StorageFailure("Failed to check active entry")), t)
    else if HasActive(t.entries, userId) then
      StartOutcome(Some(AlreadyTracking), t)
    else if fault == ExecFault || t.nextId > Helpers.MaxInt64 then
      StartOutcome(Some(StorageFailure("failed to create entry")), t)
    else
      StartOutcome(None, Table(t.entries + [NewEntry(t.nextId, userId, note, now)], t.nextId + 1))
  }

  /** A start for a user who already tracks is refused with the
      "already started" error; every refused start leaves the table as it
      was; a start succeeds exactly when the user is idle and the store
      works. */
  lemma StartErrors(t: Table, userId: string, note: string, now: Timestamp, fault: Fault)
    requires WellFormed(t)
    ensures var r := StartTransition(t, userId, note, now, fault);
      && (r.err == Some(AlreadyTracking) <==> fault != QueryFault && HasActive(t.entries, userId))
      && (r.err.Some? ==> r.table == t)
      && (r.err.None? <==> fault == NoFault && !HasActive(t.entries, userId) && t.nextId <= Helpers.MaxInt64)
  {
  }

  /** A successful start appends exactly one row, leaves every earlier row
      as it was, and gives the new row an id larger than all earlier ones. */
  lemma StartAppendsFreshRow(t: Table, userId: string, note: string, now: Timestamp, fault: Fault)
    requires WellFormed(t)
    requires StartTransition(t, userId, note, now, fault).err.None?
    ensures var t' := StartTransition(t, userId, note, now, fault).table;
      && |t'.entries| == |t.entries| + 1
      && t'.entries[..|t.entries|] == t.entries
      && var e := t'.entries[|t.entries|];
      && e.userId == userId && e.note == note && e.startTime == now
      && e.active && e.endTime.None? && e.importedAt.None?
      && (forall i :: 0 <= i < |t.entries| ==> t.entries[i].id < e.id)
      && t'.nextId > e.id
  {
    var t' := StartTransition(t, userId, note, now, fault).table;
    assert t'.entries[..|t.entries|] == t.entries;
  }

  lemma StartPreservesWellFormed(t: Table, userId: string, note: string, now: Timestamp, fault: Fault)
    requires WellFormed(t)
    ensures WellFormed(StartTransition(t, userId, note, now, fault).table)
  {
    var r := StartTransition(t, userId, note, now, fault);
    if r.err.None? {
      var es := r.table.entries;
      var n := |t.entries|;
      forall i, j | 0 <= i < j < |es| && es[i].active && es[j].active
        ensures es[i].userId != es[j].userId
      {
        if j == n {
          assert IsActiveFor(t.entries[i], es[i].userId);
        }
      }
    }
  }

  /** Stamping the end of an entry: end_time now, active cleared. */
  function Ended(e: Entry, now: Timestamp): Entry {
    e.(endTime := Some(now), active := false)
  }

  datatype StopOutcome = StopOutcome(err: Option<StoreError>, snapshot: Entry, table: Table)

  /** StopTracking: find the user's active entry, then end it. */
  function StopTransition(t: Table, userId: string, now: Timestamp, fault: Fault): StopOutcome {
    if fault == QueryFault then
      StopOutcome(Some(StorageFailure("Failed to get active entry")), ZeroEntry, t)
    else
      match FindActive(t.entries, userId)
      case None => StopOutcome(Some(NoActiveEntry), ZeroEntry, t)
      case Some(k) =>
        if fault == ExecFault then
          StopOutcome(Some(StorageFailure("Failed to end entry")), ZeroEntry, t)
        else
          StopOutcome(None, Ended(ActiveColumns(t.entries[k]), now),
                      Table(t.entries[k := Ended(t.entries[k], now)], t.nextId))
  }

  /** A stop for an idle user reports "no active entry"; every refused
      stop leaves the table as it was. */
  lemma StopErrors(t: Table, userId: string, now: Timestamp, fault: Fault)
    ensures var r := StopTransition(t, userId, now, fault);
      && (r.err == Some(NoActiveEntry) <==> fault != QueryFault && !HasActive(t.entries, userId))
      && (r.err.Some? ==> r.table == t && r.snapshot == ZeroEntry)
      && (r.err.None? <==> fault == NoFault && HasActive(t.entries, userId))
  {
  }

  /** A successful stop changes only the user's active row: it gets an end
      time and is no longer active, and its start time, user, note and import
      time stay.  The snapshot returned is inactive with that end time, and
      carries the row's id, user and start time but an empty note. */
  lemma StopEndsActiveRow(t: Table, userId: string, now: Timestamp, fault: Fault)
    requires WellFormed(t)
    requires StopTransition(t, userId, now, fault).err.None?
    ensures var r := StopTransition(t, userId, now, fault);
      exists k :: 0 <= k < |t.entries| && IsActiveFor(t.entries[k], userId)
        && |r.table.entries| == |t.entries| && r.table.nextId == t.nextId
        && (forall i :: 0 <= i < |t.entries| && i != k ==> r.table.entries[i] == t.entries[i])
        && var before, after := t.entries[k], r.table.entries[k];
        && after.endTime == Some(now) && !after.active
        && after.id == before.id && after.userId == before.userId && after.startTime == before.startTime
        && after.note == before.note && after.importedAt == before.importedAt
        && r.snapshot == Entry(before.id, userId, before.startTime, Some(now), "", false, None)
  {
    var k := FindActive(t.entries, userId).value;
    assert IsActiveFor(t.entries[k], userId);
  }

  lemma StopPreservesWellFormed(t: Table, userId: string, now: Timestamp, fault: Fault)
    requires WellFormed(t)
    ensures WellFormed(StopTransition(t, userId, now, fault).table)
  {
  }

  /** updateEntryImportStatusSQL on one row: the row with the id gets the
      import time, whether or not it already had one. */
  function Stamped(e: Entry, id: int, now: Timestamp): Entry {
    if e.id == id then e.(importedAt := Some(now)) else e
  }

  /** updateEntryImportStatusSQL on the table: every row with the id gets
      the import time and nothing else changes. */
  function StampRows(es: seq<Entry>, id: int, now: Timestamp): (r: seq<Entry>)
    ensures |r| == |es|
    ensures forall i :: 0 <= i < |es| ==> r[i] == Stamped(es[i], id, now)
  {
    if es == [] then []
    else StampRows(es[..|es| - 1], id, now) + [Stamped(es[|es| - 1], id, now)]
  }

  datatype ImportOutcome = ImportOutcome(err: Option<StoreError>, table: Table)

  /** UpdateEntryImportStatus: an unknown id matches no row, which is not
      an error. */
  function ImportTransition(t: Table, id: int, now: Timestamp, fault: Fault): ImportOutcome {
    if fault == ExecFault then
      ImportOutcome(Some(StorageFailure("Error updating import status for entry " + Helpers.FormatInt(id))), t)
    else
      ImportOutcome(None, Table(StampRows(t.entries, id, now), t.nextId))
  }

  /** Marking an id touches only the row with that id; for an unknown id the
      table stays as it was and there is no error. */
  lemma ImportTouchesOnlyItsRow(t: Table, id: int, now: Timestamp, fault: Fault)
    ensures var r := ImportTransition(t, id, now, fault);
      && (r.err.None? <==> fault != ExecFault)
      && |r.table.entries| == |t.entries| && r.table.nextId == t.nextId
      && (forall i :: 0 <= i < |t.entries| && t.entries[i].id != id ==> r.table.entries[i] == t.entries[i])
      && (r.err.None? ==> forall i :: 0 <= i < |t.entries| && t.entries[i].id == id ==>
            r.table.entries[i] == t.entries[i].(importedAt := Some(now)))
      && (!IdExists(t.entries, id) ==> r.table == t)
  {
    var r := ImportTransition(t, id, now, fault);
    if !IdExists(t.entries, id) && r.err.None? {
      assert r.table.entries == t.entries;
    }
  }

  /** Once an id has been marked, probing it reports it as imported. */
  lemma ImportThenCheck(t: Table, id: int, now: Timestamp, fault: Fault)
    requires IdExists(t.entries, id) && fault != ExecFault && fault != QueryFault
    ensures var t' := ImportTransition(t, id, now, fault).table;
      CheckEntryResult(t', id, fault) == CheckOutcome(true, false, None)
  {
    var t' := ImportTransition(t, id, now, fault).table;
    var i :| 0 <= i < |t.entries| && t.entries[i].id == id;
    assert t'.entries[i].id == id;
  }

  lemma ImportPreservesWellFormed(t: Table, id: int, now: Timestamp, fault: Fault)
    requires WellFormed(t)
    ensures WellFormed(ImportTransition(t, id, now, fault).table)
  {
  }

  /** Marking an id that exists and is unimported lowers the number of
      unimported rows by one; any other mark leaves that number alone. */
  lemma {:induction false} StampRowsCount(es: seq<Entry>, id: int, now: Timestamp)
    requires IdsIncreasing(es)
    ensures |Unimported(StampRows(es, id, now))| ==
      |Unimported(es)| - (if IdExists(es, id) && NoImportedRowWithId(es, id) then 1 else 0)
  {
    if es != [] {
      var n := |es| - 1;
      var init := es[..n];
      StampRowsCount(init, id, now);
      var r := StampRows(es, id, now);
      assert r[..n] == StampRows(init, id, now);
      assert r == r[..n] + [r[n]];
      if es[n].id == id {
        assert !IdExists(init, id);
        assert IdExists(es, id);
      } else {
        assert IdExists(es, id) <==> IdExists(init, id);
        assert NoImportedRowWithId(es, id) <==> NoImportedRowWithId(init, id);
      }
    }
  }

  // ---------------------------------------------------------------------
  // The lifecycle of a row across operations
  // ---------------------------------------------------------------------

  /** How a table may evolve: rows are only ever added at the end; a row's
      id, user, start time and note never change; a row that has ended stays
      ended with the same end time; an import time once set stays set. */
  predicate Evolves(t: Table, t': Table) {
    && |t.entries| <= |t'.entries|
    && t.nextId <= t'.nextId
    && forall i :: 0 <= i < |t.entries| ==>
      var e, e' := t.entries[i], t'.entries[i];
      && e'.id == e.id && e'.userId == e.userId && e'.startTime == e.startTime && e'.note == e.note
      && (!e.active ==> !e'.active && e'.endTime == e.endTime)
      && (e.importedAt.Some? ==> e'.importedAt.Some?)
  }

  lemma EvolvesTransitive(t1: Table, t2: Table, t3: Table)
    requires Evolves(t1, t2) && Evolves(t2, t3)
    ensures Evolves(t1, t3)
  {
  }

  lemma StartEvolves(t: Table, userId: string, note: string, now: Timestamp, fault: Fault)
    ensures Evolves(t, StartTransition(t, userId, note, now, fault).table)
  {
  }

  lemma StopEvolves(t: Table, userId: string, now: Timestamp, fault: Fault)
    ensures Evolves(t, StopTransition(t, userId, now, fault).table)
  {
  }

  lemma ImportEvolves(t: Table, id: int, now: Timestamp, fault: Fault)
    ensures Evolves(t, ImportTransition(t, id, now, fault).table)
  {
  }

  /** A row with the id exists and none of the rows with it is imported. */
  predicate WasUnimported(t: Table, id: int) {
    IdExists(t.entries, id) && NoImportedRowWithId(t.entries, id)
  }

  /** A row that exists and has been imported. */
  predicate IsImported(t: Table, id: int) {
    IdExists(t.entries, id) && !NoImportedRowWithId(t.entries, id)
  }

  /** An id a table evolves through keeps existing, and once imported
      stays imported. */
  lemma EvolvesKeepsImported(t: Table, t': Table, id: int)
    requires Evolves(t, t')
    ensures IdExists(t.entries, id) ==> IdExists(t'.entries, id)
    ensures IsImported(t, id) ==> IsImported(t', id)
    ensures WasUnimported(t', id) && IdExists(t.entries, id) ==> NoImportedRowWithId(t.entries, id)
  {
    if IdExists(t.entries, id) {
      var i :| 0 <= i < |t.entries| && t.entries[i].id == id;
      assert t'.entries[i].id == id;
    }
    if IsImported(t, id) {
      var i :| 0 <= i < |t.entries| && t.entries[i].id == id && t.entries[i].importedAt.Some?;
      assert t'.entries[i].id == id && t'.entries[i].importedAt.Some?;
    }
  }


  // ---------------------------------------------------------------------
  // The table as the program holds it
  // ---------------------------------------------------------------------

  /** The token table is keyed by each token's hash. */
  predicate TokensKeyed(tokens: map<string, ApiToken>) {
    forall h :: h in tokens ==> tokens[h].hash == h
  }

  /** GetApiTokenByHash as its caller sees it: the token stored under the
      hash, or an error for a missing token and a failed query alike.  In a
      table keyed by hash, a token is found exactly when some token has that
      hash, and it is a token with that hash. */
  function TokenLookup(tokens: map<string, ApiToken>, hash: string, fault: Fault): (r: Option<ApiToken>)
    ensures TokensKeyed(tokens) ==>
      (r.Some? <==> fault != QueryFault && exists k :: k in tokens && tokens[k].hash == hash)
    ensures TokensKeyed(tokens) && r.Some? ==> r.value.hash == hash && r.value in tokens.Values
  {
    if fault == QueryFault || hash !in tokens then None else Some(tokens[hash])
  }

  /** UpdateApiTokenLastUsed: the token with the id gets the time as its
      last use; no other field and no other token changes. */
  function TouchTokens(tokens: map<string, ApiToken>, id: int, now: Timestamp): (r: map<string, ApiToken>)
    ensures r.Keys == tokens.Keys
    ensures forall h :: h in tokens ==>
      && r[h].id == tokens[h].id && r[h].hash == tokens[h].hash && r[h].isActive == tokens[h].isActive
      && r[h].lastUsedAt == (if tokens[h].id == id then Some(now) else tokens[h].lastUsedAt)
  {
    map h | h in tokens :: if tokens[h].id == id then tokens[h].(lastUsedAt := Some(now)) else tokens[h]
  }

  class Database {
    var entries: seq<Entry>
    var nextId: int
    var tokens: map<string, ApiToken>

    function State(): Table
      reads this
    {
      Table(entries, nextId)
    }

    ghost predicate Valid()
      reads this
    {
      WellFormed(State()) && TokensKeyed(tokens)
    }

    /** NewDatabase: the database file holds the table as the program
        last left it (EmptyTable for a new file, since CREATE TABLE IF NOT
        EXISTS keeps an existing one); the token table is provisioned
        separately. */
    constructor (t: Table, tokens: map<string, ApiToken>)
      requires WellFormed(t) && TokensKeyed(tokens)
      ensures Valid()
      ensures State() == t && this.tokens == tokens
    {
      entries := t.entries;
      nextId := t.nextId;
      this.tokens := tokens;
    }

    method HasActiveEntry(userId: string, fault: Fault) returns (active: bool, err: Option<StoreError>)
      ensures fault == QueryFault ==> !active && err == Some(StorageFailure("Failed to check active entry"))
      ensures fault != QueryFault ==> err == None && (active <==> HasActive(entries, userId))
    {
      if fault == QueryFault {
        return false, Some(StorageFailure("Failed to check active entry"));
      }
      var count := 0;
      var i := 0;
      while i < |entries|
        invariant 0 <= i <= |entries|
        invariant count > 0 <==> exists j :: 0 <= j < i && IsActiveFor(entries[j], userId)
      {
        if entries[i].userId == userId && entries[i].active {
          count := count + 1;
        }
        i := i + 1;
      }
      return count > 0, None;
    }

    method GetActiveEntry(userId: string, fault: Fault) returns (entry: Entry, found: bool, err: Option<StoreError>)
      ensures fault == QueryFault ==>
        entry == ZeroEntry && !found && err == Some(StorageFailure("Failed to get active entry"))
      ensures fault != QueryFault ==> err == None && (found <==> HasActive(entries, userId))
      ensures fault != QueryFault && found ==> entry == ActiveColumns(entries[FindActive(entries, userId).value])
      ensures !found ==> entry == ZeroEntry
    {
      if fault == QueryFault {
        return ZeroEntry, false, Some(StorageFailure("Failed to get active entry"));
      }
      var i := 0;
      while i < |entries|
        invariant 0 <= i <= |entries|
        invariant forall j :: 0 <= j < i ==> !IsActiveFor(entries[j], userId)
      {
        if entries[i].userId == userId && entries[i].active {
          return ActiveColumns(entries[i]), true, None;
        }
        i := i + 1;
      }
      return ZeroEntry, false, None;
    }

    method StartTracking(userId: string, note: string, now: Timestamp, fault: Fault) returns (err: Option<StoreError>)
      requires Valid()
      modifies this
      ensures Valid() && tokens == old(tokens)
      ensures StartOutcome(err, State()) == StartTransition(old(State()), userId, note, now, fault)
    {
      StartPreservesWellFormed(State(), userId, note, now, fault);
      var active, checkErr := HasActiveEntry(userId, fault);
      if checkErr.Some? {
        return checkErr;
      }
      if active {
        return Some(AlreadyTracking);
      }
      if fault == ExecFault || nextId > Helpers.MaxInt64 {
        return Some(StorageFailure("failed to create entry"));
      }
      entries := entries + [NewEntry(nextId, userId, note, now)];
      nextId := nextId + 1;
      return None;
    }

    method StopTracking(userId: string, now: Timestamp, fault: Fault) returns (entry: Entry, err: Option<StoreError>)
      requires Valid()
      modifies this
      ensures Valid() && tokens == old(tokens)
      ensures StopOutcome(err, entry, State()) == StopTransition(old(State()), userId, now, fault)
    {
      StopPreservesWellFormed(State(), userId, now, fault);
      var found: bool;
      entry, found, err := GetActiveEntry(userId, fault);
      if err.Some? {
        return ZeroEntry, err;
      }
      if !found {
        return ZeroEntry, Some(NoActiveEntry);
      }
      if fault == ExecFault {
        return ZeroEntry, Some(StorageFailure("Failed to end entry"));
      }
      var k := FindActive(entries, userId).value;
      entries := entries[k := Ended(entries[k], now)];
      entry := Ended(entry, now);
    }

    method GetUnimportedEntries(fault: Fault) returns (results: seq<Entry>, err: Option<StoreError>)
      ensures fault == QueryFault ==> results == [] && err == Some(StorageFailure("Error querying entries"))
      ensures fault != QueryFault ==> results == Unimported(entries) && err == None
    {
      if fault == QueryFault {
        return [], Some(StorageFailure("Error querying entries"));
      }
      results := [];
      var i := 0;
      while i < |entries|
        invariant 0 <= i <= |entries|
        invariant results == Unimported(entries[..i])
      {
        assert entries[..i + 1][..i] == entries[..i];
        if entries[i].importedAt.None? {
          results := results + [entries[i]];
        }
        i := i + 1;
      }
      assert entries[..i] == entries;
      err := None;
    }

    method UpdateEntryImportStatus(entryId: int, now: Timestamp, fault: Fault) returns (err: Option<StoreError>)
      requires Valid()
      modifies this
      ensures Valid() && tokens == old(tokens)
      ensures ImportOutcome(err, State()) == ImportTransition(old(State()), entryId, now, fault)
    {
      ImportPreservesWellFormed(State(), entryId, now, fault);
      if fault == ExecFault {
        return Some(StorageFailure("Error updating import status for entry " + Helpers.FormatInt(entryId)));
      }
      entries := StampRows(entries, entryId, now);
      return None;
    }

    method CheckEntry(entryId: int, fault: Fault) returns (present: bool, isUnimported: bool, err: Option<StoreError>)
      ensures CheckOutcome(present, isUnimported, err) == CheckEntryResult(State(), entryId, fault)
    {
      if fault == QueryFault {
        return false, false, Some(StorageFailure("Error checking entry " + Helpers.FormatInt(entryId)));
      }
      var count, unimported := 0, 1;
      var i := 0;
      while i < |entries|
        invariant 0 <= i <= |entries|
        invariant count > 0 <==> exists j :: 0 <= j < i && entries[j].id == entryId
        invariant unimported == 1 <==> forall j :: 0 <= j < i && entries[j].id == entryId ==> entries[j].importedAt.None?
      {
        if entries[i].id == entryId {
          count := count + 1;
          unimported := if entries[i].importedAt.None? && unimported == 1 then 1 else 0;
        }
        i := i + 1;
      }
      return count > 0, unimported == 1, None;
    }

    /** The token lookup by hash; a missing token and a failed query are
        both an error to the caller, which tests only for an error. */
    method GetApiTokenByHash(hash: string, fault: Fault) returns (token: Option<ApiToken>)
      requires Valid()
      ensures token == TokenLookup(tokens, hash, fault)
      ensures token.Some? <==> fault != QueryFault && exists k :: k in tokens && tokens[k].hash == hash
      ensures token.Some? ==> token.value.hash == hash && token.value in tokens.Values
    {
      if fault == QueryFault || hash !in tokens {
        return None;
      }
      return Some(tokens[hash]);
    }

    method UpdateApiTokenLastUsed(id: int, now: Timestamp, fault: Fault) returns (err: Option<StoreError>)
      requires Valid()
      modifies this
      ensures Valid() && State() == old(State())
      ensures err.Some? <==> fault == ExecFault
      ensures tokens == if fault == ExecFault then old(tokens) else TouchTokens(old(tokens), id, now)
    {
      if fault == ExecFault {
        return Some(StorageFailure("Failed to update token last_used"));
      }
      tokens := TouchTokens(tokens, id, now);
      return None;
    }
  }
}
