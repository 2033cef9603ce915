/**
 * The migration runner of db/migrate.ts: line endings and checksums, the plan, the foreign-key check and the
 * transaction around each migration. The database is its user tables, of any type T, and the history rows.
 */
module Migrate {
  import opened Options

  // ----- Line endings

  function NormalizeEol(sql: string): string {
    if sql == "" then ""
    else if |sql| >= 2 && sql[0] == '\r' && sql[1] == '\n' then ['\n'] + NormalizeEol(sql[2..])
    else [sql[0]] + NormalizeEol(sql[1..])
  }

  function ToCrlf(sql: string): string {
    if sql == "" then ""
    else (if sql[0] == '\n' then ['\r', '\n'] else [sql[0]]) + ToCrlf(sql[1..])
  }

  predicate NoCrlf(sql: string) { forall i :: 0 <= i < |sql| - 1 ==> !(sql[i] == '\r' && sql[i + 1] == '\n') }

  /** Whatever the text, converting it to CRLF and back gives it again. */
  lemma {:induction false} CrlfRoundTrip(sql: string)
    ensures NormalizeEol(ToCrlf(sql)) == sql
    ensures sql != "" ==> ToCrlf(sql) != "" && ToCrlf(sql)[0] == if sql[0] == '\n' then '\r' else sql[0]
  {
    if sql != "" {
      var rest := ToCrlf(sql[1..]);
      CrlfRoundTrip(sql[1..]);
      assert sql == [sql[0]] + sql[1..];
      if sql[0] == '\n' {
        assert (['\r', '\n'] + rest)[2..] == rest;
      } else {
        assert ([sql[0]] + rest)[1..] == rest;
        assert rest != "" ==> ([sql[0]] + rest)[1] == rest[0];
      }
    }
  }

  lemma {:induction false} NormalizeShortens(sql: string)
    ensures |NormalizeEol(sql)| <= |sql|
    ensures NoCrlf(sql) <==> NormalizeEol(sql) == sql
    ensures !NoCrlf(sql) ==> |NormalizeEol(sql)| < |sql|
  {
    if sql != "" {
      if |sql| >= 2 && sql[0] == '\r' && sql[1] == '\n' {
        NormalizeShortens(sql[2..]);
      } else {
        NormalizeShortens(sql[1..]);
        assert sql == [sql[0]] + sql[1..];
        assert ([sql[0]] + NormalizeEol(sql[1..]))[1..] == NormalizeEol(sql[1..]);
      }
    }
  }

  lemma {:induction false} ToCrlfGrows(sql: string)
    ensures |ToCrlf(sql)| >= |sql|
  {
    if sql != "" { ToCrlfGrows(sql[1..]); }
  }

  // ----- Checksums

  /** The checksum recorded for a file is that of its text with LF line endings. */
  datatype MigrationFile = MigrationFile(name: string, sql: string) {
    function Checksum(hash: string -> string): string { hash(NormalizeEol(sql)) }
  }

  function AcceptedChecksums(sql: string, hash: string -> string): set<string> {
    var lf := NormalizeEol(sql);
    {hash(sql), hash(lf), hash(ToCrlf(lf))}
  }

  /**
   * The LF and CRLF checkouts of a text accept the same checksums exactly when the text has no CRLF of its own,
   * provided that the hash tells texts apart.
   */
  lemma CheckoutsAgree(lf: string, hash: string -> string)
    requires forall a, b :: hash(a) == hash(b) ==> a == b
    ensures AcceptedChecksums(lf, hash) == AcceptedChecksums(ToCrlf(lf), hash) <==> NoCrlf(lf)
  {
    NormalizeShortens(lf);
    if NoCrlf(lf) {
      CheckoutAccepts(lf, hash);
    } else {
      NormalizedOnlyIn(lf, hash);
    }
  }

  lemma ShorterIsNeither(a: string, b: string, c: string, hash: string -> string)
    requires |a| < |b| <= |c| && forall x, y :: hash(x) == hash(y) ==> x == y
    ensures hash(a) !in {hash(b), hash(c)}
  {
    assert hash(a) != hash(b) && hash(a) != hash(c);
  }

  lemma CrlfAccepts(lf: string, hash: string -> string)
    ensures AcceptedChecksums(ToCrlf(lf), hash) == {hash(lf), hash(ToCrlf(lf))}
  {
    CrlfRoundTrip(lf);
  }

  lemma NormalizedOnlyIn(lf: string, hash: string -> string)
    requires (forall a, b :: hash(a) == hash(b) ==> a == b) && !NoCrlf(lf)
    ensures hash(NormalizeEol(lf)) in AcceptedChecksums(lf, hash)
    ensures hash(NormalizeEol(lf)) !in AcceptedChecksums(ToCrlf(lf), hash)
  {
    CrlfAccepts(lf, hash);
    NormalizeShortens(lf);
    ToCrlfGrows(lf);
    ShorterIsNeither(NormalizeEol(lf), lf, ToCrlf(lf), hash);
  }

  /** For texts without a CRLF of their own, whatever the hash. */
  lemma CheckoutAccepts(lf: string, hash: string -> string)
    requires NoCrlf(lf)
    ensures AcceptedChecksums(lf, hash) == AcceptedChecksums(ToCrlf(lf), hash) == {hash(lf), hash(ToCrlf(lf))}
    ensures hash(NormalizeEol(lf)) == hash(NormalizeEol(ToCrlf(lf))) == hash(lf)
  {
    CrlfRoundTrip(lf);
    NormalizeShortens(lf);
  }

  /** What is recorded for a text does not depend on the line endings of the checkout. */
  lemma ChecksumIgnoresCheckout(name: string, lf: string, hash: string -> string)
    requires NoCrlf(lf)
    ensures MigrationFile(name, lf).Checksum(hash) == MigrationFile(name, ToCrlf(lf)).Checksum(hash) == hash(lf)
  {
    CheckoutAccepts(lf, hash);
  }

  // ----- The plan

  datatype ErrorCode = CHECKSUM_CHANGED | INCOMPLETE | UNKNOWN_APPLIED | DB_NOT_EMPTY | FK_VIOLATION
                     | APPLY_FAILED | NO_SPACE | NO_MIGRATIONS
                     | OTHER // an error of the database itself, not a MigrationError

  datatype Failure = Failure(code: ErrorCode, migration: Option<string>)

  datatype Row = Row(name: string, checksum: string, finishedAt: Option<int>, rolledBackAt: Option<int>)

  datatype Planned = Pending(files: seq<MigrationFile>) | Refused(why: Failure)

  function Live(rows: seq<Row>): seq<Row> {
    if rows == [] then []
    else (if rows[0].rolledBackAt.None? then [rows[0]] else []) + Live(rows[1..])
  }

  function FirstUnfinished(live: seq<Row>): Option<Row> {
    if live == [] then None
    else if live[0].finishedAt.None? then Some(live[0])
    else FirstUnfinished(live[1..])
  }

  /** A Map built from pairs keeps the last value of a key. */
  function ByName(disk: seq<MigrationFile>, name: string): Option<MigrationFile> {
    if disk == [] then None
    else if disk[|disk| - 1].name == name then Some(disk[|disk| - 1])
    else ByName(disk[..|disk| - 1], name)
  }

  function CheckRow(disk: seq<MigrationFile>, a: Row, hash: string -> string): Option<Failure> {
    match ByName(disk, a.name)
    case None => Some(Failure(UNKNOWN_APPLIED, Some(a.name)))
    case Some(file) =>
      if a.checksum in AcceptedChecksums(file.sql, hash) then None
      else Some(Failure(CHECKSUM_CHANGED, Some(a.name)))
  }

  function CheckRows(disk: seq<MigrationFile>, live: seq<Row>, hash: string -> string): Option<Failure> {
    if live == [] then None
    else if CheckRow(disk, live[0], hash).Some? then CheckRow(disk, live[0], hash)
    else CheckRows(disk, live[1..], hash)
  }

  predicate Done(name: string, live: seq<Row>) { exists i :: 0 <= i < |live| && live[i].name == name }

  function NotDone(disk: seq<MigrationFile>, live: seq<Row>): seq<MigrationFile> {
    if disk == [] then []
    else (if Done(disk[0].name, live) then [] else [disk[0]]) + NotDone(disk[1..], live)
  }

  function PlanMigrations(disk: seq<MigrationFile>, applied: seq<Row>, hash: string -> string): Planned {
    var live := Live(applied);
    match FirstUnfinished(live)
    case Some(a) => Refused(Failure(INCOMPLETE, Some(a.name)))
    case None =>
      match CheckRows(disk, live, hash)
      case Some(why) => Refused(why)
      case None => Pending(NotDone(disk, live))
  }

  // ----- Foreign keys

  datatype Violation = Violation(table: string, parent: string)

  function KeyOf(v: Violation): string { v.table + "\0" + v.parent }

  /** How many violations have this key. */
  function Count(vs: seq<Violation>, key: string): nat {
    if vs == [] then 0
    else Count(vs[..|vs| - 1], key) + if KeyOf(vs[|vs| - 1]) == key then 1 else 0
  }

  /** The violations of `after`, in order, once those that were there before are used up. */
  function Surplus(before: seq<Violation>, after: seq<Violation>): seq<Violation> {
    if after == [] then []
    else
      var earlier, v := after[..|after| - 1], after[|after| - 1];
      Surplus(before, earlier) + if Count(earlier, KeyOf(v)) < Count(before, KeyOf(v)) then [] else [v]
  }

  function Left(budget: map<string, nat>, key: string): nat {
    if key in budget then budget[key] else 0
  }

  method NewViolations(before: seq<Violation>, after: seq<Violation>) returns (extra: seq<Violation>)
    ensures extra == Surplus(before, after)
  {
    var budget: map<string, nat> := map[];
    for i := 0 to |before|
      invariant forall k :: Left(budget, k) == Count(before[..i], k)
    {
      assert before[..i + 1][..i] == before[..i];
      var key := KeyOf(before[i]);
      budget := budget[key := Left(budget, key) + 1];
    }
    assert before[..|before|] == before;
    extra := [];
    for i := 0 to |after|
      invariant forall k :: Left(budget, k) == Minus(Count(before, k), Count(after[..i], k))
      invariant extra == Surplus(before, after[..i])
    {
      assert after[..i + 1][..i] == after[..i];
      var key := KeyOf(after[i]);
      var left := Left(budget, key);
      if left > 0 {
        budget := budget[key := left - 1];
      } else {
        extra := extra + [after[i]];
      }
    }
    assert after[..|after|] == after;
  }

  function Minus(a: nat, b: nat): nat { if a <= b then 0 else a - b }

  lemma CountOneMore(vs: seq<Violation>, v: Violation, key: string)
    ensures Count(vs + [v], key) == Count(vs, key) + if KeyOf(v) == key then 1 else 0
  {
    assert (vs + [v])[..|vs|] == vs;
  }

  /** The new violations are the multiset difference: of each key, those in excess of what there was. */
  lemma {:induction false} SurplusIsDifference(before: seq<Violation>, after: seq<Violation>, key: string)
    ensures Count(Surplus(before, after), key) == Minus(Count(after, key), Count(before, key))
  {
    if after != [] {
      var earlier, v := after[..|after| - 1], after[|after| - 1];
      var surplus := Surplus(before, earlier);
      SurplusIsDifference(before, earlier, key);
      if Count(earlier, KeyOf(v)) < Count(before, KeyOf(v)) {
        assert Surplus(before, after) == surplus;
      } else {
        assert Surplus(before, after) == surplus + [v];
        CountOneMore(surplus, v, key);
      }
    }
  }

  ghost predicate NotMore(before: seq<Violation>, after: seq<Violation>) {
    forall key :: Count(after, key) <= Count(before, key)
  }

  /** There are no new violations exactly when no pair of table and parent has more than before. */
  lemma {:induction false} NoSurplusIffNotMore(before: seq<Violation>, after: seq<Violation>)
    ensures Surplus(before, after) == [] <==> NotMore(before, after)
  {
    var surplus := Surplus(before, after);
    forall key ensures Count(surplus, key) == Minus(Count(after, key), Count(before, key)) {
      SurplusIsDifference(before, after, key);
    }
    if surplus != [] {
      var v := surplus[|surplus| - 1];
      assert Count(surplus, KeyOf(v)) > 0;
      assert Count(after, KeyOf(v)) > Count(before, KeyOf(v));
    } else {
      assert forall key :: Count(surplus, key) == 0;
    }
  }

  /** Names without a NUL share a key only when they are the same pair. */
  lemma KeysTellPairsApart(v: Violation, w: Violation)
    requires '\0' !in v.table && '\0' !in w.table && KeyOf(v) == KeyOf(w)
    ensures v == w
  {
    var k := KeyOf(v);
    assert k[|v.table|] == '\0' && k[|w.table|] == '\0';
    assert forall i :: 0 <= i < |v.table| ==> k[i] == v.table[i] && v.table[i] in v.table;
    assert forall i :: 0 <= i < |w.table| ==> k[i] == w.table[i] && w.table[i] in w.table;
    assert v.table == k[..|v.table|] && w.table == k[..|w.table|];
    assert v.parent == k[|v.table| + 1..] && w.parent == k[|w.table| + 1..];
  }

  // ----- One migration

  /** What a statement does: it writes, which leaves these tables, or it ends or opens a transaction. */
  datatype Act<T> = Write(tables: T) | Commit | Rollback | Begin

  /** The connection: what it sees, what a rollback would give back, and whether a transaction is open. */
  datatype Tx<T> = Tx(tables: T, durable: T, open: bool) {
    function Do(act: Act<T>): Tx<T> {
      match act
      case Write(t) => Tx(t, if open then durable else t, open)
      case Commit => Tx(tables, tables, false)
      case Rollback => Tx(durable, durable, false)
      case Begin => this.(open := true)
    }
  }

  function After<T>(start: Tx<T>, acts: seq<Act<T>>): Tx<T> {
    if acts == [] then start else After(start, acts[..|acts| - 1]).Do(acts[|acts| - 1])
  }

  /** What running the SQL of a migration does, up to the statement that throws, if any. */
  datatype Script<T> = Script(acts: seq<Act<T>>, threw: bool)

  /** The connection after the acts, begun inside the transaction of the runner. */
  function Ran<T>(tables: T, acts: seq<Act<T>>): Tx<T> { After(Tx(tables, tables, true), acts) }

  datatype Fault = NoFault | BeginFails | InsertFails | CommitFails

  /** Everything that the runner does not decide. */
  datatype World<!T> = World(hash: string -> string, exec: (MigrationFile, T) -> Script<T>, fault: MigrationFile -> Fault,
                             violations: T -> seq<Violation>, hasUserTables: T -> bool, clock: MigrationFile -> int)

  datatype Content<T> = Content(tables: T, history: seq<Row>)

  datatype Applied<T> = Applied(content: Content<T>, error: Option<Failure>)

  function HistoryRow<T>(m: MigrationFile, w: World<T>): Row {
    Row(m.name, m.Checksum(w.hash), Some(w.clock(m)), None)
  }

  function Apply<T>(db: Content<T>, m: MigrationFile, w: World<T>): Applied<T> {
    if w.fault(m).BeginFails? then Applied(db, Some(Failure(OTHER, None)))
    else
      var script := w.exec(m, db.tables);
      var out := Ran(db.tables, script.acts);
      var undone := db.(tables := out.durable);
      if script.threw || !out.open then Applied(undone, Some(Failure(APPLY_FAILED, Some(m.name))))
      else if Surplus(w.violations(db.tables), w.violations(out.tables)) != [] then
        Applied(undone, Some(Failure(FK_VIOLATION, Some(m.name))))
      else if !w.fault(m).NoFault? then Applied(undone, Some(Failure(APPLY_FAILED, Some(m.name))))
      else Applied(Content(out.tables, db.history + [HistoryRow(m, w)]), None)
  }

  // ----- A run

  /** How a run over the pending migrations ends, and how many of them it applied. */
  datatype Run<T> = Run(content: Content<T>, applied: nat, error: Option<Failure>)

  function RunPending<T>(db: Content<T>, pending: seq<MigrationFile>, w: World<T>): (r: Run<T>)
    ensures r.applied <= |pending| && (r.error.None? <==> r.applied == |pending|)
    decreases |pending|
  {
    if pending == [] then Run(db, 0, None)
    else
      var one := Apply(db, pending[0], w);
      if one.error.Some? then Run(one.content, 0, one.error)
      else
        var rest := RunPending(one.content, pending[1..], w);
        rest.(applied := rest.applied + 1)
  }

  datatype Result = Ok(applied: seq<string>) | Threw(why: Failure)

  datatype Migrated<T> = Migrated(content: Content<T>, result: Result)

  function Names(files: seq<MigrationFile>): (names: seq<string>)
    ensures |names| == |files|
  {
    if files == [] then [] else [files[0].name] + Names(files[1..])
  }

  /** The whole call. noBackup is the error of the copy made before migrating, if it fails. */
  function Migrate<T>(db: Content<T>, disk: seq<MigrationFile>, w: World<T>, noBackup: Option<Failure>): Migrated<T> {
    if disk == [] then Migrated(db, Threw(Failure(NO_MIGRATIONS, None)))
    else if db.history == [] && w.hasUserTables(db.tables) then Migrated(db, Threw(Failure(DB_NOT_EMPTY, None)))
    else
      match PlanMigrations(disk, db.history, w.hash)
      case Refused(why) => Migrated(db, Threw(why))
      case Pending(files) =>
        if files == [] then Migrated(db, Ok([]))
        else if noBackup.Some? then Migrated(db, Threw(noBackup.value))
        else
          RunAll(db, files, w)
  }

  function RunAll<T>(db: Content<T>, pending: seq<MigrationFile>, w: World<T>): Migrated<T> {
    var run := RunPending(db, pending, w);
    Migrated(run.content, if run.error.Some? then Threw(run.error.value) else Ok(Names(pending)))
  }

  // ----- The database

  class Database<T> {
    var tables: T
    var history: seq<Row>
    var inTransaction: bool
    var foreignKeys: bool
    /** What a rollback of the open transaction gives back. */
    var saved: Content<T>

    constructor (content: Content<T>)
      ensures Stored() == content && !inTransaction && foreignKeys
    {
      tables, history, saved := content.tables, content.history, content;
      inTransaction, foreignKeys := false, true;
    }

    function Stored(): Content<T>
      reads this
    {
      Content(tables, history)
    }

    method Begin()
      requires !inTransaction
      modifies this
      ensures inTransaction && saved == Stored() == old(Stored()) && foreignKeys == old(foreignKeys)
    {
      inTransaction, saved := true, Content(tables, history);
    }

    /** The tables as the transaction sees them, and as a rollback would leave them. */
    function Connection(): Tx<T>
      reads this
    {
      Tx(tables, if inTransaction then saved.tables else tables, inTransaction)
    }

    method Exec(acts: seq<Act<T>>)
      requires saved.history == history
      modifies this
      ensures Connection() == After(old(Connection()), acts) && foreignKeys == old(foreignKeys)
      ensures history == saved.history == old(history)
    {
      for i := 0 to |acts|
        invariant Connection() == After(old(Connection()), acts[..i]) && foreignKeys == old(foreignKeys)
        invariant history == saved.history == old(history)
      {
        assert acts[..i + 1][..i] == acts[..i];
        match acts[i]
        case Write(t) => tables := t;
        case Commit => inTransaction := false;
        case Rollback => if inTransaction { tables, inTransaction := saved.tables, false; }
        case Begin => if !inTransaction { inTransaction, saved := true, Content(tables, history); }
      }
      assert acts[..|acts|] == acts;
    }

    method Rollback()
      requires inTransaction
      modifies this
      ensures !inTransaction && Stored() == old(saved) && foreignKeys == old(foreignKeys)
    {
      tables, history, inTransaction := saved.tables, saved.history, false;
    }

    /** Each migration runs in its own transaction; foreign keys are always on again, and none is left open. */
    method ApplyOne(m: MigrationFile, w: World<T>) returns (error: Option<Failure>)
      requires !inTransaction
      modifies this
      ensures !inTransaction && foreignKeys
      ensures Applied(Stored(), error) == Apply(old(Stored()), m, w)
    {
      foreignKeys := false;
      if w.fault(m).BeginFails? {
        foreignKeys := true;
        return Some(Failure(OTHER, None));
      }
      Begin();
      var before := w.violations(tables);
      var script := w.exec(m, tables);
      Exec(script.acts);
      error := Some(Failure(APPLY_FAILED, Some(m.name)));
      if !script.threw && inTransaction {
        var extra := NewViolations(before, w.violations(tables));
        if extra != [] {
          error := Some(Failure(FK_VIOLATION, Some(m.name)));
        } else if !w.fault(m).InsertFails? {
          history := history + [HistoryRow(m, w)];
          if !w.fault(m).CommitFails? {
            inTransaction := false;
            error := None;
          }
        }
      }
      if inTransaction { Rollback(); }
      foreignKeys := true;
    }

    method MigrateDatabase(disk: seq<MigrationFile>, w: World<T>, noBackup: Option<Failure>) returns (result: Result)
      requires !inTransaction && foreignKeys
      modifies this
      ensures !inTransaction && foreignKeys
      ensures Migrated(Stored(), result) == Migrate(old(Stored()), disk, w, noBackup)
    {
      if |disk| == 0 { return Threw(Failure(NO_MIGRATIONS, None)); }
      if |history| == 0 && w.hasUserTables(tables) { return Threw(Failure(DB_NOT_EMPTY, None)); }
      var plan := PlanMigrations(disk, history, w.hash);
      if plan.Refused? { return Threw(plan.why); }
      var pending := plan.files;
      if |pending| == 0 { return Ok([]); }
      if noBackup.Some? { return Threw(noBackup.value); }
      result := ApplyAll(pending, w);
    }

    /** Stops at the first migration that fails. */
    method ApplyAll(pending: seq<MigrationFile>, w: World<T>) returns (result: Result)
      requires !inTransaction && foreignKeys
      modifies this
      ensures !inTransaction && foreignKeys
      ensures Migrated(Stored(), result) == RunAll(old(Stored()), pending, w)
    {
      ghost var all := RunPending(Stored(), pending, w);
      var done: seq<string> := [];
      for i := 0 to |pending|
        invariant !inTransaction && foreignKeys
        invariant var rest := RunPending(Stored(), pending[i..], w);
                  rest.content == all.content && rest.error == all.error
        invariant Names(pending) == done + Names(pending[i..])
      {
        assert pending[i..][1..] == pending[i + 1..];
        var error := ApplyOne(pending[i], w);
        if error.Some? { return Threw(error.value); }
        assert done + Names(pending[i..]) == (done + [pending[i].name]) + Names(pending[i + 1..]);
        done := done + [pending[i].name];
      }
      assert Names(pending) == done;
      result := Ok(done);
    }
  }

  // ----- What a run leaves

  /** The SQL makes nothing durable by itself. */
  ghost predicate StaysInside<T(!new)>(w: World<T>) {
    forall m, t :: Ran(t, w.exec(m, t).acts).durable == t
  }

  function Replay<T>(tables: T, files: seq<MigrationFile>, w: World<T>): T {
    if files == [] then tables else Replay(Ran(tables, w.exec(files[0], tables).acts).tables, files[1..], w)
  }

  function RowsFor<T>(files: seq<MigrationFile>, w: World<T>): seq<Row> {
    if files == [] then [] else [HistoryRow(files[0], w)] + RowsFor(files[1..], w)
  }

  /** What is left of the tables when migration m fails on them. */
  function AfterFailure<T>(tables: T, m: MigrationFile, w: World<T>): T {
    if w.fault(m).BeginFails? then tables else Ran(tables, w.exec(m, tables).acts).durable
  }

  /** The SQL of m, its transaction and its check of the foreign keys all succeed on these tables. */
  predicate Works<T>(tables: T, m: MigrationFile, w: World<T>) { Apply(Content(tables, []), m, w).error.None? }

  lemma AppliedWorks<T>(db: Content<T>, m: MigrationFile, w: World<T>)
    ensures Apply(db, m, w).error == Apply(Content(db.tables, []), m, w).error
    ensures Works(db.tables, m, w) ==> Apply(db, m, w).content == Then(db, m, w)
  {
  }

  function Then<T>(db: Content<T>, m: MigrationFile, w: World<T>): Content<T> {
    Content(Ran(db.tables, w.exec(m, db.tables).acts).tables, db.history + [HistoryRow(m, w)])
  }

  lemma RunFirst<T>(db: Content<T>, pending: seq<MigrationFile>, w: World<T>)
    requires pending != []
    ensures Works(db.tables, pending[0], w) <==> RunPending(db, pending, w).applied > 0
    ensures Works(db.tables, pending[0], w) ==>
      var rest := RunPending(Then(db, pending[0], w), pending[1..], w);
      RunPending(db, pending, w) == rest.(applied := rest.applied + 1)
  {
    AppliedWorks(db, pending[0], w);
  }

  /** Where the runner stands once the first k migrations have worked. */
  function Reached<T>(db: Content<T>, files: seq<MigrationFile>, w: World<T>): Content<T> {
    Content(Replay(db.tables, files, w), db.history + RowsFor(files, w))
  }

  lemma ReachedThrough<T>(db: Content<T>, files: seq<MigrationFile>, w: World<T>)
    requires files != []
    ensures Reached(db, files, w) == Reached(Then(db, files[0], w), files[1..], w)
  {
    var rows := RowsFor(files[1..], w);
    assert db.history + ([HistoryRow(files[0], w)] + rows) == (db.history + [HistoryRow(files[0], w)]) + rows;
  }

  /** A run leaves a prefix of the plan applied, one history row for each, and what the failing migration left. */
  lemma {:induction false} RunAppliesPrefix<T>(db: Content<T>, pending: seq<MigrationFile>, w: World<T>)
    ensures var r := RunPending(db, pending, w);
            && r.content.history == db.history + RowsFor(pending[..r.applied], w)
            && var done := Replay(db.tables, pending[..r.applied], w);
               r.content.tables == if r.error.None? then done else AfterFailure(done, pending[r.applied], w)
    decreases |pending|
  {
    if pending == [] {
      assert db.history + [] == db.history;
    } else {
      RunFirst(db, pending, w);
      AppliedWorks(db, pending[0], w);
      var k := RunPending(db, pending, w).applied;
      if k == 0 {
        assert pending[..k] == [] && db.history + [] == db.history;
      } else {
        RunAppliesPrefix(Then(db, pending[0], w), pending[1..], w);
        assert pending[..k][1..] == pending[1..][..k - 1];
        ReachedThrough(db, pending[..k], w);
      }
    }
  }

  /** The transaction begins, the SQL does not throw and leaves it open, violations do not grow, and the row is committed. */
  ghost predicate Succeeds<T>(tables: T, m: MigrationFile, w: World<T>) {
    var script := w.exec(m, tables);
    var out := Ran(tables, script.acts);
    && w.fault(m) == NoFault && !script.threw && out.open
    && NotMore(w.violations(tables), w.violations(out.tables))
  }

  lemma WorksIff<T>(tables: T, m: MigrationFile, w: World<T>)
    ensures Works(tables, m, w) <==> Succeeds(tables, m, w)
  {
    NoSurplusIffNotMore(w.violations(tables), w.violations(Ran(tables, w.exec(m, tables).acts).tables));
  }

  /** The error of a migration that does not succeed, and that it adds no row. */
  lemma FailureCodes<T>(db: Content<T>, m: MigrationFile, w: World<T>)
    ensures var script := w.exec(m, db.tables);
            var out, a := Ran(db.tables, script.acts), Apply(db, m, w);
            && (a.error.None? <==> Succeeds(db.tables, m, w))
            && (a.error.Some? ==> a.content.history == db.history)
            && (w.fault(m) == BeginFails ==> a == Applied(db, Some(Failure(OTHER, None))))
            && (w.fault(m) != BeginFails ==>
                  && (script.threw || !out.open ==> a.error == Some(Failure(APPLY_FAILED, Some(m.name))))
                  && (!script.threw && out.open && !NotMore(w.violations(db.tables), w.violations(out.tables)) ==>
                        a.error == Some(Failure(FK_VIOLATION, Some(m.name))))
                  && (!script.threw && out.open && NotMore(w.violations(db.tables), w.violations(out.tables)) && w.fault(m) != NoFault ==>
                        a.error == Some(Failure(APPLY_FAILED, Some(m.name)))))
  {
    WorksIff(db.tables, m, w);
    AppliedWorks(db, m, w);
    NoSurplusIffNotMore(w.violations(db.tables), w.violations(Ran(db.tables, w.exec(m, db.tables).acts).tables));
  }

  /** The tables that the k-th pending migration finds when those before it have been applied. */
  ghost function Finds<T>(db: Content<T>, pending: seq<MigrationFile>, k: nat, w: World<T>): T
    requires k <= |pending|
  {
    Replay(db.tables, pending[..k], w)
  }

  /**
   * A run applies the migrations up to the first that does not succeed on the tables it finds, and no other. So no row is
   * added for one whose SQL threw, whose transaction was ended, or that left new violations.
   */
  lemma {:induction false} AppliesWhileTheySucceed<T>(db: Content<T>, pending: seq<MigrationFile>, w: World<T>)
    ensures var k := RunPending(db, pending, w).applied;
            && (forall i :: 0 <= i < k ==> Succeeds(Finds(db, pending, i, w), pending[i], w))
            && (k < |pending| ==> !Succeeds(Finds(db, pending, k, w), pending[k], w))
    decreases |pending|
  {
    if pending != [] {
      var m, rest := pending[0], pending[1..];
      RunFirst(db, pending, w);
      WorksIff(db.tables, m, w);
      assert pending[..0] == [];
      if Works(db.tables, m, w) {
        var next := Then(db, m, w);
        AppliesWhileTheySucceed(next, rest, w);
        forall i | 0 < i <= |pending| ensures Finds(db, pending, i, w) == Finds(next, rest, i - 1, w) {
          assert pending[..i][0] == m && pending[..i][1..] == rest[..i - 1];
        }
        assert forall i :: 0 < i < |pending| ==> pending[i] == rest[i - 1];
      }
    }
  }

  /** The i-th act makes durable what the connection sees: it commits, or writes outside any transaction. */
  ghost predicate Settles<T>(tables: T, acts: seq<Act<T>>, i: nat) {
    i < |acts| && if Ran(tables, acts[..i]).open then acts[i].Commit? else acts[i].Write?
  }

  ghost predicate LastToSettle<T>(tables: T, acts: seq<Act<T>>, i: nat) {
    Settles(tables, acts, i) && forall j :: i < j < |acts| ==> !Settles(tables, acts, j)
  }

  /** Something was made durable, and the tables were not as before when that happened for the last time. */
  ghost predicate LeavesChanges<T>(tables: T, acts: seq<Act<T>>) {
    exists i :: LastToSettle(tables, acts, i) && Ran(tables, acts[..i + 1]).tables != tables
  }

  lemma SettlesEarlier<T>(tables: T, acts: seq<Act<T>>, n: nat, i: nat)
    requires i < n <= |acts|
    ensures Settles(tables, acts[..n], i) <==> Settles(tables, acts, i)
    ensures acts[..n][..i + 1] == acts[..i + 1]
  {
    assert acts[..n][..i] == acts[..i];
  }

  /** What a rollback gives back is what was made durable last, or else the tables at the start. */
  lemma {:induction false} DurableIs<T>(tables: T, acts: seq<Act<T>>)
    ensures (forall i :: !Settles(tables, acts, i)) ==> Ran(tables, acts).durable == tables
    ensures forall i :: LastToSettle(tables, acts, i) ==> Ran(tables, acts).durable == Ran(tables, acts[..i + 1]).tables
    ensures (exists i :: Settles(tables, acts, i)) ==> exists i :: LastToSettle(tables, acts, i)
    ensures !Ran(tables, acts).open ==> Ran(tables, acts).tables == Ran(tables, acts).durable
    decreases |acts|
  {
    if acts != [] {
      var last := |acts| - 1;
      var most := acts[..last];
      DurableIs(tables, most);
      assert acts[..last + 1] == acts;
      forall i: nat | i < last
        ensures Settles(tables, most, i) <==> Settles(tables, acts, i)
        ensures most[..i + 1] == acts[..i + 1]
      {
        SettlesEarlier(tables, acts, last, i);
      }
      if Settles(tables, acts, last) {
        assert LastToSettle(tables, acts, last);
      } else {
        assert Ran(tables, acts).durable == Ran(tables, most).durable;
        assert forall i :: LastToSettle(tables, acts, i) <==> LastToSettle(tables, most, i);
      }
    }
  }

  lemma LeavesChangesIff<T>(tables: T, acts: seq<Act<T>>)
    ensures Ran(tables, acts).durable != tables <==> LeavesChanges(tables, acts)
  {
    DurableIs(tables, acts);
  }

  /**
   * A failed run leaves exactly the prefix applied if and only if the failing SQL did not commit, or write outside a
   * transaction, leaving by then other tables than it found.
   */
  lemma FailureUndoneIff<T>(db: Content<T>, pending: seq<MigrationFile>, w: World<T>)
    requires RunPending(db, pending, w).error.Some?
    ensures var r := RunPending(db, pending, w);
            var done, m := Replay(db.tables, pending[..r.applied], w), pending[r.applied];
            r.content == Content(done, db.history + RowsFor(pending[..r.applied], w))
            <==> w.fault(m).BeginFails? || !LeavesChanges(done, w.exec(m, done).acts)
  {
    RunAppliesPrefix(db, pending, w);
    var r := RunPending(db, pending, w);
    var done := Replay(db.tables, pending[..r.applied], w);
    LeavesChangesIff(done, w.exec(pending[r.applied], done).acts);
  }

  /** When the SQL never ends the transaction, every run leaves exactly a prefix applied. */
  lemma ExactlyAPrefix<T(!new)>(db: Content<T>, pending: seq<MigrationFile>, w: World<T>)
    requires StaysInside(w)
    ensures var r := RunPending(db, pending, w);
            var prefix := pending[..r.applied];
            r.content == Content(Replay(db.tables, prefix, w), db.history + RowsFor(prefix, w))
  {
    RunAppliesPrefix(db, pending, w);
  }

  /** No pair of table and parent ends a run with more violations than it began. */
  lemma {:induction false} NoViolationsAdded<T(!new)>(db: Content<T>, pending: seq<MigrationFile>, w: World<T>)
    requires RunPending(db, pending, w).error.None? || StaysInside(w)
    ensures NotMore(w.violations(db.tables), w.violations(RunPending(db, pending, w).content.tables))
    decreases |pending|
  {
    if pending != [] {
      var one := Apply(db, pending[0], w);
      if one.error.None? {
        NoSurplusIffNotMore(w.violations(db.tables), w.violations(one.content.tables));
        NoViolationsAdded(one.content, pending[1..], w);
      }
    }
  }

  /** SQL that commits by itself: the migration is reported as failed, but its changes stay, without a history row. */
  lemma ClosingSqlLeaks(w: World<int>, m: MigrationFile)
    requires w.exec(m, 0) == Script([Write(1), Commit], false) && w.fault(m) == NoFault
    ensures var r := RunPending(Content(0, []), [m], w);
            r.error == Some(Failure(APPLY_FAILED, Some(m.name))) && r.applied == 0 && r.content == Content(1, [])
  {
    assert Ran(0, [Write(1)]) == Tx(1, 0, true);
    assert Ran(0, [Write(1), Commit]) == Tx(1, 1, false) by {
      assert [Write(1), Commit][..1] == [Write(1)];
    }
  }

  // ----- The next plan

  lemma {:induction false} LiveConcat(a: seq<Row>, b: seq<Row>)
    ensures Live(a + b) == Live(a) + Live(b)
  {
    if a == [] {
      assert a + b == b;
      assert Live(a) + Live(b) == Live(b);
    } else {
      var first, rest := a[0], a[1..];
      LiveConcat(rest, b);
      assert (a + b)[0] == first && (a + b)[1..] == rest + b;
      var head := if first.rolledBackAt.None? then [first] else [];
      assert head + (Live(rest) + Live(b)) == (head + Live(rest)) + Live(b);
    }
  }

  lemma {:induction false} RowsAreLive<T>(files: seq<MigrationFile>, w: World<T>)
    ensures Live(RowsFor(files, w)) == RowsFor(files, w)
  {
    if files != [] { RowsAreLive(files[1..], w); }
  }

  /** A plan is made exactly when every live row is finished and matches a file; otherwise it is refused. */
  lemma {:induction false} PlannedIff(disk: seq<MigrationFile>, live: seq<Row>, hash: string -> string)
    ensures FirstUnfinished(live).None? <==> forall a :: a in live ==> a.finishedAt.Some?
    ensures CheckRows(disk, live, hash).None? <==> forall a :: a in live ==> CheckRow(disk, a, hash).None?
  {
    if live != [] {
      assert live == [live[0]] + live[1..];
      PlannedIff(disk, live[1..], hash);
    }
  }

  lemma {:induction false} LiveMeans(rows: seq<Row>)
    ensures forall a :: a in Live(rows) <==> a in rows && a.rolledBackAt.None?
  {
    if rows != [] {
      assert rows == [rows[0]] + rows[1..];
      LiveMeans(rows[1..]);
    }
  }

  /** The row is of a finished migration, and some file of that name has the same text but for its line endings. */
  ghost predicate MatchesAFile(disk: seq<MigrationFile>, a: Row, hash: string -> string) {
    && a.finishedAt.Some?
    && exists m :: m in disk && m.name == a.name
         && (a.checksum == hash(m.sql) || a.checksum == hash(NormalizeEol(m.sql)) || a.checksum == hash(ToCrlf(NormalizeEol(m.sql))))
  }

  lemma RowMatchesIff(disk: seq<MigrationFile>, a: Row, hash: string -> string)
    requires DistinctNames(disk) && a.finishedAt.Some?
    ensures CheckRow(disk, a, hash).None? <==> MatchesAFile(disk, a, hash)
  {
    ByNameNone(disk, a.name);
    if ByName(disk, a.name).Some? {
      var file := ByName(disk, a.name).value;
      forall m | m in disk && m.name == a.name ensures m == file { ByNameFinds(disk, m); }
    }
  }

  /** A plan is made exactly when every row not rolled back is of a finished migration and matches a file. */
  lemma PlanMadeIff(disk: seq<MigrationFile>, applied: seq<Row>, hash: string -> string)
    requires DistinctNames(disk)
    ensures PlanMigrations(disk, applied, hash).Pending?
            <==> forall a :: a in applied && a.rolledBackAt.None? ==> MatchesAFile(disk, a, hash)
  {
    var live := Live(applied);
    LiveMeans(applied);
    PlannedIff(disk, live, hash);
    forall a | a in live && a.finishedAt.Some? ensures CheckRow(disk, a, hash).None? <==> MatchesAFile(disk, a, hash) {
      RowMatchesIff(disk, a, hash);
    }
  }

  /** The files from some position on that are not done, in the order in which they are on the disk. */
  lemma {:induction false} NotDoneInOrder(disk: seq<MigrationFile>, from: nat, live: seq<Row>) returns (at: seq<nat>)
    requires from <= |disk|
    ensures |at| == |NotDone(disk[from..], live)|
    ensures forall i :: 0 <= i < |at| ==> from <= at[i] < |disk| && NotDone(disk[from..], live)[i] == disk[at[i]]
    ensures forall i, j :: 0 <= i < j < |at| ==> at[i] < at[j]
    ensures forall k :: from <= k < |disk| ==> (k in at <==> !Done(disk[k].name, live))
    decreases |disk| - from
  {
    if from == |disk| {
      at := [];
    } else {
      var later := NotDoneInOrder(disk, from + 1, live);
      assert disk[from..][0] == disk[from] && disk[from..][1..] == disk[from + 1..];
      var rest := NotDone(disk[from + 1..], live);
      if Done(disk[from].name, live) {
        assert NotDone(disk[from..], live) == rest;
        at := later;
      } else {
        assert NotDone(disk[from..], live) == [disk[from]] + rest;
        at := [from] + later;
      }
    }
  }

  /** What is planned: the files, in the order of the disk, for which no row that was not rolled back has the name. */
  lemma PlanIsTheUndone(disk: seq<MigrationFile>, applied: seq<Row>, hash: string -> string) returns (at: seq<nat>)
    requires PlanMigrations(disk, applied, hash).Pending?
    ensures var files := PlanMigrations(disk, applied, hash).files;
            && |at| == |files| && (forall i :: 0 <= i < |at| ==> at[i] < |disk| && files[i] == disk[at[i]])
            && (forall i, j :: 0 <= i < j < |at| ==> at[i] < at[j])
            && (forall k :: 0 <= k < |disk| ==>
                  (k in at <==> forall a :: a in applied && a.rolledBackAt.None? ==> a.name != disk[k].name))
  {
    var live := Live(applied);
    LiveMeans(applied);
    assert disk[0..] == disk;
    at := NotDoneInOrder(disk, 0, live);
    forall k | 0 <= k < |disk| ensures Done(disk[k].name, live) <==> exists a :: a in live && a.name == disk[k].name {
      if Done(disk[k].name, live) {
        var i :| 0 <= i < |live| && live[i].name == disk[k].name;
        assert live[i] in live;
      }
    }
  }

  /** The call succeeds exactly when there are files, the database is not somebody else's, a plan is made, and all of it succeeds. */
  lemma MigratesIff<T>(db: Content<T>, disk: seq<MigrationFile>, w: World<T>, noBackup: Option<Failure>)
    ensures var plan := PlanMigrations(disk, db.history, w.hash);
            Migrate(db, disk, w, noBackup).result.Ok? <==>
              && disk != [] && (db.history == [] ==> !w.hasUserTables(db.tables)) && plan.Pending?
              && (plan.files == []
                  || (noBackup.None? && forall i :: 0 <= i < |plan.files| ==> Succeeds(Finds(db, plan.files, i, w), plan.files[i], w)))
    ensures Migrate(db, disk, w, noBackup).result.Ok? ==>
              var files := PlanMigrations(disk, db.history, w.hash).files;
              Migrate(db, disk, w, noBackup)
              == Migrated(Content(Replay(db.tables, files, w), db.history + RowsFor(files, w)), Ok(Names(files)))
  {
    var plan := PlanMigrations(disk, db.history, w.hash);
    if plan.Pending? {
      AppliesWhileTheySucceed(db, plan.files, w);
      RunAppliesPrefix(db, plan.files, w);
      assert plan.files[..|plan.files|] == plan.files;
      assert db.history + [] == db.history;
    }
  }

  /** Without files, on somebody else's tables, without a plan or without a copy, nothing is touched, and the error says why. */
  lemma RefusalTouchesNothing<T>(db: Content<T>, disk: seq<MigrationFile>, w: World<T>, noBackup: Option<Failure>)
    ensures var plan, r := PlanMigrations(disk, db.history, w.hash), Migrate(db, disk, w, noBackup);
            && (disk == [] ==> r == Migrated(db, Threw(Failure(NO_MIGRATIONS, None))))
            && (disk != [] && db.history == [] && w.hasUserTables(db.tables) ==> r == Migrated(db, Threw(Failure(DB_NOT_EMPTY, None))))
            && (plan.Refused? || (plan.files != [] && noBackup.Some?) ==> r.content == db && r.result.Threw?)
  {
  }

  lemma {:induction false} FirstUnfinishedIsOne(live: seq<Row>)
    requires FirstUnfinished(live).Some?
    ensures var a := FirstUnfinished(live).value; a in live && a.finishedAt.None?
  {
    if live[0].finishedAt.Some? { FirstUnfinishedIsOne(live[1..]); }
  }

  lemma {:induction false} FirstMismatch(disk: seq<MigrationFile>, live: seq<Row>, hash: string -> string)
    requires CheckRows(disk, live, hash).Some?
    ensures exists i :: 0 <= i < |live| && CheckRow(disk, live[i], hash) == CheckRows(disk, live, hash)
                     && forall j :: 0 <= j < i ==> CheckRow(disk, live[j], hash).None?
  {
    if CheckRow(disk, live[0], hash).None? {
      FirstMismatch(disk, live[1..], hash);
      var i :| 0 <= i < |live| - 1 && CheckRow(disk, live[1..][i], hash) == CheckRows(disk, live, hash)
               && forall j :: 0 <= j < i ==> CheckRow(disk, live[1..][j], hash).None?;
      assert CheckRow(disk, live[i + 1], hash) == CheckRows(disk, live, hash);
      assert forall j :: 0 < j < i + 1 ==> live[j] == live[1..][j - 1];
    }
  }

  lemma {:induction false} ByNameNone(disk: seq<MigrationFile>, name: string)
    ensures ByName(disk, name).None? <==> forall m :: m in disk ==> m.name != name
    ensures ByName(disk, name).Some? ==> ByName(disk, name).value in disk && ByName(disk, name).value.name == name
    decreases |disk|
  {
    if disk != [] {
      ByNameNone(disk[..|disk| - 1], name);
      assert disk == disk[..|disk| - 1] + [disk[|disk| - 1]];
    }
  }

  /** Why the row stands in the way: it has no file, or its file accepts other checksums. */
  ghost predicate Mismatch(disk: seq<MigrationFile>, a: Row, why: Failure, hash: string -> string) {
    && why.migration == Some(a.name)
    && if forall m :: m in disk ==> m.name != a.name then why.code == UNKNOWN_APPLIED
       else
         && why.code == CHECKSUM_CHANGED
         && exists m :: m in disk && m.name == a.name && a.checksum !in AcceptedChecksums(m.sql, hash)
  }

  lemma CheckRowMeans(disk: seq<MigrationFile>, a: Row, hash: string -> string)
    requires CheckRow(disk, a, hash).Some?
    ensures Mismatch(disk, a, CheckRow(disk, a, hash).value, hash)
  {
    ByNameNone(disk, a.name);
    var file := ByName(disk, a.name);
    if file.Some? {
      var m := file.value;
      assert m in disk && m.name == a.name && a.checksum !in AcceptedChecksums(m.sql, hash);
    }
  }

  lemma MismatchIsTrue(disk: seq<MigrationFile>, live: seq<Row>, hash: string -> string)
    requires CheckRows(disk, live, hash).Some?
    ensures exists i :: 0 <= i < |live| && Mismatch(disk, live[i], CheckRows(disk, live, hash).value, hash)
                     && forall j :: 0 <= j < i ==> CheckRow(disk, live[j], hash).None?
  {
    FirstMismatch(disk, live, hash);
    var i :| 0 <= i < |live| && CheckRow(disk, live[i], hash) == CheckRows(disk, live, hash)
             && forall j :: 0 <= j < i ==> CheckRow(disk, live[j], hash).None?;
    CheckRowMeans(disk, live[i], hash);
  }

  /** The first live row that does not match. */
  ghost predicate FirstToDiffer(disk: seq<MigrationFile>, live: seq<Row>, why: Failure, hash: string -> string) {
    exists i :: 0 <= i < |live| && Mismatch(disk, live[i], why, hash) && forall j :: 0 <= j < i ==> CheckRow(disk, live[j], hash).None?
  }

  ghost predicate Unfinished(live: seq<Row>, why: Failure) {
    why.code == INCOMPLETE && exists a :: a in live && a.finishedAt.None? && why.migration == Some(a.name)
  }

  /** A refusal is true: it names an unfinished live row if there is any, and otherwise the first that does not match. */
  lemma RefusalIsTrue(disk: seq<MigrationFile>, applied: seq<Row>, hash: string -> string)
    requires PlanMigrations(disk, applied, hash).Refused?
    ensures var live, why := Live(applied), PlanMigrations(disk, applied, hash).why;
            Unfinished(live, why) || ((forall a :: a in live ==> a.finishedAt.Some?) && FirstToDiffer(disk, live, why, hash))
  {
    var live := Live(applied);
    if FirstUnfinished(live).Some? {
      FirstUnfinishedIsOne(live);
    } else {
      PlannedIff(disk, live, hash);
      MismatchIsTrue(disk, live, hash);
    }
  }

  ghost predicate DistinctNames(disk: seq<MigrationFile>) {
    forall i, j :: 0 <= i < j < |disk| ==> disk[i].name != disk[j].name
  }

  /** The same migrations, each file accepting at least the checksums it did. */
  ghost predicate Recheckout(disk: seq<MigrationFile>, again: seq<MigrationFile>, hash: string -> string) {
    && |again| == |disk|
    && forall i :: 0 <= i < |disk| ==>
         again[i].name == disk[i].name && AcceptedChecksums(disk[i].sql, hash) <= AcceptedChecksums(again[i].sql, hash)
  }

  lemma {:induction false} ByNameAgain(disk: seq<MigrationFile>, again: seq<MigrationFile>, name: string, hash: string -> string)
    requires Recheckout(disk, again, hash)
    ensures var f, g := ByName(disk, name), ByName(again, name);
            && (f.None? <==> g.None?)
            && (f.Some? ==> AcceptedChecksums(f.value.sql, hash) <= AcceptedChecksums(g.value.sql, hash))
    decreases |disk|
  {
    if disk != [] { ByNameAgain(disk[..|disk| - 1], again[..|disk| - 1], name, hash); }
  }

  lemma {:induction false} ByNameFinds(disk: seq<MigrationFile>, m: MigrationFile)
    requires DistinctNames(disk) && m in disk
    ensures ByName(disk, m.name) == Some(m)
    decreases |disk|
  {
    var last := disk[|disk| - 1];
    assert disk == disk[..|disk| - 1] + [last];
    if m != last { ByNameFinds(disk[..|disk| - 1], m); }
  }

  lemma {:induction false} NotDoneMembers(disk: seq<MigrationFile>, live: seq<Row>)
    ensures forall m :: m in NotDone(disk, live) ==> m in disk
  {
    if disk != [] { NotDoneMembers(disk[1..], live); }
  }

  lemma {:induction false} RowsForMembers<T>(files: seq<MigrationFile>, w: World<T>)
    ensures forall a :: a in RowsFor(files, w) ==> exists m :: m in files && a == HistoryRow(m, w)
  {
    if files != [] {
      RowsForMembers(files[1..], w);
      assert files[0] in files && forall m :: m in files[1..] ==> m in files;
    }
  }

  lemma NewRowChecks<T>(disk: seq<MigrationFile>, again: seq<MigrationFile>, m: MigrationFile, w: World<T>)
    requires DistinctNames(disk) && Recheckout(disk, again, w.hash) && m in disk
    ensures CheckRow(again, HistoryRow(m, w), w.hash).None?
  {
    ByNameFinds(disk, m);
    ByNameAgain(disk, again, m.name, w.hash);
    assert m.Checksum(w.hash) in AcceptedChecksums(m.sql, w.hash);
  }

  /** The old rows and the rows of the applied files match the checkout, so the next run gets a plan. */
  lemma NextPlanIsMade<T>(disk: seq<MigrationFile>, again: seq<MigrationFile>, history: seq<Row>, applied: seq<MigrationFile>, w: World<T>)
    requires DistinctNames(disk) && Recheckout(disk, again, w.hash)
    requires PlanMigrations(disk, history, w.hash).Pending? && (forall m :: m in applied ==> m in disk)
    ensures PlanMigrations(again, history + RowsFor(applied, w), w.hash)
         == Pending(NotDone(again, Live(history) + RowsFor(applied, w)))
  {
    var rows := RowsFor(applied, w);
    var live := Live(history) + rows;
    LiveConcat(history, rows);
    RowsAreLive(applied, w);
    RowsForMembers(applied, w);
    PlannedIff(disk, Live(history), w.hash);
    PlannedIff(again, live, w.hash);
    forall a | a in live ensures a.finishedAt.Some? && CheckRow(again, a, w.hash).None? {
      if a in Live(history) {
        ByNameAgain(disk, again, a.name, w.hash);
      } else {
        var m :| m in applied && a == HistoryRow(m, w);
        NewRowChecks(disk, again, m, w);
      }
    }
  }

  lemma {:induction false} NamesNotDone(disk: seq<MigrationFile>, again: seq<MigrationFile>, live: seq<Row>)
    requires |again| == |disk| && forall i :: 0 <= i < |disk| ==> again[i].name == disk[i].name
    ensures Names(NotDone(again, live)) == Names(NotDone(disk, live))
    decreases |disk|
  {
    if disk != [] {
      NamesNotDone(disk[1..], again[1..], live);
      var a, d := NotDone(again[1..], live), NotDone(disk[1..], live);
      assert [] + a == a && [] + d == d;
      assert ([again[0]] + a)[1..] == a && ([disk[0]] + d)[1..] == d;
    }
  }

  /** A row for another name leaves what is not done as it is. */
  lemma {:induction false} OtherRow(disk: seq<MigrationFile>, live: seq<Row>, more: seq<Row>, row: Row)
    requires forall m :: m in disk ==> m.name != row.name
    ensures NotDone(disk, live + [row] + more) == NotDone(disk, live + more)
  {
    if disk != [] {
      assert disk[0] in disk;
      OtherRow(disk[1..], live, more, row);
      DoneConcat(disk[0].name, live + [row], more);
      DoneConcat(disk[0].name, live, [row]);
      DoneConcat(disk[0].name, live, more);
    }
  }

  lemma DoneConcat(name: string, a: seq<Row>, b: seq<Row>)
    ensures Done(name, a + b) <==> Done(name, a) || Done(name, b)
  {
    if Done(name, a) {
      var i :| 0 <= i < |a| && a[i].name == name;
      assert (a + b)[i].name == name;
    }
    if Done(name, b) {
      var i :| 0 <= i < |b| && b[i].name == name;
      assert (a + b)[|a| + i].name == name;
    }
  }

  lemma FirstIsPending(first: MigrationFile, rest: seq<MigrationFile>, live: seq<Row>, row: Row, more: seq<Row>)
    requires row.name == first.name && forall m :: m in rest ==> m.name != first.name
    ensures NotDone([first] + rest, live + ([row] + more)) == NotDone(rest, live + more)
  {
    assert live + ([row] + more) == live + [row] + more;
    OtherRow(rest, live, more, row);
    assert (live + [row] + more)[|live|].name == first.name;
    assert ([first] + rest)[1..] == rest;
    assert [] + NotDone(rest, live + more) == NotDone(rest, live + more);
  }

  lemma FirstRow<T>(first: MigrationFile, pending: seq<MigrationFile>, k: nat, w: World<T>)
    requires 0 < k <= |pending| + 1
    ensures RowsFor(([first] + pending)[..k], w) == [HistoryRow(first, w)] + RowsFor(pending[..k - 1], w)
  {
    assert ([first] + pending)[..k] == [first] + pending[..k - 1];
    assert ([first] + pending[..k - 1])[1..] == pending[..k - 1];
  }

  /** Applying the first k pending files leaves the others pending, in the same order. */
  lemma {:induction false} RestIsPending<T>(disk: seq<MigrationFile>, live: seq<Row>, k: nat, w: World<T>)
    requires DistinctNames(disk) && k <= |NotDone(disk, live)|
    ensures NotDone(disk, live + RowsFor(NotDone(disk, live)[..k], w)) == NotDone(disk, live)[k..]
  {
    if k == 0 {
      assert NotDone(disk, live)[..0] == [];
      assert live + [] == live;
    } else {
      var first, rest := disk[0], disk[1..];
      var pending := NotDone(rest, live);
      assert [first] + rest == disk;
      if Done(first.name, live) {
        assert [] + pending == pending;
        RestIsPending(rest, live, k, w);
        DoneConcat(first.name, live, RowsFor(pending[..k], w));
      } else {
        RestIsPending(rest, live, k - 1, w);
        FirstRow(first, pending, k, w);
        FirstIsPending(first, rest, live, HistoryRow(first, w), RowsFor(pending[..k - 1], w));
        assert ([first] + pending)[k..] == pending[k - 1..];
      }
    }
  }

  /**
   * Whether a run succeeds or fails, the next plan on any re-checkout of the same migrations is the part of the plan
   * that was not applied; after a run that succeeds it is empty.
   */
  lemma NextPlanIsTheRest<T>(db: Content<T>, disk: seq<MigrationFile>, again: seq<MigrationFile>, w: World<T>)
    requires DistinctNames(disk) && Recheckout(disk, again, w.hash)
    requires PlanMigrations(disk, db.history, w.hash).Pending?
    ensures var pending := PlanMigrations(disk, db.history, w.hash).files;
            var r := RunPending(db, pending, w);
            var next := PlanMigrations(again, r.content.history, w.hash);
            && next.Pending? && Names(next.files) == Names(pending[r.applied..])
            && (r.error.None? ==> next.files == [])
  {
    var pending := PlanMigrations(disk, db.history, w.hash).files;
    var r := RunPending(db, pending, w);
    var live, applied := Live(db.history), pending[..r.applied];
    RunAppliesPrefix(db, pending, w);
    NotDoneMembers(disk, live);
    NextPlanIsMade(disk, again, db.history, applied, w);
    RestIsPending(disk, live, r.applied, w);
    NamesNotDone(disk, again, live + RowsFor(applied, w));
    assert pending == NotDone(disk, live);
  }

  // ----- Starting over after a failure

  /** Other surroundings, where whatever works under w works too and leaves the same tables. Times may differ. */
  ghost predicate Recovers<T(!new)>(w: World<T>, other: World<T>) {
    && other.hash == w.hash && other.hasUserTables == w.hasUserTables
    && forall m, t {:trigger Works(t, m, w)} ::
         Works(t, m, w) ==> Works(t, m, other) && Ran(t, other.exec(m, t).acts).tables == Ran(t, w.exec(m, t).acts).tables
  }

  /** The migration that fails, if any, leaves nothing behind. */
  ghost predicate FailsClean<T>(db: Content<T>, pending: seq<MigrationFile>, w: World<T>) {
    var r := RunPending(db, pending, w);
    r.error.Some? ==>
      var done, m := Replay(db.tables, pending[..r.applied], w), pending[r.applied];
      w.fault(m).BeginFails? || !LeavesChanges(done, w.exec(m, done).acts)
  }

  /** The same rows, but for the time at which each was finished. */
  ghost predicate SameButTimes(a: seq<Row>, b: seq<Row>) {
    && |a| == |b|
    && forall i :: 0 <= i < |a| ==> a[i].(finishedAt := b[i].finishedAt) == b[i] && (a[i].finishedAt.Some? <==> b[i].finishedAt.Some?)
  }

  /** What works first works in the other surroundings, and the rest follows from where it leaves off. */
  lemma {:induction false} RunOnward<T(!new)>(db: Content<T>, pending: seq<MigrationFile>, w: World<T>, other: World<T>)
    requires Recovers(w, other)
    ensures var k := RunPending(db, pending, w).applied;
            && Replay(db.tables, pending[..k], other) == Replay(db.tables, pending[..k], w)
            && var rest := RunPending(Reached(db, pending[..k], other), pending[k..], other);
               RunPending(db, pending, other) == rest.(applied := k + rest.applied)
    decreases |pending|
  {
    var k := RunPending(db, pending, w).applied;
    if k == 0 {
      assert pending[..0] == [] && pending[0..] == pending;
      assert db.history + [] == db.history;
    } else {
      var m, rest := pending[0], pending[1..];
      RunFirst(db, pending, w);
      assert Works(db.tables, m, w);
      RunFirst(db, pending, other);
      var next := Then(db, m, other);
      IgnoresHistory(next.tables, Then(db, m, w).history, next.history, rest, w);
      assert RunPending(next, rest, w).applied == k - 1;
      RunOnward(next, rest, w, other);
      var done := pending[..k];
      assert done[0] == m && done[1..] == rest[..k - 1] && pending[k..] == rest[k - 1..];
      ReachedThrough(db, done, other);
    }
  }

  lemma {:induction false} IgnoresHistory<T>(tables: T, history: seq<Row>, others: seq<Row>, pending: seq<MigrationFile>, w: World<T>)
    ensures var r, q := RunPending(Content(tables, history), pending, w), RunPending(Content(tables, others), pending, w);
            r.content.tables == q.content.tables && r.applied == q.applied && r.error == q.error
    decreases |pending|
  {
    if pending != [] {
      var db, db2 := Content(tables, history), Content(tables, others);
      RunFirst(db, pending, w);
      RunFirst(db2, pending, w);
      if Works(tables, pending[0], w) {
        IgnoresHistory(Then(db, pending[0], w).tables, Then(db, pending[0], w).history, Then(db2, pending[0], w).history, pending[1..], w);
      } else {
        AppliedWorks(db, pending[0], w);
        AppliedWorks(db2, pending[0], w);
      }
    }
  }

  lemma {:induction false} RowsButTimes<T>(files: seq<MigrationFile>, w: World<T>, other: World<T>)
    requires other.hash == w.hash
    ensures SameButTimes(RowsFor(files, w), RowsFor(files, other))
  {
    if files != [] { RowsButTimes(files[1..], w, other); }
  }

  /** Running the rest of a plan from where a failed run left off is like running the whole of it at once. */
  lemma RestOfTheRun<T(!new)>(db: Content<T>, pending: seq<MigrationFile>, w: World<T>, other: World<T>)
    requires Recovers(w, other) && FailsClean(db, pending, w)
    ensures var first := RunPending(db, pending, w);
            var again := RunPending(first.content, pending[first.applied..], other);
            var once := RunPending(db, pending, other);
            && again.content.tables == once.content.tables && again.error == once.error
            && once.applied == first.applied + again.applied
            && SameButTimes(again.content.history, once.content.history)
  {
    var first := RunPending(db, pending, w);
    var done, left := pending[..first.applied], pending[first.applied..];
    CleanPrefix(db, pending, w);
    RunOnward(db, pending, w, other);
    var was, there := first.content, Reached(db, done, other);
    IgnoresHistory(was.tables, was.history, there.history, left, other);
    RowsButTimes(done, w, other);
    SameAfter(was, there, left, other);
  }

  lemma CleanPrefix<T>(db: Content<T>, pending: seq<MigrationFile>, w: World<T>)
    requires FailsClean(db, pending, w)
    ensures var r := RunPending(db, pending, w); r.content == Reached(db, pending[..r.applied], w)
  {
    RunAppliesPrefix(db, pending, w);
    if RunPending(db, pending, w).error.Some? { FailureUndoneIff(db, pending, w); }
  }

  lemma SameConcat(a: seq<Row>, b: seq<Row>, c: seq<Row>)
    requires SameButTimes(a, b)
    ensures SameButTimes(a + c, b + c)
  {
  }

  lemma RunHistory<T>(db: Content<T>, files: seq<MigrationFile>, w: World<T>)
    ensures var r := RunPending(db, files, w); r.content.history == db.history + RowsFor(files[..r.applied], w)
  {
    RunAppliesPrefix(db, files, w);
  }

  lemma SameAfter<T>(a: Content<T>, b: Content<T>, files: seq<MigrationFile>, w: World<T>)
    requires a.tables == b.tables && SameButTimes(a.history, b.history)
    ensures SameButTimes(RunPending(a, files, w).content.history, RunPending(b, files, w).content.history)
  {
    IgnoresHistory(a.tables, a.history, b.history, files, w);
    RunHistory(a, files, w);
    RunHistory(b, files, w);
    SameConcat(a.history, b.history, RowsFor(files[..RunPending(a, files, w).applied], w));
  }

  /**
   * If a call fails, for whatever reason, and what fails leaves nothing behind, calling again in surroundings where
   * all that worked still does ends as one call in those surroundings would have, be it in success or in another
   * failure. In particular the new call does not find the database without a history.
   */
  lemma StartingOverEndsAlike<T(!new)>(db: Content<T>, disk: seq<MigrationFile>, w: World<T>, other: World<T>, noBackup: Option<Failure>)
    requires DistinctNames(disk) && Recovers(w, other) && Migrate(db, disk, w, noBackup).result.Threw?
    requires var plan := PlanMigrations(disk, db.history, w.hash); plan.Pending? ==> FailsClean(db, plan.files, w)
    ensures var again := Migrate(Migrate(db, disk, w, noBackup).content, disk, other, None);
            var once := Migrate(db, disk, other, None);
            && again.content.tables == once.content.tables && SameButTimes(again.content.history, once.content.history)
            && (again.result.Threw? || once.result.Threw? ==> again.result == once.result)
  {
    var first := Migrate(db, disk, w, noBackup);
    var plan := PlanMigrations(disk, db.history, w.hash);
    if first.content != db {
      var r := RunPending(db, plan.files, w);
      PlanAfterFailure(db, disk, w);
      RestOfTheRun(db, plan.files, w, other);
      FailureUndoneIff(db, plan.files, w);
      assert r.applied > 0;
    }
  }

  /** The plan after a failed run is the part that was not applied, the failing migration first. */
  lemma PlanAfterFailure<T>(db: Content<T>, disk: seq<MigrationFile>, w: World<T>)
    requires DistinctNames(disk) && PlanMigrations(disk, db.history, w.hash).Pending?
    requires RunPending(db, PlanMigrations(disk, db.history, w.hash).files, w).error.Some?
    ensures var pending := PlanMigrations(disk, db.history, w.hash).files;
            var r := RunPending(db, pending, w);
            && PlanMigrations(disk, r.content.history, w.hash) == Pending(pending[r.applied..])
            && pending[r.applied..] != []
            && |r.content.history| == |db.history| + r.applied
  {
    var live := Live(db.history);
    var pending := NotDone(disk, live);
    var r := RunPending(db, pending, w);
    RunAppliesPrefix(db, pending, w);
    NotDoneMembers(disk, live);
    NextPlanIsMade(disk, disk, db.history, pending[..r.applied], w);
    RestIsPending(disk, live, r.applied, w);
    RowsForEach(pending[..r.applied], w);
  }

  lemma {:induction false} RowsForEach<T>(files: seq<MigrationFile>, w: World<T>)
    ensures |RowsFor(files, w)| == |files|
  {
    if files != [] { RowsForEach(files[1..], w); }
  }

  /**
   * Calling again after a run that failed is refused for a database without a history exactly when it was the very
   * first migration that failed, and its SQL made tables durable.
   */
  lemma RetryRefusedIff<T(!new)>(db: Content<T>, disk: seq<MigrationFile>, w: World<T>, other: World<T>)
    requires DistinctNames(disk) && Recovers(w, other)
    requires Migrate(db, disk, w, None).result.Threw? && Migrate(db, disk, w, None).content != db
    ensures var pending := PlanMigrations(disk, db.history, w.hash).files;
            Migrate(Migrate(db, disk, w, None).content, disk, other, None).result == Threw(Failure(DB_NOT_EMPTY, None))
            <==> db.history == [] && RunPending(db, pending, w).applied == 0 && w.hasUserTables(AfterFailure(db.tables, pending[0], w))
  {
    var plan := PlanMigrations(disk, db.history, w.hash);
    PlanAfterFailure(db, disk, w);
    RunAppliesPrefix(db, plan.files, w);
    var after := Migrate(db, disk, w, None).content;
    var left := plan.files[RunPending(db, plan.files, w).applied..];
    RunErrors(after, left, other);
  }

  /** No run ends with the refusal of a database without a history. */
  lemma {:induction false} RunErrors<T>(db: Content<T>, pending: seq<MigrationFile>, w: World<T>)
    ensures RunPending(db, pending, w).error != Some(Failure(DB_NOT_EMPTY, None))
    decreases |pending|
  {
    if pending != [] { RunErrors(Apply(db, pending[0], w).content, pending[1..], w); }
  }

  /** Each file holds its text with LF or with CRLF line endings. */
  ghost predicate Checkout(disk: seq<MigrationFile>, names: seq<string>, texts: seq<string>) {
    && |disk| == |names| == |texts|
    && forall i :: 0 <= i < |disk| ==> disk[i].name == names[i] && disk[i].sql in {texts[i], ToCrlf(texts[i])}
  }

  lemma AnyCheckoutWillDo(disk: seq<MigrationFile>, again: seq<MigrationFile>, names: seq<string>, texts: seq<string>, hash: string -> string)
    requires Checkout(disk, names, texts) && Checkout(again, names, texts)
    requires forall i :: 0 <= i < |texts| ==> NoCrlf(texts[i])
    ensures Recheckout(disk, again, hash)
  {
    forall i | 0 <= i < |disk|
      ensures AcceptedChecksums(disk[i].sql, hash) == AcceptedChecksums(again[i].sql, hash)
    {
      CheckoutAccepts(texts[i], hash);
    }
  }

  lemma NothingLeftToPlan<T>(db: Content<T>, disk: seq<MigrationFile>, again: seq<MigrationFile>, w: World<T>, noBackup: Option<Failure>)
    requires DistinctNames(disk) && Recheckout(disk, again, w.hash)
    requires Migrate(db, disk, w, noBackup).result.Ok?
    ensures var history := Migrate(db, disk, w, noBackup).content.history;
            PlanMigrations(again, history, w.hash) == Pending([]) && again != [] && history != []
  {
    NextPlanIsTheRest(db, disk, again, w);
    var after := Migrate(db, disk, w, noBackup).content;
    assert after == RunPending(db, PlanMigrations(disk, db.history, w.hash).files, w).content;
    assert again[0].name == disk[0].name;
    assert NotDone(again, Live(after.history)) == [];
    assert Done(again[0].name, Live(after.history));
  }

  /** Running again after a success changes nothing, even if the files switch between LF and CRLF meanwhile. */
  lemma MigratingAgainDoesNothing<T>(db: Content<T>, disk: seq<MigrationFile>, again: seq<MigrationFile>, names: seq<string>,
                                     texts: seq<string>, w: World<T>, noBackup: Option<Failure>, noBackupAgain: Option<Failure>)
    requires DistinctNames(disk) && Checkout(disk, names, texts) && Checkout(again, names, texts)
    requires forall i :: 0 <= i < |texts| ==> NoCrlf(texts[i])
    requires Migrate(db, disk, w, noBackup).result.Ok?
    ensures var after := Migrate(db, disk, w, noBackup).content;
            Migrate(after, again, w, noBackupAgain) == Migrated(after, Ok([]))
  {
    AnyCheckoutWillDo(disk, again, names, texts, w.hash);
    NothingLeftToPlan(db, disk, again, w, noBackup);
  }
}
