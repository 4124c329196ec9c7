/** The migration runner: the `migrations/` directory, the
    `schema_migrations` table of applied versions and the statements the
    database has committed. Whether the database accepts a statement is a
    parameter, `accepts(history, statement)`, of the statements committed
    or executed before it in the same transaction. */
module Migrate {
  import opened Wrappers
  import opened Strings
  import opened Timestamps

  // -------------------------------------------------------------- versions

  /** A file's version: its name without a trailing `.sql`. */
  function Version(f: string): (v: string)
    ensures EndsWith(f, ".sql") ==> f == v + ".sql"
    ensures !EndsWith(f, ".sql") ==> v == f
  {
    if EndsWith(f, ".sql") then f[..|f| - 4] else f
  }

  /** Stripping `.sql` undoes appending it, and two `.sql` files with the
      same version are the same file. */
  lemma VersionRoundTrip(v: string, a: string, b: string)
    ensures Version(v + ".sql") == v
    ensures EndsWith(a, ".sql") && EndsWith(b, ".sql") && Version(a) == Version(b) ==> a == b
  {
    assert (v + ".sql")[|v|..] == ".sql";
  }

  /** What the glob `*.sql` in `migrations` matches: a name ending in `.sql`
      that does not start with a dot. */
  predicate IsMigrationFile(name: string) {
    EndsWith(name, ".sql") && name[0] != '.'
  }

  // -------------------------------------------------------------- ordering

  /** Python's `<` on strings: code point by code point, a proper prefix
      first. */
  predicate LexLt(a: string, b: string)
    decreases |a|
  {
    if |a| == 0 then |b| > 0
    else if |b| == 0 then false
    else if a[0] != b[0] then a[0] < b[0]
    else LexLt(a[1..], b[1..])
  }

  predicate LexLe(a: string, b: string) { a == b || LexLt(a, b) }

  lemma {:induction false} LexLtIrreflexive(a: string)
    ensures !LexLt(a, a)
    decreases |a|
  {
    if |a| > 0 {
      LexLtIrreflexive(a[1..]);
    }
  }

  lemma {:induction false} LexLtTransitive(a: string, b: string, c: string)
    requires LexLt(a, b) && LexLt(b, c)
    ensures LexLt(a, c)
    decreases |a|
  {
    if |a| > 0 && a[0] == b[0] && b[0] == c[0] {
      LexLtTransitive(a[1..], b[1..], c[1..]);
    }
  }

  lemma {:induction false} LexLtTotal(a: string, b: string)
    requires a != b
    ensures LexLt(a, b) || LexLt(b, a)
    decreases |a|
  {
    if |a| > 0 && |b| > 0 && a[0] == b[0] {
      assert a == [a[0]] + a[1..] && b == [b[0]] + b[1..];
      LexLtTotal(a[1..], b[1..]);
    }
  }

  /** `<` on strings is a strict total order. */
  lemma LexLtStrictTotalOrder(a: string, b: string, c: string)
    ensures !LexLt(a, a)
    ensures LexLt(a, b) ==> !LexLt(b, a)
    ensures LexLt(a, b) && LexLt(b, c) ==> LexLt(a, c)
    ensures a == b || LexLt(a, b) || LexLt(b, a)
  {
    LexLtIrreflexive(a);
    if LexLt(a, b) && LexLt(b, a) {
      LexLtTransitive(a, b, a);
    }
    if LexLt(a, b) && LexLt(b, c) {
      LexLtTransitive(a, b, c);
    }
    if a != b {
      LexLtTotal(a, b);
    }
  }

  lemma LexLeTransitive(a: string, b: string, c: string)
    requires LexLe(a, b) && LexLe(b, c)
    ensures LexLe(a, c)
  {
    if LexLt(a, b) && LexLt(b, c) {
      LexLtTransitive(a, b, c);
    }
  }

  predicate Sorted(xs: seq<string>) {
    forall i, j :: 0 <= i < j < |xs| ==> LexLe(xs[i], xs[j])
  }

  function Insert(x: string, xs: seq<string>): seq<string>
    decreases |xs|
  {
    if xs == [] then [x]
    else if LexLe(x, xs[0]) then [x] + xs
    else [xs[0]] + Insert(x, xs[1..])
  }

  /** Python's `sorted` on a list of strings. */
  function SortStrings(xs: seq<string>): seq<string>
    decreases |xs|
  {
    if xs == [] then [] else Insert(xs[0], SortStrings(xs[1..]))
  }

  lemma {:induction false} InsertPermutes(x: string, xs: seq<string>)
    ensures multiset(Insert(x, xs)) == multiset(xs) + multiset{x}
    decreases |xs|
  {
    if xs != [] && !LexLe(x, xs[0]) {
      InsertPermutes(x, xs[1..]);
      assert xs == [xs[0]] + xs[1..];
    }
  }

  lemma {:induction false} InsertSorted(x: string, xs: seq<string>)
    requires Sorted(xs)
    ensures Sorted(Insert(x, xs))
    decreases |xs|
  {
    if xs == [] {
    } else if LexLe(x, xs[0]) {
      var r := [x] + xs;
      forall i, j | 0 <= i < j < |r| ensures LexLe(r[i], r[j]) {
        if i == 0 && j > 1 {
          LexLeTransitive(x, xs[0], xs[j - 1]);
        }
      }
    } else {
      LexLtTotal(x, xs[0]);
      var rest := Insert(x, xs[1..]);
      InsertSorted(x, xs[1..]);
      InsertPermutes(x, xs[1..]);
      var r := [xs[0]] + rest;
      forall i, j | 0 <= i < j < |r| ensures LexLe(r[i], r[j]) {
        if i == 0 {
          var y := r[j];
          assert y in multiset(rest);
          if y != x {
            assert y in multiset(xs[1..]);
            var k :| 0 <= k < |xs[1..]| && xs[1..][k] == y;
            assert xs[k + 1] == y;
          }
        } else {
          assert r[i] == rest[i - 1] && r[j] == rest[j - 1];
        }
      }
    }
  }

  /** `sorted` returns an ordered permutation of its input. */
  lemma {:induction false} SortStringsSortsAndPermutes(xs: seq<string>)
    ensures Sorted(SortStrings(xs))
    ensures multiset(SortStrings(xs)) == multiset(xs)
    decreases |xs|
  {
    if xs != [] {
      SortStringsSortsAndPermutes(xs[1..]);
      InsertSorted(xs[0], SortStrings(xs[1..]));
      InsertPermutes(xs[0], SortStrings(xs[1..]));
      assert xs == [xs[0]] + xs[1..];
    }
  }

  // ------------------------------------------------------------- directory

  /** One file of `migrations/`. */
  datatype FileEntry = FileEntry(name: string, content: string)

  predicate DistinctNames(dir: seq<FileEntry>) {
    forall i, j :: 0 <= i < j < |dir| ==> dir[i].name != dir[j].name
  }

  /** Reading `migrations/<name>`: None when no such file exists. */
  function Lookup(dir: seq<FileEntry>, name: string): (r: Option<string>)
    ensures r.None? <==> forall i :: 0 <= i < |dir| ==> dir[i].name != name
    decreases |dir|
  {
    if dir == [] then None
    else if dir[0].name == name then Some(dir[0].content)
    else Lookup(dir[1..], name)
  }

  /** The names `glob` matches, in directory order. */
  function Globbed(dir: seq<FileEntry>): (names: seq<string>)
    ensures forall x :: x in names <==> IsMigrationFile(x) && Lookup(dir, x).Some?
    decreases |dir|
  {
    if dir == [] then []
    else (if IsMigrationFile(dir[0].name) then [dir[0].name] else []) + Globbed(dir[1..])
  }

  /** `get_migration_files`. */
  function MigrationFiles(dir: seq<FileEntry>): seq<string>
  {
    SortStrings(Globbed(dir))
  }

  /** The migration files are the matching names of the directory, each
      once, in ascending order. */
  lemma MigrationFilesContract(dir: seq<FileEntry>)
    ensures Sorted(MigrationFiles(dir))
    ensures forall x :: x in MigrationFiles(dir) <==> IsMigrationFile(x) && Lookup(dir, x).Some?
  {
    SortStringsSortsAndPermutes(Globbed(dir));
    forall x ensures x in MigrationFiles(dir) <==> x in Globbed(dir) {
      assert x in MigrationFiles(dir) <==> x in multiset(MigrationFiles(dir));
    }
  }

  // --------------------------------------------------------------- pending

  /** The files whose version is not yet applied, in the order given. */
  function Pending(files: seq<string>, applied: seq<string>): seq<string>
    decreases |files|
  {
    if files == [] then []
    else
      var last := files[|files| - 1];
      Pending(files[..|files| - 1], applied) + (if Version(last) !in applied then [last] else [])
  }

  /** `a` is `b` with some elements left out, the rest in their order:
      element k of `a` is element idx[k] of `b`, with idx increasing. */
  predicate SubsequenceAt(a: seq<string>, b: seq<string>, idx: seq<nat>) {
    && |idx| == |a|
    && (forall k :: 0 <= k < |a| ==> idx[k] < |b| && a[k] == b[idx[k]])
    && (forall k, l :: 0 <= k < l < |a| ==> idx[k] < idx[l])
  }

  /** The pending list holds exactly the files whose version is not
      applied, as an order-preserving subsequence of the files; so the
      pending list of a sorted list is sorted. */
  lemma {:induction false} PendingContract(files: seq<string>, applied: seq<string>) returns (idx: seq<nat>)
    ensures SubsequenceAt(Pending(files, applied), files, idx)
    ensures forall x :: x in Pending(files, applied) <==> x in files && Version(x) !in applied
    ensures Sorted(files) ==> Sorted(Pending(files, applied))
    decreases |files|
  {
    var p := Pending(files, applied);
    if files == [] {
      idx := [];
    } else {
      var init := files[..|files| - 1];
      var last := files[|files| - 1];
      var before := PendingContract(init, applied);
      assert files == init + [last];
      if Version(last) !in applied {
        idx := before + [|files| - 1];
      } else {
        idx := before;
      }
      assert SubsequenceAt(p, files, idx);
    }
    if Sorted(files) {
      forall k, l | 0 <= k < l < |p| ensures LexLe(p[k], p[l]) {
        assert p[k] == files[idx[k]] && p[l] == files[idx[l]];
      }
    }
  }

  /** The loop of `run_migrations` that collects the pending files. */
  method PendingMigrations(files: seq<string>, applied: seq<string>) returns (pending: seq<string>)
    ensures pending == Pending(files, applied)
  {
    pending := [];
    var i := 0;
    while i < |files|
      invariant 0 <= i <= |files|
      invariant pending == Pending(files[..i], applied)
    {
      assert files[..i + 1][..i] == files[..i];
      if Version(files[i]) !in applied {
        pending := pending + [files[i]];
      }
      i := i + 1;
    }
    assert files[..|files|] == files;
  }

  // ------------------------------------------------------------ statements

  /** One piece of the split: stripped, or dropped when blank. */
  function Piece(part: string): seq<string>
  {
    var t := Strip(part);
    if t == "" then [] else [t]
  }

  /** A kept piece is non-blank, has no whitespace at either end (so
      stripping it again changes nothing), and is made of the part's
      characters. */
  lemma PieceShape(part: string)
    ensures |Piece(part)| <= 1
    ensures |Piece(part)| == 1 ==> Stripped(Piece(part)[0]) && forall c :: c in Piece(part)[0] ==> c in part
  {
    var t := Strip(part);
    if t != "" {
      assert forall c :: c in t ==> c in part;
    }
  }

  /** Non-empty, with no whitespace at either end. */
  predicate Stripped(s: string) {
    |s| > 0 && !IsPyWhitespace(s[0]) && !IsPyWhitespace(s[|s| - 1])
  }

  /** `[s.strip() for s in parts if s.strip()]`. */
  function StrippedPieces(parts: seq<string>): seq<string>
    decreases |parts|
  {
    if parts == [] then [] else Piece(parts[0]) + StrippedPieces(parts[1..])
  }

  /** The statements of a migration: its text split on `;`, each piece
      stripped, blank pieces dropped. */
  function Statements(sql: string): seq<string>
  {
    StrippedPieces(Split(sql, ';'))
  }

  lemma {:induction false} StrippedPiecesAppend(a: seq<string>, b: seq<string>)
    ensures StrippedPieces(a + b) == StrippedPieces(a) + StrippedPieces(b)
    decreases |a|
  {
    if a == [] {
      assert a + b == b;
    } else {
      assert (a + b)[0] == a[0] && (a + b)[1..] == a[1..] + b;
      StrippedPiecesAppend(a[1..], b);
      var h := Piece(a[0]);
      assert h + (StrippedPieces(a[1..]) + StrippedPieces(b)) == (h + StrippedPieces(a[1..])) + StrippedPieces(b);
    }
  }

  /** A statement as the loop receives it: stripped and free of `sep`. */
  predicate Clean(s: string, sep: char) {
    Stripped(s) && sep !in s
  }

  lemma PieceClean(part: string, sep: char)
    requires sep !in part
    ensures forall j :: 0 <= j < |Piece(part)| ==> Clean(Piece(part)[j], sep)
  {
    PieceShape(part);
  }

  /** The k-th kept piece of parts free of `sep` is clean. */
  lemma {:induction false} StrippedPiecesShape(parts: seq<string>, sep: char, k: nat)
    requires forall i :: 0 <= i < |parts| ==> sep !in parts[i]
    requires k < |StrippedPieces(parts)|
    ensures Clean(StrippedPieces(parts)[k], sep)
    decreases |parts|
  {
    var head := Piece(parts[0]);
    var tail := StrippedPieces(parts[1..]);
    assert StrippedPieces(parts) == head + tail;
    if k < |head| {
      PieceClean(parts[0], sep);
      assert StrippedPieces(parts)[k] == head[k];
    } else {
      StrippedPiecesShape(parts[1..], sep, k - |head|);
      assert StrippedPieces(parts)[k] == tail[k - |head|];
    }
  }

  /** Every statement is non-blank, free of `;`, and has no whitespace at
      either end, so stripping it again changes nothing. */
  lemma StatementsShape(sql: string, k: nat)
    requires k < |Statements(sql)|
    ensures Stripped(Statements(sql)[k]) && ';' !in Statements(sql)[k]
    ensures Strip(Statements(sql)[k]) == Statements(sql)[k]
  {
    StrippedPiecesShape(Split(sql, ';'), ';', k);
    StripUntouched(Statements(sql)[k]);
  }

  /** The statements of two texts joined by `;` are those of the first
      followed by those of the second. */
  lemma StatementsConcat(a: string, b: string)
    ensures Statements(a + [';'] + b) == Statements(a) + Statements(b)
  {
    SplitConcat(a, ';', b);
    StrippedPiecesAppend(Split(a, ';'), Split(b, ';'));
  }

  // ------------------------------------------------------------- migrating

  /** The tracking table and the committed statements. */
  datatype Db = Db(applied: seq<string>, schema: seq<string>)

  /** Each of the first n statements is accepted after everything
      before it. */
  predicate AcceptedUpTo(schema: seq<string>, stmts: seq<string>, n: nat, accepts: (seq<string>, string) -> bool)
    requires n <= |stmts|
  {
    forall i :: 0 <= i < n ==> accepts(schema + stmts[..i], stmts[i])
  }

  predicate AllAccepted(schema: seq<string>, stmts: seq<string>, accepts: (seq<string>, string) -> bool) {
    AcceptedUpTo(schema, stmts, |stmts|, accepts)
  }

  /** `run_migration`: a missing file fails; a blank one succeeds without
      being recorded; otherwise all statements run in one transaction,
      rolled back if any is refused, and after the commit the version is
      inserted, which fails on a version already recorded. */
  function Migrate(dir: seq<FileEntry>, db: Db, file: string, accepts: (seq<string>, string) -> bool): (bool, Db)
  {
    match Lookup(dir, file)
    case None => (false, db)
    case Some(sql) =>
      if Strip(sql) == "" then (true, db)
      else
        var stmts := Statements(sql);
        if !AllAccepted(db.schema, stmts, accepts) then (false, db)
        else if Version(file) in db.applied then (false, Db(db.applied, db.schema + stmts))
        else (true, Db(db.applied + [Version(file)], db.schema + stmts))
  }

  /** A version is recorded only for an existing file whose every
      statement was accepted and committed before it. */
  lemma MigrateRecordsOnlyAfterCommit(dir: seq<FileEntry>, db: Db, file: string,
                                      accepts: (seq<string>, string) -> bool)
    requires Migrate(dir, db, file, accepts).1.applied != db.applied
    ensures Migrate(dir, db, file, accepts).0 && Lookup(dir, file).Some?
    ensures var stmts := Statements(Lookup(dir, file).value);
      && Migrate(dir, db, file, accepts).1 == Db(db.applied + [Version(file)], db.schema + stmts)
      && AllAccepted(db.schema, stmts, accepts)
  {
  }

  /** A failure records nothing; the committed statements are either
      unchanged or extended by exactly the file's statements, and a
      failure extends them only when the file's version was already
      recorded, so that the INSERT after the commit is refused. */
  lemma MigrateFailureRecordsNothing(dir: seq<FileEntry>, db: Db, file: string,
                                     accepts: (seq<string>, string) -> bool)
    ensures !Migrate(dir, db, file, accepts).0 ==> Migrate(dir, db, file, accepts).1.applied == db.applied
    ensures var after := Migrate(dir, db, file, accepts).1;
      after.schema == db.schema
      || (Lookup(dir, file).Some? && after.schema == db.schema + Statements(Lookup(dir, file).value))
    ensures var (ok, after) := Migrate(dir, db, file, accepts);
      !ok && after.schema != db.schema ==>
        && Lookup(dir, file).Some? && Version(file) in db.applied
        && AllAccepted(db.schema, Statements(Lookup(dir, file).value), accepts)
  {
  }

  /** A success that records nothing is a blank file. */
  lemma MigrateSilentSuccessIsBlank(dir: seq<FileEntry>, db: Db, file: string,
                                    accepts: (seq<string>, string) -> bool)
    requires Migrate(dir, db, file, accepts).0 && Migrate(dir, db, file, accepts).1.applied == db.applied
    ensures Lookup(dir, file).Some? && Strip(Lookup(dir, file).value) == ""
  {
  }

  /** A blank migration succeeds but is never recorded, so it is pending
      again on the next run. */
  lemma BlankMigrationStaysPending(dir: seq<FileEntry>, db: Db, file: string, files: seq<string>,
                                   accepts: (seq<string>, string) -> bool)
    requires Lookup(dir, file).Some? && Strip(Lookup(dir, file).value) == ""
    requires file in Pending(files, db.applied)
    ensures Migrate(dir, db, file, accepts).0
    ensures file in Pending(files, Migrate(dir, db, file, accepts).1.applied)
  {
  }

  /** `run_migrations`' application loop: run the files in order and stop
      at the first that fails. */
  function ApplyAll(dir: seq<FileEntry>, db: Db, files: seq<string>, accepts: (seq<string>, string) -> bool): (bool, Db)
    decreases |files|
  {
    if files == [] then (true, db)
    else
      var (ok, next) := Migrate(dir, db, files[0], accepts);
      if !ok then (false, next) else ApplyAll(dir, next, files[1..], accepts)
  }

  /** Running a list that is one list followed by another runs the first
      and, only if all of it succeeded, the second. */
  lemma {:induction false} ApplyAllAppend(dir: seq<FileEntry>, db: Db, a: seq<string>, b: seq<string>,
                                          accepts: (seq<string>, string) -> bool)
    ensures var (ok, mid) := ApplyAll(dir, db, a, accepts);
      ApplyAll(dir, db, a + b, accepts) == if ok then ApplyAll(dir, mid, b, accepts) else (false, mid)
    decreases |a|
  {
    if a == [] {
      assert a + b == b;
    } else {
      assert (a + b)[0] == a[0] && (a + b)[1..] == a[1..] + b;
      var (ok, next) := Migrate(dir, db, a[0], accepts);
      if ok {
        ApplyAllAppend(dir, next, a[1..], b, accepts);
      }
    }
  }

  /** Once a file fails, the later files are never attempted: the outcome
      is that of the files up to and including the failing one. */
  lemma ApplyAllStopsAtFailure(dir: seq<FileEntry>, db: Db, files: seq<string>, k: nat,
                               accepts: (seq<string>, string) -> bool)
    requires k < |files|
    requires !ApplyAll(dir, db, files[..k + 1], accepts).0
    ensures ApplyAll(dir, db, files, accepts) == ApplyAll(dir, db, files[..k + 1], accepts)
  {
    ApplyAllAppend(dir, db, files[..k + 1], files[k + 1..], accepts);
    assert files[..k + 1] + files[k + 1..] == files;
  }

  /** A run that succeeds keeps every recorded version and records the
      version of every file it ran, except the blank ones. */
  lemma {:induction false} ApplyAllSuccessRecords(dir: seq<FileEntry>, db: Db, files: seq<string>,
                                                  accepts: (seq<string>, string) -> bool)
    requires ApplyAll(dir, db, files, accepts).0
    ensures var after := ApplyAll(dir, db, files, accepts).1;
      && db.applied <= after.applied
      && forall f :: f in files ==>
           Version(f) in after.applied || (Lookup(dir, f).Some? && Strip(Lookup(dir, f).value) == "")
    decreases |files|
  {
    if files != [] {
      var (ok, next) := Migrate(dir, db, files[0], accepts);
      if next.applied != db.applied {
        MigrateRecordsOnlyAfterCommit(dir, db, files[0], accepts);
      } else {
        MigrateSilentSuccessIsBlank(dir, db, files[0], accepts);
      }
      ApplyAllSuccessRecords(dir, next, files[1..], accepts);
      var after := ApplyAll(dir, db, files, accepts).1;
      forall f | f in files
        ensures Version(f) in after.applied || (Lookup(dir, f).Some? && Strip(Lookup(dir, f).value) == "")
      {
        if f != files[0] {
          assert f in files[1..];
        } else if next.applied != db.applied {
          assert Version(f) in next.applied;
        }
      }
    }
  }

  /** `run_migrations`: nothing to do without migration files; otherwise
      the pending files of the sorted list are applied in order. */
  function RunAll(dir: seq<FileEntry>, db: Db, accepts: (seq<string>, string) -> bool): (bool, Db)
  {
    var files := MigrationFiles(dir);
    if files == [] then (true, db)
    else ApplyAll(dir, db, Pending(files, db.applied), accepts)
  }

  /** After a successful run, only blank migrations are still pending:
      running again would record nothing new. */
  lemma SuccessfulRunLeavesOnlyBlank(dir: seq<FileEntry>, db: Db, accepts: (seq<string>, string) -> bool)
    requires RunAll(dir, db, accepts).0
    ensures var after := RunAll(dir, db, accepts).1;
      forall f :: f in Pending(MigrationFiles(dir), after.applied) ==>
        Lookup(dir, f).Some? && Strip(Lookup(dir, f).value) == ""
  {
    var files := MigrationFiles(dir);
    var after := RunAll(dir, db, accepts).1;
    var _ := PendingContract(files, after.applied);
    if files != [] {
      var _ := PendingContract(files, db.applied);
      ApplyAllSuccessRecords(dir, db, Pending(files, db.applied), accepts);
      forall f | f in Pending(files, after.applied)
        ensures Lookup(dir, f).Some? && Strip(Lookup(dir, f).value) == ""
      {
        assert Version(f) !in db.applied;
      }
    }
  }

  // ------------------------------------------------------------- creation

  /** `<YYYYMMDD_HHMMSS>_<name>.sql`. */
  function MigrationFileName(t: DateTime, name: string): string
  {
    CompactStamp(t) + "_" + name + ".sql"
  }

  /** The file `create_migration` writes; `created` is the ISO form of the
      creation time. */
  function Template(name: string, created: string): string
  {
    "-- Migration: " + name + "\n-- Created: " + created + "\n\n"
    + "-- Add your SQL statements here\n-- Each statement should end with a semicolon\n\n"
    + "-- Example:\n-- CREATE TABLE example (\n--     id SERIAL PRIMARY KEY,\n"
    + "--     name VARCHAR(255) NOT NULL\n-- );\n"
  }

  /** A created file is a migration file whose version is the stamp and
      the name; unless that version is already applied it is pending. */
  lemma CreatedMigrationIsPending(dir: seq<FileEntry>, t: DateTime, name: string, created: string,
                                  applied: seq<string>)
    requires Version(MigrationFileName(t, name)) !in applied
    ensures var f := MigrationFileName(t, name);
      && IsMigrationFile(f)
      && Version(f) == CompactStamp(t) + "_" + name
      && f in Pending(MigrationFiles(dir + [FileEntry(f, Template(name, created))]), applied)
  {
    var f := MigrationFileName(t, name);
    var stem := CompactStamp(t) + "_" + name;
    VersionRoundTrip(stem, f, f);
    assert f[0] == CompactStamp(t)[0];
    var dir' := dir + [FileEntry(f, Template(name, created))];
    assert dir'[|dir|].name == f;
    MigrationFilesContract(dir');
    var _ := PendingContract(MigrationFiles(dir'), applied);
  }

  /** The statement loop of `run_migration`: execute in order, stopping
      at the first the database refuses. */
  method ExecuteStatements(schema: seq<string>, stmts: seq<string>, accepts: (seq<string>, string) -> bool)
    returns (ok: bool)
    ensures ok <==> AllAccepted(schema, stmts, accepts)
  {
    var i := 0;
    while i < |stmts|
      invariant 0 <= i <= |stmts|
      invariant AcceptedUpTo(schema, stmts, i, accepts)
    {
      if !accepts(schema + stmts[..i], stmts[i]) {
        return false;
      }
      i := i + 1;
    }
    return true;
  }

  // ------------------------------------------------------------- workspace

  predicate Distinct(xs: seq<string>) {
    forall i, j :: 0 <= i < j < |xs| ==> xs[i] != xs[j]
  }

  /** The migrations directory and the database it is applied to. */
  class Workspace {
    var dir: seq<FileEntry>
    var applied: seq<string>
    var schema: seq<string>

    /** File names are unique in a directory and `version` is UNIQUE. */
    predicate Valid()
      reads this
    {
      DistinctNames(dir) && Distinct(applied)
    }

    /** A directory and a database whose tracking table was just created. */
    constructor (files: seq<FileEntry>)
      requires DistinctNames(files)
      ensures Valid() && dir == files && applied == [] && schema == []
    {
      dir := files;
      applied := [];
      schema := [];
    }

    /** `run_migration`. */
    method RunMigration(file: string, accepts: (seq<string>, string) -> bool) returns (ok: bool)
      requires Valid()
      modifies this
      ensures Valid() && dir == old(dir)
      ensures (ok, Db(applied, schema)) == Migrate(dir, Db(old(applied), old(schema)), file, accepts)
    {
      var content := Lookup(dir, file);
      if content.None? {
        return false;
      }
      var sql := content.value;
      if Strip(sql) == "" {
        return true;
      }
      var stmts := Statements(sql);
      var accepted := ExecuteStatements(schema, stmts, accepts);
      if !accepted {
        return false;
      }
      schema := schema + stmts;
      var version := Version(file);
      if version in applied {
        return false;
      }
      applied := applied + [version];
      return true;
    }

    /** `run_migrations`. */
    method RunMigrations(accepts: (seq<string>, string) -> bool) returns (ok: bool)
      requires Valid()
      modifies this
      ensures Valid() && dir == old(dir)
      ensures (ok, Db(applied, schema)) == RunAll(dir, Db(old(applied), old(schema)), accepts)
    {
      var files := MigrationFiles(dir);
      if |files| == 0 {
        return true;
      }
      var pending := PendingMigrations(files, applied);
      if |pending| == 0 {
        return true;
      }
      ghost var start := Db(applied, schema);
      var i := 0;
      while i < |pending|
        invariant 0 <= i <= |pending|
        invariant Valid() && dir == old(dir)
        invariant ApplyAll(dir, start, pending, accepts) == ApplyAll(dir, Db(applied, schema), pending[i..], accepts)
      {
        assert pending[i..][0] == pending[i] && pending[i..][1..] == pending[i + 1..];
        var done := RunMigration(pending[i], accepts);
        if !done {
          return false;
        }
        i := i + 1;
      }
      return true;
    }

    /** `create_migration`: refuses an empty name and an existing file;
        otherwise writes the template under the stamped name. */
    method CreateMigration(name: string, t: DateTime, created: string) returns (ok: bool)
      requires Valid()
      modifies this
      ensures Valid() && applied == old(applied) && schema == old(schema)
      ensures ok <==> name != "" && Lookup(old(dir), MigrationFileName(t, name)).None?
      ensures ok ==> dir == old(dir) + [FileEntry(MigrationFileName(t, name), Template(name, created))]
      ensures !ok ==> dir == old(dir)
    {
      if name == "" {
        return false;
      }
      var filename := MigrationFileName(t, name);
      if Lookup(dir, filename).Some? {
        return false;
      }
      dir := dir + [FileEntry(filename, Template(name, created))];
      return true;
    }
  }
}
