/**
 * The DB handle: a single-connection write pool, a multi-connection read
 * pool, a cancel flag for the handle's context, and the migration state of
 * the database behind them. The outcomes of the driver, the file system and
 * the clock are parameters of the methods that consult them.
 */
module Sqlite {
  import opened Wrappers
  import opened Errors
  import opened Instants
  import opened Pools
  import opened StringOrder
  import Migrations

  /** How a transaction takes SQLite's lock: at once (BEGIN IMMEDIATE) or at the first write. */
  datatype LockMode = Immediate | Deferred

  /** A transaction and the timestamp frozen when it began. */
  datatype Tx = Tx(lock: LockMode, readOnly: bool, now: Instant)
  {
    /** Tx.Now: the frozen timestamp, the same on every call. */
    function Now(): Instant {
      now
    }
  }

  class DB {
    var dsn: string
    var rw: Option<Pool>
    var ro: Option<Pool>
    var cancelled: bool
    var store: Migrations.Store

    /** NewDB: no pool yet, a live context; store is what the database already holds. */
    constructor (dsn: string, store: Migrations.Store)
      ensures this.dsn == dsn && this.store == store
      ensures rw == None && ro == None && !cancelled
    {
      this.dsn := dsn;
      this.store := store;
      rw := None;
      ro := None;
      cancelled := false;
    }

    /**
     * Open. mkdirErr is the outcome of creating the DSN's parent directory;
     * rwOpenErr and roOpenErr those of sql.Open for each pool.
     */
    method Open(mkdirErr: Option<Error>, rwOpenErr: Option<Error>, roOpenErr: Option<Error>) returns (err: Option<Error>)
      modifies this
      ensures dsn == old(dsn) && store == old(store) && cancelled == old(cancelled)
      ensures old(dsn) == "" ==> err == Some(DsnRequired) && rw == old(rw) && ro == old(ro)
      ensures old(dsn) == MemoryMarker ==> OpenedBoth(MemoryDsn, MemoryDsn, rwOpenErr, roOpenErr, err, old(ro))
      ensures old(dsn) != "" && old(dsn) != MemoryMarker && mkdirErr.Some? ==>
                err == mkdirErr && rw == old(rw) && ro == old(ro)
      ensures old(dsn) != "" && old(dsn) != MemoryMarker && mkdirErr.None? ==>
                OpenedBoth(WriteDsn(old(dsn)), ReadDsn(old(dsn)), rwOpenErr, roOpenErr, err, old(ro))
      ensures err.Some? && old(rw).None? && old(ro).None? ==> !Live(rw) && !Live(ro)
    {
      if dsn == "" {
        return Some(DsnRequired);
      }
      if dsn == MemoryMarker {
        err := OpenMemory(rwOpenErr, roOpenErr);
        return;
      }
      if mkdirErr.Some? {
        return mkdirErr;
      }
      var baseDsn := dsn + WalParameters;
      err := OpenPools(baseDsn, baseDsn + ReadOnlyParameter, rwOpenErr, roOpenErr);
    }

    /** openMemory: both pools on the same shared-cache in-memory database. */
    method OpenMemory(rwOpenErr: Option<Error>, roOpenErr: Option<Error>) returns (err: Option<Error>)
      modifies this
      ensures dsn == old(dsn) && store == old(store) && cancelled == old(cancelled)
      ensures OpenedBoth(MemoryDsn, MemoryDsn, rwOpenErr, roOpenErr, err, old(ro))
    {
      err := OpenPools(MemoryDsn, MemoryDsn, rwOpenErr, roOpenErr);
    }

    /**
     * The sequence both openers share: open and configure the write pool,
     * then the read pool, closing the write pool if the read pool fails.
     */
    method OpenPools(rwDsn: string, roDsn: string, rwOpenErr: Option<Error>, roOpenErr: Option<Error>) returns (err: Option<Error>)
      modifies this
      ensures dsn == old(dsn) && store == old(store) && cancelled == old(cancelled)
      ensures OpenedBoth(rwDsn, roDsn, rwOpenErr, roOpenErr, err, old(ro))
    {
      if rwOpenErr.Some? {
        rw := None;
        return rwOpenErr;
      }
      rw := Some(OpenedPool(rwDsn));
      rw := Some(SetMaxOpenConns(rw.value, 1));
      rw := Some(SetMaxIdleConns(rw.value, 1));
      rw := Some(SetConnMaxLifetime(rw.value, 0));
      rw := Some(SetConnMaxIdleTime(rw.value, 0));

      if roOpenErr.Some? {
        ro := None;
        var closed := ClosePool(rw.value, None);
        rw := Some(closed.0);
        return roOpenErr;
      }
      ro := Some(OpenedPool(roDsn));
      ro := Some(SetMaxOpenConns(ro.value, 10));
      ro := Some(SetMaxIdleConns(ro.value, 5));
      return None;
    }

    /**
     * The pools after opening with the given DSNs: both configured on
     * success; on failure the error of the first pool that failed, and no
     * pool of this opening left open.
     */
    ghost predicate OpenedBoth(rwDsn: string, roDsn: string, rwOpenErr: Option<Error>, roOpenErr: Option<Error>,
                               err: Option<Error>, oldRo: Option<Pool>)
      reads this
    {
      if rwOpenErr.Some? then err == rwOpenErr && rw == None && ro == oldRo
      else if roOpenErr.Some? then err == roOpenErr && rw == Some(WritePool(rwDsn).(closed := true)) && ro == None
      else err == None && rw == Some(WritePool(rwDsn)) && ro == Some(ReadPool(roDsn))
    }

    /**
     * Close: cancel the context, close every pool there is even when an
     * earlier close fails, and report the first error.
     */
    method Close(rwCloseErr: Option<Error>, roCloseErr: Option<Error>) returns (err: Option<Error>)
      modifies this
      ensures cancelled
      ensures dsn == old(dsn) && store == old(store)
      ensures rw == (if old(rw).Some? then Some(old(rw).value.(closed := true)) else None)
      ensures ro == (if old(ro).Some? then Some(old(ro).value.(closed := true)) else None)
      ensures !Live(rw) && !Live(ro)
      ensures err == if Live(old(rw)) && rwCloseErr.Some? then rwCloseErr
                     else if Live(old(ro)) && roCloseErr.Some? then roCloseErr
                     else None
    {
      cancelled := true;
      var errs: seq<Error> := [];
      if rw.Some? {
        var closed := ClosePool(rw.value, rwCloseErr);
        rw := Some(closed.0);
        if closed.1.Some? {
          errs := errs + [closed.1.value];
        }
      }
      if ro.Some? {
        var closed := ClosePool(ro.value, roCloseErr);
        ro := Some(closed.0);
        if closed.1.Some? {
          errs := errs + [closed.1.value];
        }
      }
      if |errs| > 0 {
        return Some(errs[0]);
      }
      return None;
    }

    /**
     * Migrate over a file system listing paths. createErr is the engine's
     * outcome for CREATE TABLE IF NOT EXISTS; a closed write pool refuses it.
     */
    method Migrate(paths: seq<string>, createErr: Option<Error>, faults: Migrations.Faults) returns (err: Option<Error>)
      requires rw.Some?
      modifies this
      ensures dsn == old(dsn) && rw == old(rw) && ro == old(ro) && cancelled == old(cancelled)
      ensures (store, err) == Migrations.Migrate(old(store), CreateOutcome(old(rw).value, createErr), paths, faults)
    {
      var created := CreateOutcome(rw.value, createErr);
      if created.Some? {
        return Some(CannotCreateMigrationsTable(created.value));
      }
      store := store.(hasTable := true);
      var names := SortStrings(Migrations.Glob(paths));
      ghost var start := store;
      assert Migrations.Migrate(old(store), createErr, paths, faults) == Migrations.Run(start, names, faults);
      var i := 0;
      while i < |names|
        invariant 0 <= i <= |names|
        invariant rw == old(rw) && ro == old(ro) && dsn == old(dsn) && cancelled == old(cancelled)
        invariant !rw.value.closed
        invariant Migrations.Run(start, names, faults) == Migrations.Run(store, names[i..], faults)
      {
        ghost var before := store;
        Migrations.RunCons(before, names[i..], faults);
        assert names[i..][1..] == names[i + 1..];
        var e := MigrateFile(names[i], faults(names[i]));
        if e.Some? {
          return Some(MigrationFailed(names[i], e.value));
        }
        i := i + 1;
      }
      Migrations.RunNil(store, faults);
      return None;
    }

    /**
     * migrateFile. The transaction works on its own copy of the store, which
     * replaces the store only at commit; returning earlier rolls it back.
     */
    method MigrateFile(name: string, fault: Option<Migrations.Fault>) returns (err: Option<Error>)
      requires rw.Some?
      modifies this
      ensures dsn == old(dsn) && rw == old(rw) && ro == old(ro) && cancelled == old(cancelled)
      ensures (store, err) == Migrations.MigrateFile(old(store), name, BeginOutcome(old(rw).value, fault))
    {
      var f := BeginOutcome(rw.value, fault);
      if f.Some? && f.value.stage == Migrations.Begin {
        return Some(f.value.cause);
      }
      var tx := store;
      if f.Some? && f.value.stage == Migrations.Count {
        return Some(f.value.cause);
      }
      if name in tx.applied {
        return None;
      }
      if f.Some? && (f.value.stage == Migrations.Read || f.value.stage == Migrations.Exec) {
        return Some(f.value.cause);
      }
      tx := tx.(executed := tx.executed + [name]);
      if f.Some? && f.value.stage == Migrations.Record {
        return Some(f.value.cause);
      }
      tx := tx.(applied := tx.applied + {name});
      if f.Some? {
        return Some(f.value.cause);
      }
      store := tx;
      return None;
    }

    /**
     * BeginTx: a write transaction that takes the write lock at once. clock
     * is db.Now(); beginErr and immediateErr the driver's outcomes for
     * beginning and for "ROLLBACK; BEGIN IMMEDIATE".
     */
    method BeginTx(clock: Instant, beginErr: Option<Error>, immediateErr: Option<Error>) returns (tx: Option<Tx>, err: Option<Error>)
      requires rw.Some?
      ensures tx.Some? <==> err.None?
      ensures rw.value.closed ==> err == Some(DatabaseClosed)
      ensures !rw.value.closed && beginErr.Some? ==> err == beginErr
      ensures !rw.value.closed && beginErr.None? ==> err == immediateErr
      ensures tx.Some? ==> tx.value.lock == Immediate && !tx.value.readOnly
      ensures tx.Some? ==> tx.value.Now() % NanosPerSecond == 0 && tx.value.Now() <= clock < tx.value.Now() + NanosPerSecond
      ensures tx.Some? && clock % NanosPerSecond == 0 ==> tx.value.Now() == clock
    {
      if clock % NanosPerSecond == 0 {
        TruncateUnique(clock, clock);
      }
      if rw.value.closed {
        return None, Some(DatabaseClosed);
      }
      if beginErr.Some? {
        return None, beginErr;
      }
      if immediateErr.Some? {
        return None, immediateErr;
      }
      return Some(Tx(Immediate, false, Truncate(clock))), None;
    }

    /** BeginReadTx: a read-only transaction on the read pool, its lock taken lazily. */
    method BeginReadTx(clock: Instant, beginErr: Option<Error>) returns (tx: Option<Tx>, err: Option<Error>)
      requires ro.Some?
      ensures tx.Some? <==> err.None?
      ensures ro.value.closed ==> err == Some(DatabaseClosed)
      ensures !ro.value.closed ==> err == beginErr
      ensures tx.Some? ==> tx.value.lock == Deferred && tx.value.readOnly
      ensures tx.Some? ==> tx.value.Now() % NanosPerSecond == 0 && tx.value.Now() <= clock < tx.value.Now() + NanosPerSecond
      ensures tx.Some? && clock % NanosPerSecond == 0 ==> tx.value.Now() == clock
    {
      if clock % NanosPerSecond == 0 {
        TruncateUnique(clock, clock);
      }
      if ro.value.closed {
        return None, Some(DatabaseClosed);
      }
      if beginErr.Some? {
        return None, beginErr;
      }
      return Some(Tx(Deferred, true, Truncate(clock))), None;
    }
  }

  /** What CREATE TABLE IF NOT EXISTS reports: a closed pool refuses every statement. */
  function CreateOutcome(rw: Pool, createErr: Option<Error>): (r: Option<Error>)
    ensures r.None? <==> !rw.closed && createErr.None?
    ensures rw.closed ==> r == Some(DatabaseClosed)
    ensures r.Some? && r != Some(DatabaseClosed) ==> r == createErr
  {
    if rw.closed then Some(DatabaseClosed) else createErr
  }

  /** A closed pool cannot begin a transaction, whatever the engine would have done. */
  function BeginOutcome(rw: Pool, fault: Option<Migrations.Fault>): (r: Option<Migrations.Fault>)
    ensures r.None? <==> !rw.closed && fault.None?
    ensures rw.closed ==> r == Some(Migrations.Fault(Migrations.Begin, DatabaseClosed))
    ensures !rw.closed ==> r == fault
  {
    if rw.closed then Some(Migrations.Fault(Migrations.Begin, DatabaseClosed)) else fault
  }

  /**
   * An in-memory database opened and migrated twice over the same scripts:
   * once the first run succeeds, the second succeeds too and leaves the
   * store as the first left it.
   */
  method MigrateTwice(paths: seq<string>, faults: Migrations.Faults)
    returns (first: Option<Error>, second: Option<Error>, afterFirst: Migrations.Store, afterSecond: Migrations.Store)
    ensures first.None? ==> second.None? && afterSecond == afterFirst
  {
    var db := new DB(MemoryMarker, Migrations.Store(false, {}, []));
    var openErr := db.Open(None, None, None);
    assert openErr.None?;
    first := db.Migrate(paths, None, faults);
    afterFirst := db.store;
    second := db.Migrate(paths, None, faults);
    afterSecond := db.store;
    if first.None? {
      Migrations.MigrateIdempotent(Migrations.Store(false, {}, []), paths, faults);
    }
  }
}
