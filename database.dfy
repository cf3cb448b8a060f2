/** The backup and restore engine of database.c, as an object over the
    file system: the remembered snapshot path, the disk, and the tables of
    the two databases the C code keeps open in its static handles
    (`backUpDb` and `restoreDb`). Every method is proved against the
    functions of DatabaseSpec. */
module Database {
  import opened Common
  import opened DatabaseSpec

  /** make_list: walks the entries of `root` in listing order and keeps the
      store file under each entry that exists. */
  method MakeList(root: Option<string>, listing: map<string, seq<string>>, present: set<string>)
    returns (files: seq<string>)
    ensures files == ListStores(root, listing, present)
  {
    files := [];
    if root.None? || root.value !in listing {
      return;
    }
    var names := listing[root.value];
    ghost var candidates := StorePaths(root.value, names);
    var i := 0;
    while i < |names|
      invariant 0 <= i <= |names|
      invariant files == Existing(candidates[..i], present)
    {
      var full := StorePath(root.value, names[i]);
      assert candidates[..i + 1] == candidates[..i] + [full];
      ExistingSnoc(candidates[..i], full, present);
      if full in present {
        files := files + [full];
      }
      i := i + 1;
    }
    assert candidates[..i] == candidates;
  }

  class BackupEngine {
    /** `backup_db_path`: the snapshot file name once one was chosen. */
    var backupDbPath: Option<string>
    /** The files, directories and databases the engine works on. */
    var disk: Disk
    /** The `lunaPrefs_backup` table of the database open as `backUpDb`. */
    var backupTable: seq<BackupRow>
    /** The `data` table of the database open as `restoreDb`; None when the
        opened file cannot hold one. */
    var restoreDb: Option<seq<Row>>

    predicate Valid()
      reads this
    {
      disk.Valid()
    }

    constructor (d: Disk)
      requires d.Valid()
      ensures Valid() && disk == d && backupDbPath.None?
    {
      disk := d;
      backupDbPath := None;
      backupTable := [];
      restoreDb := None;
    }

    /** setBackupFile: the snapshot goes into `tempDir` when one is given,
        to the default location otherwise. */
    method SetBackupFile(tempDir: Option<string>) returns (path: string)
      modifies this
      ensures path == BackupFileFor(tempDir) && backupDbPath == Some(path)
      ensures disk == old(disk) && backupTable == old(backupTable) && restoreDb == old(restoreDb)
    {
      path := BackupFileFor(tempDir);
      backupDbPath := Some(path);
    }

    /** getBackupFile: the chosen name, the default one when none was chosen. */
    method GetBackupFile() returns (path: string)
      modifies this
      ensures old(backupDbPath).Some? ==> path == old(backupDbPath).value
      ensures old(backupDbPath).None? ==> path == DefaultBackupFile
      ensures backupDbPath == Some(path)
      ensures disk == old(disk) && backupTable == old(backupTable) && restoreDb == old(restoreDb)
    {
      if backupDbPath.None? {
        path := SetBackupFile(None);
        BackupFileLocation(None);
      } else {
        path := backupDbPath.value;
      }
    }

    /** backup_action: inserts one row into the snapshot. The result is the
        new row's rowid, or 0 when an argument is NULL or the insert fails
        on the primary key. */
    method BackupAction(path: Option<string>, key: Option<string>, value: Option<string>) returns (rowid: nat)
      modifies this
      ensures path.None? ==> backupTable == old(backupTable)
      ensures path.Some? ==> backupTable == Insert(old(backupTable), path.value, Row(key, value))
      ensures rowid != 0 <==> path.Some? && Insertable(old(backupTable), Row(key, value))
      ensures rowid != 0 ==> rowid == |backupTable| && backupTable[rowid - 1] == BackupRow(path.value, key.value, value.value)
      ensures disk == old(disk) && backupDbPath == old(backupDbPath) && restoreDb == old(restoreDb)
    {
      if path.None? || key.None? || value.None? {
        return 0;
      }
      if key.value in KeysOf(backupTable) {
        return 0;
      }
      backupTable := backupTable + [BackupRow(path.value, key.value, value.value)];
      rowid := |backupTable|;
    }

    /** create_backup: copies the rows of one store into the snapshot, row
        by row, in the store's order. A store that does not open or holds
        no `data` table contributes nothing. */
    method CreateBackup(file: Option<string>, env: Faults)
      modifies this
      ensures file.None? ==> backupTable == old(backupTable)
      ensures file.Some? ==>
        backupTable == MergeRows(old(backupTable), file.value, StoreRows(file.value, disk.stores, env.openFails))
      ensures disk == old(disk) && backupDbPath == old(backupDbPath) && restoreDb == old(restoreDb)
    {
      if file.None? {
        return;
      }
      var path := file.value;
      if path in env.openFails || path !in disk.stores {
        return;
      }
      var rows := disk.stores[path];
      var i := 0;
      while i < |rows|
        invariant 0 <= i <= |rows|
        invariant backupTable == MergeRows(old(backupTable), path, rows[..i])
        invariant disk == old(disk) && backupDbPath == old(backupDbPath) && restoreDb == old(restoreDb)
      {
        var _ := BackupAction(file, rows[i].key, rows[i].value);
        assert rows[..i + 1][..i] == rows[..i];
        i := i + 1;
      }
      assert rows[..i] == rows;
    }

    /** read_and_backup_list: opens the snapshot at `path`, creates its
        table and insert statement, and inside one transaction backs up
        every store of `files`. The results of setup_database and of the
        commit are ignored.
        The path was unlinked by the caller, so it holds no store. */
    method ReadAndBackupList(files: seq<string>, path: string, env: Faults) returns (ok: bool)
      requires Valid() && path !in disk.stores
      modifies this
      ensures Valid()
      ensures ok <==> path !in env.openFails && !env.beginFails && path !in env.closeFails
      ensures path in env.openFails ==> disk == old(disk)
      ensures path !in env.openFails ==>
        var before := if path in old(disk).snapshots then old(disk).snapshots[path] else [];
        disk == old(disk).(files := old(disk).files + {path},
                           snapshots := old(disk).snapshots[path :=
                             if env.beginFails || env.setupFails || env.commitFails then before
                             else MergeStores(before, files, old(disk).stores, env.openFails)])
      ensures backupDbPath == old(backupDbPath) && restoreDb == old(restoreDb)
    {
      if path in env.openFails {
        return false;
      }
      backupTable := if path in disk.snapshots then disk.snapshots[path] else [];
      disk := disk.(files := disk.files + {path}, snapshots := disk.snapshots[path := backupTable]);
      if env.beginFails {
        return false;
      }
      // without an insert statement every backup_action fails and adds nothing
      if !env.setupFails {
        BackupStores(files, env);
      }
      // the commit's result is ignored: a failed commit leaves the
      // transaction open, and the close rolls it back
      if !env.commitFails {
        disk := disk.(snapshots := disk.snapshots[path := backupTable]);
      }
      ok := path !in env.closeFails;
    }

    /** read_and_backup_list's loop: backup_action for every store of
        `files`, in order, into the open snapshot table. */
    method BackupStores(files: seq<string>, env: Faults)
      requires Valid()
      modifies this
      ensures Valid()
      ensures backupTable == MergeStores(old(backupTable), files, disk.stores, env.openFails)
      ensures disk == old(disk) && backupDbPath == old(backupDbPath) && restoreDb == old(restoreDb)
    {
      ghost var before := backupTable;
      var i := 0;
      while i < |files|
        invariant 0 <= i <= |files|
        invariant disk == old(disk) && backupDbPath == old(backupDbPath) && restoreDb == old(restoreDb)
        invariant backupTable == MergeStores(before, files[..i], disk.stores, env.openFails)
      {
        CreateBackup(Some(files[i]), env);
        assert files[..i + 1][..i] == files[..i];
        i := i + 1;
      }
      assert files[..i] == files;
    }

    /** create_prefs_backup: removes the old snapshot, lists the stores
        under the preferences directory and backs them up. */
    method CreatePrefsBackup(listing: map<string, seq<string>>, env: Faults) returns (ok: bool)
      requires Valid()
      modifies this
      ensures Valid()
      ensures backupDbPath.Some? &&
        backupDbPath.value == (if old(backupDbPath).Some? then old(backupDbPath).value else DefaultBackupFile)
      ensures (ok, disk) == CreateBackupSpec(old(disk), listing, backupDbPath.value, env)
      ensures restoreDb == old(restoreDb)
    {
      var path := GetBackupFile();
      disk := Unlink(disk, path);
      ghost var d0 := disk;
      var files := MakeList(Some(PrefsDir), listing, disk.files + disk.dirs);
      ok := ReadAndBackupList(files, path, env);
      assert path !in d0.snapshots;
      assert d0.snapshots[path := []][path := MergeStores([], files, d0.stores, env.openFails)] ==
        d0.snapshots[path := MergeStores([], files, d0.stores, env.openFails)];
    }

    /** restore_prefs_data: overwrites every row holding `key` when
        `setFlag` is set, appends a new row otherwise. */
    method RestorePrefsData(key: string, value: string, setFlag: bool)
      requires restoreDb.Some?
      modifies this
      ensures restoreDb.Some?
      ensures setFlag ==> restoreDb.value == SetValue(old(restoreDb).value, key, value)
      ensures !setFlag ==> restoreDb.value == old(restoreDb).value + [Row(Some(key), Some(value))]
      ensures disk == old(disk) && backupDbPath == old(backupDbPath) && backupTable == old(backupTable)
    {
      if setFlag {
        restoreDb := Some(SetValue(restoreDb.value, key, value));
      } else {
        restoreDb := Some(restoreDb.value + [Row(Some(key), Some(value))]);
      }
    }

    /** restore_action: replays the snapshot rows filed under `path` into
        the open store, updating keys it already has and inserting the rest. */
    method RestoreAction(path: Option<string>) returns (ok: bool)
      modifies this
      ensures ok <==> path.Some? && old(restoreDb).Some?
      ensures ok ==> restoreDb == Some(Replay(old(restoreDb).value, RowsFor(backupTable, path.value)))
      ensures !ok ==> restoreDb == old(restoreDb)
      ensures disk == old(disk) && backupDbPath == old(backupDbPath) && backupTable == old(backupTable)
    {
      if path.None? || restoreDb.None? {
        return false;
      }
      var pairs := RowsFor(backupTable, path.value);
      ghost var start := restoreDb.value;
      var i := 0;
      while i < |pairs|
        invariant 0 <= i <= |pairs|
        invariant restoreDb == Some(Replay(start, pairs[..i]))
        invariant disk == old(disk) && backupDbPath == old(backupDbPath) && backupTable == old(backupTable)
      {
        var count := CountKey(restoreDb.value, pairs[i].key);
        RestorePrefsData(pairs[i].key, pairs[i].value, count > 0);
        assert pairs[..i + 1][..i] == pairs[..i];
        i := i + 1;
      }
      assert pairs[..i] == pairs;
      ok := true;
    }

    /** The body of begin_restore's store loop for origin path `p`: creates
        the directory, opens the store and replays the snapshot rows filed
        under `p` into it. mkdir is the C call as written: it fails on a
        directory that already exists. */
    method RestorePath(p: string, env: Faults) returns (carryOn: bool)
      requires Valid()
      modifies this
      ensures Valid()
      ensures RestoreHead(old(disk), backupTable, p, env, false) ==
        if carryOn then Continue(disk) else Stop(disk)
      ensures backupDbPath == old(backupDbPath) && backupTable == old(backupTable)
    {
      var parent := Dirname(p);
      if MkdirFails(disk, parent, env) {
        return false;
      }
      disk := disk.(dirs := disk.dirs + {parent});
      if p in env.openFails {
        return false;
      }
      restoreDb := if p in disk.stores then Some(disk.stores[p]) else if p in disk.files then None else Some([]);
      carryOn := RestoreAction(Some(p));
      if carryOn {
        disk := disk.(files := disk.files + {p}, stores := disk.stores[p := restoreDb.value]);
      }
    }

    /** begin_restore: opens the snapshot `dbFile` and, origin path by
        origin path, creates the store's directory, opens the store and
        replays the snapshot rows into it; it gives up at the first
        failure, keeping the stores restored so far. */
    method BeginRestore(dbFile: Option<string>, env: Faults) returns (ok: bool)
      requires Valid()
      modifies this
      ensures Valid()
      ensures (ok, disk) == BeginRestoreSpec(old(disk), dbFile, env, false)
      ensures backupDbPath == old(backupDbPath)
    {
      if dbFile.None? || dbFile.value in env.openFails || dbFile.value !in disk.snapshots {
        return false;
      }
      backupTable := disk.snapshots[dbFile.value];
      ok := RestorePaths(DistinctPaths(backupTable), env);
      ok := ok && dbFile.value !in env.closeFails;
    }

    /** begin_restore's store loop: origin path by origin path until the
        first failure. */
    method RestorePaths(paths: seq<string>, env: Faults) returns (ok: bool)
      requires Valid()
      modifies this
      ensures Valid()
      ensures (ok, disk) == RestoreStores(old(disk), backupTable, paths, env, false)
      ensures backupDbPath == old(backupDbPath) && backupTable == old(backupTable)
    {
      ghost var goal := RestoreStores(disk, backupTable, paths, env, false);
      var i := 0;
      while i < |paths|
        invariant 0 <= i <= |paths|
        invariant Valid() && backupTable == old(backupTable) && backupDbPath == old(backupDbPath)
        invariant RestoreStores(disk, backupTable, paths[i..], env, false) == goal
      {
        ghost var head := RestoreHead(disk, backupTable, paths[i], env, false);
        assert paths[i..][0] == paths[i] && paths[i..][1..] == paths[i + 1..];
        RestoreStoresStep(disk, backupTable, paths[i..], env, false);
        var carryOn := RestorePath(paths[i], env);
        if !carryOn {
          assert head == Stop(disk);
          return false;
        }
        assert head == Continue(disk);
        i := i + 1;
      }
      ok := true;
    }

    /** try_restore: restores from `dbFile` when it exists; a missing
        snapshot is not an error. */
    method TryRestore(dbFile: Option<string>, env: Faults) returns (ok: bool)
      requires Valid()
      modifies this
      ensures Valid()
      ensures (ok, disk) == TryRestoreSpec(old(disk), dbFile, env, false)
      ensures backupDbPath == old(backupDbPath)
    {
      if dbFile.Some? && disk.Exists(dbFile.value) {
        ok := BeginRestore(dbFile, env);
      } else {
        ok := true;
      }
    }
  }
}
