/**
 * The `apks` table of downloaded_apks.db: rows with an AUTOINCREMENT id,
 * unique on (package_name, version_name), written only by
 * `INSERT OR IGNORE` and read only by the existence query of
 * `is_apk_downloaded`. The SQLite engine and the connection are not modelled;
 * the table is a map from the unique key to the row.
 */
module ApkLedger {

  datatype Key = Key(package: string, version: string)

  /** One row: every column is NOT NULL. */
  datatype ApkRecord = ApkRecord(
    id: nat,
    package: string,
    appName: string,
    version: string,
    isSystem: bool,
    apkPath: string)

  /** The table's contents and the next AUTOINCREMENT id. */
  datatype Table = Table(rows: map<Key, ApkRecord>, nextId: nat)

  /**
   * The table's invariant: each row is stored under its own (package, version),
   * and ids are positive, below the next id, and distinct.
   */
  predicate TableInvariant(t: Table)
  {
    && 1 <= t.nextId
    && (forall k :: k in t.rows ==>
          t.rows[k].package == k.package && t.rows[k].version == k.version && 1 <= t.rows[k].id < t.nextId)
    && (forall k1, k2 :: k1 in t.rows && k2 in t.rows && t.rows[k1].id == t.rows[k2].id ==> k1 == k2)
  }

  /** A freshly created table. */
  const EmptyTable: Table := Table(map[], 1)

  /**
   * `INSERT OR IGNORE INTO apks (...) VALUES (...)`: a row whose key already
   * exists is ignored; otherwise the row is added with the next id.
   */
  function InsertOrIgnore(t: Table, package: string, appName: string, version: string,
                          isSystem: bool, apkPath: string): (t': Table)
  {
    var k := Key(package, version);
    if k in t.rows then t
    else Table(t.rows[k := ApkRecord(t.nextId, package, appName, version, isSystem, apkPath)], t.nextId + 1)
  }

  /**
   * After an insert the key is present; rows with other keys are untouched;
   * an existing key leaves the whole table unchanged; a new key holds exactly
   * the inserted values.
   */
  lemma InsertOrIgnoreSpec(t: Table, package: string, appName: string, version: string,
                           isSystem: bool, apkPath: string)
    ensures var t' := InsertOrIgnore(t, package, appName, version, isSystem, apkPath);
            && Key(package, version) in t'.rows
            && t'.rows.Keys == t.rows.Keys + {Key(package, version)}
            && (forall k :: k in t.rows ==> t'.rows[k] == t.rows[k])
            && (Key(package, version) in t.rows ==> t' == t)
            && (Key(package, version) !in t.rows ==>
                  var r := t'.rows[Key(package, version)];
                  r.appName == appName && r.isSystem == isSystem && r.apkPath == apkPath && r.id == t.nextId)
  {
  }

  /** Inserting keeps the table's invariant. */
  lemma InsertOrIgnoreKeepsInvariant(t: Table, package: string, appName: string, version: string,
                                     isSystem: bool, apkPath: string)
    requires TableInvariant(t)
    ensures TableInvariant(InsertOrIgnore(t, package, appName, version, isSystem, apkPath))
  {
  }

  /** Inserting a key a second time, with any other column values, changes nothing. */
  lemma InsertOrIgnoreIdempotent(t: Table, package: string, version: string,
                                 app1: string, sys1: bool, path1: string,
                                 app2: string, sys2: bool, path2: string)
    ensures var t1 := InsertOrIgnore(t, package, app1, version, sys1, path1);
            InsertOrIgnore(t1, package, app2, version, sys2, path2) == t1
  {
  }

  /** The `apks` table as an object that the script's cursor updates in place. */
  class Ledger {
    var rows: map<Key, ApkRecord>
    var nextId: nat

    function Contents(): Table
      reads this
    {
      Table(rows, nextId)
    }

    ghost predicate Valid()
      reads this
    {
      TableInvariant(Contents())
    }

    /** `CREATE TABLE IF NOT EXISTS apks (...)` on a new database file. */
    constructor ()
      ensures Valid()
      ensures Contents() == EmptyTable
    {
      rows := map[];
      nextId := 1;
    }

    /** `is_apk_downloaded`: whether a row with this (package, version) exists. */
    method IsDownloaded(package: string, version: string) returns (found: bool)
      requires Valid()
      ensures found <==> exists k :: k in rows && rows[k].package == package && rows[k].version == version
      ensures found <==> Key(package, version) in rows
    {
      found := Key(package, version) in rows;
    }

    /** `add_apk_to_db`: insert or ignore. */
    method Add(package: string, appName: string, version: string, isSystem: bool, apkPath: string)
      requires Valid()
      modifies this
      ensures Valid()
      ensures Contents() == InsertOrIgnore(old(Contents()), package, appName, version, isSystem, apkPath)
    {
      InsertOrIgnoreKeepsInvariant(Contents(), package, appName, version, isSystem, apkPath);
      var k := Key(package, version);
      if k !in rows {
        rows := rows[k := ApkRecord(nextId, package, appName, version, isSystem, apkPath)];
        nextId := nextId + 1;
      }
    }
  }
}
