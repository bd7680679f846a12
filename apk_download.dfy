/**
 * The APK retrieval workflow of download_apk.py: `process_package` (resolve
 * the install path, compute the version, consult the ledger, pull, check for
 * `pulled`, choose the name, rename, record) and `process_apps` (all user
 * packages, then all system packages).
 *
 * The device is an oracle from commands to their stripped standard output
 * (in this script a failed command is no different from one that printed
 * nothing useful), and androguard's name extraction is an oracle from the
 * staged path to an optional name. The local file system is the set of file
 * paths that exist.
 */
module ApkDownload {

  import opened Wrappers
  import opened Adb
  import Text
  import ApkNames
  import ApkLedger

  /** What the script cannot see into: the device, and the APK parser. */
  datatype Env = Env(run: Command -> string, appNameOf: string -> Option<string>)

  /** One call of `process_package(package, is_system_app)`. */
  datatype Job = Job(package: string, isSystem: bool)

  /** How `process_package` ends. */
  datatype Outcome =
    | NoInstallPath
    | AlreadyDownloaded(version: string)
    | PullFailed(version: string, remote: string, staged: string)
    | Finalized(version: string, remote: string, staged: string, app: string, dest: string)

  /** The state the workflow changes: local files, the ledger, and the commands sent so far. */
  datatype State = State(files: set<string>, table: ApkLedger.Table, commands: seq<Command>)

  /** The decisions of `process_package` for one package, given the ledger it starts from. */
  function Plan(job: Job, env: Env, table: ApkLedger.Table): Outcome
  {
    match ApkNames.InstallPath(env.run(PmPath(job.package)))
    case None => NoInstallPath
    case Some(remote) =>
      var version := ApkNames.VersionName(env.run(DumpsysVersion(job.package)));
      if ApkLedger.Key(job.package, version) in table.rows then AlreadyDownloaded(version)
      else
        var staged := ApkNames.StagedPath(job.isSystem, job.package);
        if !Text.Contains(env.run(Pull(remote, staged)), PulledMarker) then
          PullFailed(version, remote, staged)
        else
          var app := ApkNames.AppLabel(job.package, env.appNameOf(staged));
          Finalized(version, remote, staged, app, ApkNames.FinalPath(job.isSystem, app, version))
  }

  /** The device commands `process_package` sends before it ends with `outcome`. */
  function Issued(job: Job, outcome: Outcome): seq<Command>
  {
    var lookups := [PmPath(job.package), DumpsysVersion(job.package)];
    match outcome
    case NoInstallPath => [PmPath(job.package)]
    case AlreadyDownloaded(_) => lookups
    case PullFailed(_, remote, staged) => lookups + [Pull(remote, staged)]
    case Finalized(_, remote, staged, _, _) => lookups + [Pull(remote, staged)]
  }

  /**
   * The effect of one `process_package`: on success the pull creates the
   * staged file, `os.rename` moves it to its final name, and the ledger
   * records it; every other outcome leaves files and ledger as they were.
   */
  function Step(s: State, job: Job, env: Env): State
  {
    Apply(s, job, Plan(job, env, s.table))
  }

  /** The new state once `process_package` has ended with `outcome`. */
  function Apply(s: State, job: Job, outcome: Outcome): State
  {
    var commands := s.commands + Issued(job, outcome);
    match outcome
    case Finalized(version, _, staged, app, dest) =>
      State((s.files + {staged}) - {staged} + {dest},
            ApkLedger.InsertOrIgnore(s.table, job.package, app, version, job.isSystem, dest),
            commands)
    case _ => State(s.files, s.table, commands)
  }

  /** The state after a success, with the three commands as the method sends them, one at a time. */
  lemma FinalizedState(s: State, job: Job, version: string, remote: string, staged: string, app: string, dest: string)
    ensures Apply(s, job, Finalized(version, remote, staged, app, dest))
            == State((s.files + {staged}) - {staged} + {dest},
                     ApkLedger.InsertOrIgnore(s.table, job.package, app, version, job.isSystem, dest),
                     s.commands + [PmPath(job.package)] + [DumpsysVersion(job.package)] + [Pull(remote, staged)])
  {
    assert s.commands + [PmPath(job.package)] + [DumpsysVersion(job.package)] + [Pull(remote, staged)]
        == s.commands + Issued(job, Finalized(version, remote, staged, app, dest));
  }

  /** A sequence of `process_package` calls, in order. */
  function Run(s: State, jobs: seq<Job>, env: Env): State
    decreases |jobs|
  {
    if jobs == [] then s else Step(Run(s, jobs[..|jobs| - 1], env), jobs[|jobs| - 1], env)
  }

  lemma RunSnoc(s: State, jobs: seq<Job>, job: Job, env: Env)
    ensures Run(s, jobs + [job], env) == Step(Run(s, jobs, env), job, env)
  {
    assert (jobs + [job])[..|jobs|] == jobs;
  }

  /** Running two batches one after the other is running their concatenation. */
  lemma {:induction false} RunAppend(s: State, a: seq<Job>, b: seq<Job>, env: Env)
    ensures Run(s, a + b, env) == Run(Run(s, a, env), b, env)
    decreases |b|
  {
    if b == [] {
      assert a + b == a;
    } else {
      var b' := b[..|b| - 1];
      RunAppend(s, a, b', env);
      assert (a + b)[..|a + b| - 1] == a + b';
    }
  }

  /** The jobs of one `for` loop of `process_apps`. */
  function Jobs(ids: seq<string>, isSystem: bool): seq<Job>
  {
    seq(|ids|, k requires 0 <= k < |ids| => Job(ids[k], isSystem))
  }

  /** The package ids of a `pm list packages` listing. */
  function Listed(env: Env, system: bool): seq<string>
  {
    ApkNames.PackageIds(env.run(ListPackages(system)))
  }

  /** The jobs of `process_apps`: the user packages (`-3`), then the system packages (`-s`), each in listing order. */
  function BatchJobs(env: Env): seq<Job>
  {
    Jobs(Listed(env, false), false) + Jobs(Listed(env, true), true)
  }

  // ---------------------------------------------------------------------
  // What one call of process_package does.
  // ---------------------------------------------------------------------

  predicate NoPull(cs: seq<Command>)
  {
    forall k :: 0 <= k < |cs| ==> !cs[k].Pull?
  }

  /**
   * Path resolution fails exactly when the `pm path` output has no
   * `package:` followed by a character other than '\n'; then nothing is
   * pulled, no file changes and the ledger is unchanged.
   */
  lemma NoInstallPathEndsEarly(s: State, job: Job, env: Env)
    ensures Plan(job, env, s.table).NoInstallPath?
            <==> forall i :: !Text.MatchAt(ApkNames.PackagePrefix, env.run(PmPath(job.package)), i)
    ensures Plan(job, env, s.table).NoInstallPath? ==>
              var s' := Step(s, job, env);
              s'.files == s.files && s'.table == s.table && s'.commands == s.commands + [PmPath(job.package)]
  {
  }

  /** A (package, version) already in the ledger is skipped: no pull, no file change, ledger unchanged. */
  lemma DownloadedIsSkipped(s: State, job: Job, env: Env)
    requires ApkNames.InstallPath(env.run(PmPath(job.package))).Some?
    requires ApkLedger.Key(job.package, ApkNames.VersionName(env.run(DumpsysVersion(job.package)))) in s.table.rows
    ensures Plan(job, env, s.table).AlreadyDownloaded?
    ensures var s' := Step(s, job, env);
            s'.files == s.files && s'.table == s.table && NoPull(s'.commands[|s.commands|..])
  {
    var s' := Step(s, job, env);
    assert s'.commands[|s.commands|..] == [PmPath(job.package), DumpsysVersion(job.package)];
  }

  /**
   * The pull is issued exactly when the path resolves and the key is new;
   * if its output lacks `pulled` there is no rename and no ledger insert.
   */
  lemma PullFailureChangesNothing(s: State, job: Job, env: Env)
    ensures var o := Plan(job, env, s.table);
            (o.PullFailed? || o.Finalized?) <==>
              (ApkNames.InstallPath(env.run(PmPath(job.package))).Some?
               && ApkLedger.Key(job.package, ApkNames.VersionName(env.run(DumpsysVersion(job.package)))) !in s.table.rows)
    ensures var o := Plan(job, env, s.table);
            o.PullFailed? ==>
              !Text.Contains(env.run(Pull(o.remote, o.staged)), PulledMarker)
              && Step(s, job, env).files == s.files && Step(s, job, env).table == s.table
  {
  }

  /**
   * A successful pull renames the staged `<dir>/<package>.apk` to
   * `<dir>/<app>-<version>.apk`, where `<dir>` is `system_apks` for a system
   * package and `user_apks` otherwise, and `<app>` is the sanitised extracted
   * name or, when that is `None` or empty, the package id as it is.
   */
  lemma SuccessNames(s: State, job: Job, env: Env)
    requires Plan(job, env, s.table).Finalized?
    ensures var o := Plan(job, env, s.table);
            var dir := if job.isSystem then "system_apks" else "user_apks";
            var name := env.appNameOf(o.staged);
            && Text.Contains(env.run(Pull(o.remote, o.staged)), PulledMarker)
            && o.version == ApkNames.VersionName(env.run(DumpsysVersion(job.package)))
            && (job.package == [] || job.package[0] != '/' ==> o.staged == dir + "/" + job.package + ".apk")
            && (name.Some? && name.value != [] ==> o.app == ApkNames.Sanitize(name.value))
            && (name.None? || name.value == [] ==> o.app == job.package)
            && (o.app == [] || o.app[0] != '/' ==> o.dest == dir + "/" + o.app + "-" + o.version + ".apk")
  {
    var o := Plan(job, env, s.table);
    if o.app == [] || o.app[0] != '/' {
      ApkNames.FinalPathShape(job.isSystem, o.app, o.version);
    }
    var dir := ApkNames.ApkDirectory(job.isSystem);
    assert dir[|dir| - 1] == 's';
    var f := job.package + ".apk";
    assert f[0] != '/' ==> o.staged == dir + "/" + f;
  }

  /**
   * After a successful pull the final path exists, the staged path is gone
   * (unless the two coincide), no other file changes, and the ledger holds
   * the new (package, version) with its final path.
   */
  lemma SuccessRecords(s: State, job: Job, env: Env)
    requires Plan(job, env, s.table).Finalized?
    ensures var o := Plan(job, env, s.table);
            var s' := Step(s, job, env);
            var k := ApkLedger.Key(job.package, o.version);
            && o.dest in s'.files
            && (o.staged != o.dest ==> o.staged !in s'.files)
            && s'.files == (s.files - {o.staged}) + {o.dest}
            && k !in s.table.rows && s'.table.rows.Keys == s.table.rows.Keys + {k}
            && s'.table.rows[k].apkPath == o.dest && s'.table.rows[k].appName == o.app
            && s'.table.rows[k].isSystem == job.isSystem
  {
  }

  /** When the version lookup finds nothing, the final name ends in `-unknown.apk`. */
  lemma UnknownVersionInName(s: State, job: Job, env: Env)
    requires forall i :: !Text.MatchAt(ApkNames.VersionKey, env.run(DumpsysVersion(job.package)), i)
    requires Plan(job, env, s.table).Finalized?
    ensures var dest := Plan(job, env, s.table).dest;
            |dest| >= 12 && dest[|dest| - 12..] == "-unknown.apk"
  {
    var o := Plan(job, env, s.table);
    ApkNames.VersionNameSpec(env.run(DumpsysVersion(job.package)));
    var f := ApkNames.FinalFileName(o.app, "unknown");
    assert f == o.app + "-unknown.apk";
    assert f[0] != '/' ==> o.dest == ApkNames.ApkDirectory(job.isSystem) + "/" + f by {
      var dir := ApkNames.ApkDirectory(job.isSystem);
      assert dir[|dir| - 1] == 's';
    }
  }

  // ---------------------------------------------------------------------
  // What a batch does.
  // ---------------------------------------------------------------------

  /** Every user package is processed before any system package, each group in listing order. */
  lemma BatchOrder(env: Env)
    ensures var jobs := BatchJobs(env);
            var user := Listed(env, false);
            var system := Listed(env, true);
            && |jobs| == |user| + |system|
            && (forall k :: 0 <= k < |user| ==> jobs[k] == Job(user[k], false))
            && (forall k :: 0 <= k < |system| ==> jobs[|user| + k] == Job(system[k], true))
            && (forall i, j :: 0 <= i < j < |jobs| && jobs[i].isSystem ==> jobs[j].isSystem)
  {
    var user := Jobs(Listed(env, false), false);
    var system := Jobs(Listed(env, true), true);
    var jobs := user + system;
    forall k | 0 <= k < |system| ensures jobs[|user| + k] == system[k] {
    }
    forall i | 0 <= i < |jobs| ensures jobs[i].isSystem <==> i >= |user| {
      if i < |user| { assert jobs[i] == user[i]; } else { assert jobs[i] == system[i - |user|]; }
    }
  }

  /** A batch never removes or changes a ledger row. */
  lemma {:induction false} RunKeepsRows(s: State, jobs: seq<Job>, env: Env)
    ensures var s' := Run(s, jobs, env);
            forall k :: k in s.table.rows ==> k in s'.table.rows && s'.table.rows[k] == s.table.rows[k]
    decreases |jobs|
  {
    if jobs != [] {
      var prefix := jobs[..|jobs| - 1];
      RunKeepsRows(s, prefix, env);
      var mid := Run(s, prefix, env);
      var o := Plan(jobs[|jobs| - 1], env, mid.table);
      if o.Finalized? {
        var j := jobs[|jobs| - 1];
        ApkLedger.InsertOrIgnoreSpec(mid.table, j.package, o.app, o.version, j.isSystem, o.dest);
      }
    }
  }

  /** A batch keeps the ledger's invariant. */
  lemma {:induction false} RunKeepsInvariant(s: State, jobs: seq<Job>, env: Env)
    requires ApkLedger.TableInvariant(s.table)
    ensures ApkLedger.TableInvariant(Run(s, jobs, env).table)
    decreases |jobs|
  {
    if jobs != [] {
      var prefix := jobs[..|jobs| - 1];
      RunKeepsInvariant(s, prefix, env);
      var mid := Run(s, prefix, env);
      var j := jobs[|jobs| - 1];
      var o := Plan(j, env, mid.table);
      if o.Finalized? {
        ApkLedger.InsertOrIgnoreKeepsInvariant(mid.table, j.package, o.app, o.version, j.isSystem, o.dest);
      }
    }
  }

  /** Every row a batch adds belongs to one of its packages. */
  lemma {:induction false} RunNewRowsFromJobs(s: State, jobs: seq<Job>, env: Env)
    ensures var s' := Run(s, jobs, env);
            forall k :: k in s'.table.rows && k !in s.table.rows ==>
              exists i :: 0 <= i < |jobs| && jobs[i].package == k.package
    decreases |jobs|
  {
    if jobs != [] {
      var prefix := jobs[..|jobs| - 1];
      RunNewRowsFromJobs(s, prefix, env);
      var mid := Run(s, prefix, env);
      var j := jobs[|jobs| - 1];
      var o := Plan(j, env, mid.table);
      var s' := Run(s, jobs, env);
      forall k | k in s'.table.rows && k !in s.table.rows
        ensures exists i :: 0 <= i < |jobs| && jobs[i].package == k.package
      {
        if k in mid.table.rows {
          var i :| 0 <= i < |prefix| && prefix[i].package == k.package;
          assert jobs[i] == prefix[i];
        } else {
          assert o.Finalized?;
          ApkLedger.InsertOrIgnoreSpec(mid.table, j.package, o.app, o.version, j.isSystem, o.dest);
          assert k == ApkLedger.Key(j.package, o.version);
          assert jobs[|jobs| - 1].package == k.package;
        }
      }
    }
  }

  /**
   * A device with user packages `a` and `b` and no system packages, where
   * only `a` has an install path and its pull succeeds: the batch finalizes
   * exactly one file, for `a`, records only `a`, and `b` ends at path
   * resolution.
   */
  lemma TwoPackageBatch(s: State, env: Env, a: string, b: string)
    requires Listed(env, false) == [a, b] && Listed(env, true) == []
    requires ApkNames.InstallPath(env.run(PmPath(a))).Some?
    requires ApkNames.InstallPath(env.run(PmPath(b))).None?
    requires ApkLedger.Key(a, ApkNames.VersionName(env.run(DumpsysVersion(a)))) !in s.table.rows
    requires Text.Contains(env.run(Pull(ApkNames.InstallPath(env.run(PmPath(a))).value, ApkNames.StagedPath(false, a))),
                           PulledMarker)
    ensures var o := Plan(Job(a, false), env, s.table);
            var s' := Run(s, BatchJobs(env), env);
            && o.Finalized?
            && Plan(Job(b, false), env, Step(s, Job(a, false), env).table).NoInstallPath?
            && s'.files == (s.files - {o.staged}) + {o.dest}
            && s'.table.rows.Keys == s.table.rows.Keys + {ApkLedger.Key(a, o.version)}
  {
    var ja, jb := Job(a, false), Job(b, false);
    BatchOfTwo(s, env, a, b);
    assert Plan(ja, env, s.table).Finalized?;
    SuccessRecords(s, ja, env);
    NoInstallPathEndsEarly(Step(s, ja, env), jb, env);
  }

  lemma BatchOfTwo(s: State, env: Env, a: string, b: string)
    requires Listed(env, false) == [a, b] && Listed(env, true) == []
    ensures BatchJobs(env) == [Job(a, false), Job(b, false)]
    ensures Run(s, BatchJobs(env), env) == Step(Step(s, Job(a, false), env), Job(b, false), env)
  {
    var ja, jb := Job(a, false), Job(b, false);
    assert Jobs([a, b], false) == [ja, jb];
    assert Jobs([], true) == [];
    assert [ja, jb] + [] == [ja, jb];
    var s1 := Step(s, ja, env);
    assert Run(s, [ja], env) == s1 by { assert [ja][..0] == []; }
    assert Run(s, [ja, jb], env) == Step(s1, jb, env) by { assert [ja, jb][..1] == [ja]; }
  }

  // ---------------------------------------------------------------------
  // The script's state, updated in place.
  // ---------------------------------------------------------------------

  class Harvester {
    var files: set<string>
    var commands: seq<Command>
    const ledger: ApkLedger.Ledger

    ghost predicate Valid()
      reads this, ledger
    {
      ledger.Valid()
    }

    function Current(): State
      reads this, ledger
    {
      State(files, ledger.Contents(), commands)
    }

    /** A run over the local files `files` and an opened ledger. */
    constructor (ledger: ApkLedger.Ledger, files: set<string>)
      requires ledger.Valid()
      ensures Valid() && this.ledger == ledger
      ensures Current() == State(files, ledger.Contents(), [])
    {
      this.ledger := ledger;
      this.files := files;
      this.commands := [];
    }

    /** `run_adb_command`: send a command and return its stripped output. */
    method RunAdb(cmd: Command, env: Env) returns (out: string)
      modifies this`commands
      ensures out == env.run(cmd)
      ensures commands == old(commands) + [cmd]
    {
      out := env.run(cmd);
      commands := commands + [cmd];
    }

    /** `process_package`. */
    method ProcessPackage(job: Job, env: Env) returns (outcome: Outcome)
      requires Valid()
      modifies this, ledger
      ensures Valid()
      ensures outcome == Plan(job, env, old(ledger.Contents()))
      ensures Current() == Step(old(Current()), job, env)
    {
      ghost var s0 := Current();
      var pathOutput := RunAdb(PmPath(job.package), env);
      var remote := ApkNames.InstallPath(pathOutput);
      if remote.None? {
        assert Plan(job, env, s0.table) == NoInstallPath;
        assert Current() == s0.(commands := s0.commands + [PmPath(job.package)]);
        return NoInstallPath;
      }

      var versionOutput := RunAdb(DumpsysVersion(job.package), env);
      var version := ApkNames.VersionName(versionOutput);
      var seen := ledger.IsDownloaded(job.package, version);
      if seen {
        assert Plan(job, env, s0.table) == AlreadyDownloaded(version);
        assert commands == s0.commands + Issued(job, AlreadyDownloaded(version));
        return AlreadyDownloaded(version);
      }

      var staged := ApkNames.StagedPath(job.isSystem, job.package);
      var pullOutput := RunAdb(Pull(remote.value, staged), env);
      if !Text.Contains(pullOutput, PulledMarker) {
        assert Plan(job, env, s0.table) == PullFailed(version, remote.value, staged);
        assert commands == s0.commands + Issued(job, PullFailed(version, remote.value, staged));
        return PullFailed(version, remote.value, staged);
      }
      files := files + {staged};

      var app := ApkNames.AppLabel(job.package, env.appNameOf(staged));
      var dest := ApkNames.FinalPath(job.isSystem, app, version);
      files := files - {staged} + {dest};
      ledger.Add(job.package, app, version, job.isSystem, dest);
      outcome := Finalized(version, remote.value, staged, app, dest);
      assert Plan(job, env, s0.table) == outcome;
      FinalizedState(s0, job, version, remote.value, staged, app, dest);
    }

    /** One `for` loop of `process_apps`: `process_package` on every id of a listing, in order. */
    method ProcessGroup(ids: seq<string>, isSystem: bool, env: Env) returns (done: seq<Job>)
      requires Valid()
      modifies this, ledger
      ensures Valid()
      ensures done == Jobs(ids, isSystem)
      ensures Current() == Run(old(Current()), done, env)
    {
      ghost var start := Current();
      ghost var all := Jobs(ids, isSystem);
      done := [];
      for i := 0 to |ids|
        invariant Valid()
        invariant done == all[..i]
        invariant Current() == Run(start, done, env)
      {
        var job := Job(ids[i], isSystem);
        var outcome := ProcessPackage(job, env);
        RunSnoc(start, done, job, env);
        done := done + [job];
        assert all[..i + 1] == all[..i] + [job];
      }
      assert all[..|ids|] == all;
    }

    /** `process_apps`: list user and system packages, then process every user package, then every system package. */
    method ProcessApps(env: Env) returns (jobs: seq<Job>)
      requires Valid()
      modifies this, ledger
      ensures Valid()
      ensures jobs == BatchJobs(env)
      ensures Current() == Run(old(Current()).(commands := old(commands) + [ListPackages(false), ListPackages(true)]),
                               jobs, env)
    {
      var userOutput := RunAdb(ListPackages(false), env);
      var user := ApkNames.PackageIds(userOutput);
      var systemOutput := RunAdb(ListPackages(true), env);
      var system := ApkNames.PackageIds(systemOutput);
      ghost var start := Current();
      assert start == old(Current()).(commands := old(commands) + [ListPackages(false), ListPackages(true)]);

      var userJobs := ProcessGroup(user, false, env);
      var systemJobs := ProcessGroup(system, true, env);
      RunAppend(start, userJobs, systemJobs, env);
      jobs := userJobs + systemJobs;
    }
  }
}
