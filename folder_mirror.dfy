/**
 * `download_files_from_folder` of download_folder.py: list every regular
 * file under a remote folder with `find`, and for each listed path, in
 * order, create the parent of its local counterpart and `adb pull` it there.
 *
 * The device is an oracle from commands to their stripped output, `None`
 * when the command fails. The local file system is not modelled as a set:
 * what the function does to it is the sequence of effects it performs
 * (directory creations and device commands), returned together with the
 * per-file success reports the script prints.
 */
module FolderMirror {

  import opened Wrappers
  import opened Adb
  import Text
  import PosixPath

  /** One thing the function does to the outside world. */
  datatype Effect =
    | Adb(cmd: Command)      // a command sent to the device
    | MakeDirs(path: string) // `os.makedirs(path, exist_ok=True)`

  /** The message printed for one file: its base name and whether it was downloaded. */
  datatype FileReport = FileReport(name: string, ok: bool)

  /**
   * `os.path.join(local_folder, os.path.relpath(p, remote_folder))` for a
   * path `p` strictly under the remote folder.
   */
  function LocalPath(remoteRoot: string, localRoot: string, p: string): string
    requires PosixPath.NormalAbsolute(remoteRoot) && PosixPath.Under(remoteRoot, p)
  {
    PosixPath.Join(localRoot, PosixPath.RelPath(remoteRoot, p))
  }

  /** `pull_result and "pulled" in pull_result`. */
  predicate Succeeded(pullResult: Option<string>)
  {
    pullResult.Some? && pullResult.value != [] && Text.Contains(pullResult.value, PulledMarker)
  }

  /** Every path in `files` names a file strictly under `remoteRoot`. */
  predicate AllUnder(remoteRoot: string, files: seq<string>)
  {
    forall k :: 0 <= k < |files| ==> PosixPath.Under(remoteRoot, files[k])
  }

  lemma AllUnderPrefix(remoteRoot: string, files: seq<string>, n: nat)
    requires AllUnder(remoteRoot, files) && n <= |files|
    ensures AllUnder(remoteRoot, files[..n])
  {
    forall k | 0 <= k < n ensures PosixPath.Under(remoteRoot, files[..n][k]) {
      assert files[..n][k] == files[k];
    }
  }

  /** Every line `find` prints names a file strictly under the folder it searched. */
  predicate ListedUnder(remoteRoot: string, run: Command -> Option<string>)
  {
    var listing := run(FindFiles(remoteRoot));
    listing.Some? ==> AllUnder(remoteRoot, Text.Lines(listing.value))
  }

  /**
   * What the `for` loop does for `files`: for each path, in order, the
   * creation of the parent of its local path, then one pull to that path.
   */
  function PullEffects(remoteRoot: string, localRoot: string, files: seq<string>): (effects: seq<Effect>)
    requires PosixPath.NormalAbsolute(remoteRoot) && AllUnder(remoteRoot, files)
    ensures |effects| == 2 * |files|
    decreases |files|
  {
    if files == [] then []
    else
      var n := |files| - 1;
      AllUnderPrefix(remoteRoot, files, n);
      PullEffects(remoteRoot, localRoot, files[..n]) + FileEffects(remoteRoot, localRoot, files[n])
  }

  /** The two effects of one pass of the loop for `p`: create the parent of its local path, then pull it there. */
  function FileEffects(remoteRoot: string, localRoot: string, p: string): seq<Effect>
    requires PosixPath.NormalAbsolute(remoteRoot) && PosixPath.Under(remoteRoot, p)
  {
    var dest := LocalPath(remoteRoot, localRoot, p);
    [MakeDirs(PosixPath.Dirname(dest)), Adb(Pull(p, dest))]
  }

  /** The reports the loop prints for `files`, one per path, in order. */
  function Reports(remoteRoot: string, localRoot: string, run: Command -> Option<string>, files: seq<string>): (reports: seq<FileReport>)
    requires PosixPath.NormalAbsolute(remoteRoot) && AllUnder(remoteRoot, files)
    ensures |reports| == |files|
    decreases |files|
  {
    if files == [] then []
    else
      var n := |files| - 1;
      AllUnderPrefix(remoteRoot, files, n);
      var dest := LocalPath(remoteRoot, localRoot, files[n]);
      Reports(remoteRoot, localRoot, run, files[..n]) + [FileReport(PosixPath.Basename(files[n]), Succeeded(run(Pull(files[n], dest))))]
  }

  /**
   * Exactly two effects per listed path, in listing order: first the
   * creation of the parent directory of its local path, then one pull of
   * the path to its local path.
   */
  lemma {:induction false} PullEffectsSpec(remoteRoot: string, localRoot: string, files: seq<string>, k: nat)
    requires PosixPath.NormalAbsolute(remoteRoot) && AllUnder(remoteRoot, files)
    requires k < |files|
    ensures var effects := PullEffects(remoteRoot, localRoot, files);
            var dest := LocalPath(remoteRoot, localRoot, files[k]);
            effects[2 * k] == MakeDirs(PosixPath.Dirname(dest)) && effects[2 * k + 1] == Adb(Pull(files[k], dest))
    decreases |files|
  {
    var n := |files| - 1;
    AllUnderPrefix(remoteRoot, files, n);
    var front := PullEffects(remoteRoot, localRoot, files[..n]);
    var last := FileEffects(remoteRoot, localRoot, files[n]);
    assert PullEffects(remoteRoot, localRoot, files) == front + last;
    assert |last| == 2;
    if k < n {
      PullEffectsSpec(remoteRoot, localRoot, files[..n], k);
      assert files[..n][k] == files[k];
      assert (front + last)[2 * k] == front[2 * k] && (front + last)[2 * k + 1] == front[2 * k + 1];
    } else {
      assert (front + last)[2 * k] == last[0] && (front + last)[2 * k + 1] == last[1];
    }
  }

  /**
   * One report per listed path, in listing order, naming the path's base
   * name and successful exactly when its pull printed `pulled`.
   */
  lemma {:induction false} ReportsSpec(remoteRoot: string, localRoot: string, run: Command -> Option<string>,
                                       files: seq<string>, k: nat)
    requires PosixPath.NormalAbsolute(remoteRoot) && AllUnder(remoteRoot, files)
    requires k < |files|
    ensures Reports(remoteRoot, localRoot, run, files)[k]
            == FileReport(PosixPath.Basename(files[k]),
                          Succeeded(run(Pull(files[k], LocalPath(remoteRoot, localRoot, files[k])))))
    decreases |files|
  {
    var n := |files| - 1;
    AllUnderPrefix(remoteRoot, files, n);
    var front := Reports(remoteRoot, localRoot, run, files[..n]);
    var dest := LocalPath(remoteRoot, localRoot, files[n]);
    var last := FileReport(PosixPath.Basename(files[n]), Succeeded(run(Pull(files[n], dest))));
    assert Reports(remoteRoot, localRoot, run, files) == front + [last];
    if k < n {
      ReportsSpec(remoteRoot, localRoot, run, files[..n], k);
      assert files[..n][k] == files[k];
      assert (front + [last])[k] == front[k];
    }
  }

  /**
   * `download_files_from_folder(remote_folder, local_folder)`. A failed
   * listing ends the function after the one `find`; otherwise the `find` is
   * followed by the effects and reports of every listed line, in order,
   * a failed pull not stopping the ones after it.
   */
  method DownloadFilesFromFolder(remoteRoot: string, localRoot: string, run: Command -> Option<string>)
    returns (trace: seq<Effect>, reports: seq<FileReport>)
    requires PosixPath.NormalAbsolute(remoteRoot) && localRoot != []
    requires ListedUnder(remoteRoot, run)
    ensures run(FindFiles(remoteRoot)).None? ==> trace == [Adb(FindFiles(remoteRoot))] && reports == []
    ensures run(FindFiles(remoteRoot)).Some? ==>
              var files := Text.Lines(run(FindFiles(remoteRoot)).value);
              && trace == [Adb(FindFiles(remoteRoot))] + PullEffects(remoteRoot, localRoot, files)
              && reports == Reports(remoteRoot, localRoot, run, files)
  {
    trace := [Adb(FindFiles(remoteRoot))];
    reports := [];
    var listing := run(FindFiles(remoteRoot));
    if listing.None? {
      return;
    }

    var files := Text.Lines(listing.value);
    var pulls: seq<Effect> := [];
    for i := 0 to |files|
      invariant AllUnder(remoteRoot, files[..i])
      invariant pulls == PullEffects(remoteRoot, localRoot, files[..i])
      invariant reports == Reports(remoteRoot, localRoot, run, files[..i])
    {
      var remote := files[i];
      var dest := LocalPath(remoteRoot, localRoot, remote);
      var localDir := PosixPath.Dirname(dest);
      var pullResult := run(Pull(remote, dest));
      pulls := pulls + [MakeDirs(localDir), Adb(Pull(remote, dest))];
      reports := reports + [FileReport(PosixPath.Basename(remote), Succeeded(pullResult))];
      LoopStep(remoteRoot, localRoot, run, files, i);
    }
    assert files[..|files|] == files;
    trace := trace + pulls;
  }

  /** One more file handled by the loop adds its two effects and its report at the end. */
  lemma LoopStep(remoteRoot: string, localRoot: string, run: Command -> Option<string>, files: seq<string>, i: nat)
    requires PosixPath.NormalAbsolute(remoteRoot) && AllUnder(remoteRoot, files) && i < |files|
    ensures AllUnder(remoteRoot, files[..i]) && AllUnder(remoteRoot, files[..i + 1])
    ensures var dest := LocalPath(remoteRoot, localRoot, files[i]);
            && PullEffects(remoteRoot, localRoot, files[..i + 1])
               == PullEffects(remoteRoot, localRoot, files[..i]) + [MakeDirs(PosixPath.Dirname(dest)), Adb(Pull(files[i], dest))]
            && Reports(remoteRoot, localRoot, run, files[..i + 1])
               == Reports(remoteRoot, localRoot, run, files[..i]) + [FileReport(PosixPath.Basename(files[i]), Succeeded(run(Pull(files[i], dest))))]
  {
    AllUnderPrefix(remoteRoot, files, i);
    AllUnderPrefix(remoteRoot, files, i + 1);
    assert files[..i + 1][..i] == files[..i];
  }

  // ---------------------------------------------------------------------
  // The path mapping.
  // ---------------------------------------------------------------------

  /** Under a local folder without a trailing '/', `<remote>/<r>` maps to `<local>/<r>`. */
  lemma LocalPathUnderLocal(remoteRoot: string, localRoot: string, r: string)
    requires PosixPath.NormalAbsolute(remoteRoot) && PosixPath.Under(remoteRoot, remoteRoot + "/" + r)
    requires localRoot != [] && localRoot[|localRoot| - 1] != '/'
    ensures LocalPath(remoteRoot, localRoot, remoteRoot + "/" + r) == localRoot + "/" + r
  {
    var p := remoteRoot + "/" + r;
    assert PosixPath.RelPath(remoteRoot, p) == r;
    PosixPath.JoinRelative(localRoot, r);
  }

  /** Distinct files under the remote folder map to distinct local paths. */
  lemma LocalPathInjective(remoteRoot: string, localRoot: string, p1: string, p2: string)
    requires PosixPath.NormalAbsolute(remoteRoot)
    requires PosixPath.Under(remoteRoot, p1) && PosixPath.Under(remoteRoot, p2)
    requires LocalPath(remoteRoot, localRoot, p1) == LocalPath(remoteRoot, localRoot, p2)
    ensures p1 == p2
  {
    var r1 := PosixPath.RelPath(remoteRoot, p1);
    var r2 := PosixPath.RelPath(remoteRoot, p2);
    PosixPath.JoinInjective(localRoot, r1, r2);
  }

  /**
   * The directory created before a pull is the one that holds the pulled
   * file, and the file keeps the base name it has on the device.
   */
  lemma ParentOfLocalPath(remoteRoot: string, localRoot: string, p: string)
    requires PosixPath.NormalAbsolute(remoteRoot) && PosixPath.Under(remoteRoot, p)
    requires localRoot != [] && localRoot[|localRoot| - 1] != '/'
    ensures var dest := LocalPath(remoteRoot, localRoot, p);
            && dest == PosixPath.Dirname(dest) + "/" + PosixPath.Basename(dest)
            && PosixPath.Basename(dest) == PosixPath.Basename(p)
            && PosixPath.Basename(dest) != [] && '/' !in PosixPath.Basename(dest)
  {
    var r := PosixPath.RelPath(remoteRoot, p);
    PosixPath.DirnameOfJoin(localRoot, r);
    PosixPath.DirnameOfJoin(remoteRoot, r);
    PosixPath.JoinRelative(remoteRoot, r);
  }

  /** A pull succeeded exactly when it printed something holding `pulled` somewhere. */
  lemma SucceededSpec(pullResult: Option<string>)
    ensures Succeeded(pullResult)
            <==> pullResult.Some? && exists i :: Text.OccursAt(PulledMarker, pullResult.value, i)
  {
  }

  /**
   * Before the pull of each listed file, the loop creates exactly the
   * directory that is to hold it: the local path is that directory, a '/',
   * and the file's base name on the device.
   */
  lemma ParentMadeBeforePull(remoteRoot: string, localRoot: string, files: seq<string>, k: nat)
    requires PosixPath.NormalAbsolute(remoteRoot) && AllUnder(remoteRoot, files) && k < |files|
    requires localRoot != [] && localRoot[|localRoot| - 1] != '/'
    ensures var effects := PullEffects(remoteRoot, localRoot, files);
            var dest := LocalPath(remoteRoot, localRoot, files[k]);
            && effects[2 * k + 1] == Adb(Pull(files[k], dest))
            && effects[2 * k].MakeDirs?
            && dest == effects[2 * k].path + "/" + PosixPath.Basename(files[k])
  {
    PullEffectsSpec(remoteRoot, localRoot, files, k);
    ParentOfLocalPath(remoteRoot, localRoot, files[k]);
  }
}
