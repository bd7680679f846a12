/**
 * The pure string logic of download_apk.py: the filename sanitiser, the
 * parsers for the output of `pm path`, `dumpsys package | grep versionName`
 * and `pm list packages`, and the composition of staged and final names.
 */
module ApkNames {

  import opened Wrappers
  import Text
  import PosixPath

  const PackagePrefix: string := "package:"
  const VersionKey: string := "versionName="
  const UnknownVersion: string := "unknown"
  const UserApkDirectory: string := "user_apks"
  const SystemApkDirectory: string := "system_apks"

  /** The characters the sanitiser deletes: `\ / : * ? " < > |`. */
  predicate IsIllegal(c: char)
  {
    c == '\\' || c == '/' || c == ':' || c == '*' || c == '?' || c == '"' || c == '<' || c == '>' || c == '|'
  }

  /** `r` is `s` with some characters deleted, the rest kept in order. */
  predicate IsSubsequence(r: string, s: string)
    decreases |s|
  {
    if r == [] then true
    else if s == [] then false
    else if r[0] == s[0] then IsSubsequence(r[1..], s[1..])
    else IsSubsequence(r, s[1..])
  }

  lemma {:induction false} SubsequenceNotLonger(r: string, s: string)
    requires IsSubsequence(r, s)
    ensures |r| <= |s|
    decreases |s|
  {
    if r != [] {
      if r[0] == s[0] { SubsequenceNotLonger(r[1..], s[1..]); } else { SubsequenceNotLonger(r, s[1..]); }
    }
  }

  /** `re.sub(r'[\\/:*?"<>|]', '', name)`: `name` without its illegal characters. */
  function Sanitize(name: string): string
  {
    if name == [] then []
    else if IsIllegal(name[0]) then Sanitize(name[1..])
    else [name[0]] + Sanitize(name[1..])
  }

  /**
   * The sanitised name has no illegal character, keeps every other character
   * of `name` as often as `name` has it, and in the same order.
   */
  lemma {:induction false} SanitizeSpec(name: string)
    ensures var r := Sanitize(name);
            && (forall i :: 0 <= i < |r| ==> !IsIllegal(r[i]))
            && (forall c :: !IsIllegal(c) ==> multiset(r)[c] == multiset(name)[c])
            && IsSubsequence(r, name)
            && |r| <= |name|
  {
    if name != [] {
      var rest := Sanitize(name[1..]);
      SanitizeSpec(name[1..]);
      assert name == [name[0]] + name[1..];
      if IsIllegal(name[0]) {
        SubsequenceDropHead(rest, name);
      } else {
        var r := [name[0]] + rest;
        assert r[1..] == rest;
      }
    }
  }

  lemma SubsequenceDropHead(r: string, s: string)
    requires s != [] && IsSubsequence(r, s[1..])
    ensures IsSubsequence(r, s)
    decreases |s|, 1
  {
    if r != [] && r[0] == s[0] {
      SubsequenceTail(r, s[1..]);
    }
  }

  lemma SubsequenceTail(r: string, t: string)
    requires r != [] && IsSubsequence(r, t)
    ensures IsSubsequence(r[1..], t)
    decreases |t| + 1, 0
  {
    if r[0] != t[0] {
      SubsequenceTail(r, t[1..]);
    }
    SubsequenceDropHead(r[1..], t);
  }

  /** A name without illegal characters is left as it is. */
  lemma {:induction false} SanitizeClean(s: string)
    requires forall i :: 0 <= i < |s| ==> !IsIllegal(s[i])
    ensures Sanitize(s) == s
  {
    if s != [] {
      SanitizeClean(s[1..]);
    }
  }

  /** Sanitising twice is sanitising once. */
  lemma SanitizeIdempotent(s: string)
    ensures Sanitize(Sanitize(s)) == Sanitize(s)
  {
    SanitizeSpec(s);
    SanitizeClean(Sanitize(s));
  }

  /** The sanitiser works character by character: it distributes over concatenation. */
  lemma {:induction false} SanitizeConcat(a: string, b: string)
    ensures Sanitize(a + b) == Sanitize(a) + Sanitize(b)
  {
    if a != [] {
      assert (a + b)[1..] == a[1..] + b;
      SanitizeConcat(a[1..], b);
    } else {
      assert a + b == b;
    }
  }

  /** The install path: group 1 of `re.search(r'package:(.+)', output)`. */
  function InstallPath(pmPathOutput: string): Option<string>
  {
    Text.SearchRestOfLine(PackagePrefix, pmPathOutput)
  }

  /** The version label: the sanitised group 1 of `re.search(r'versionName=(.+)', output)`, else `unknown`. */
  function VersionName(dumpsysOutput: string): string
  {
    match Text.SearchRestOfLine(VersionKey, dumpsysOutput)
    case Some(v) => Sanitize(v)
    case None => UnknownVersion
  }

  /**
   * Path resolution fails exactly when no `package:` is followed by a
   * character other than '\n'; otherwise the path is the rest of the line
   * after the first such `package:`.
   */
  lemma InstallPathSpec(out: string)
    ensures InstallPath(out).None? <==> forall i :: !Text.MatchAt(PackagePrefix, out, i)
    ensures InstallPath(out).Some? ==>
              exists i :: Text.IsFirstMatch(PackagePrefix, out, i)
                       && InstallPath(out).value == out[i + |PackagePrefix|..Text.LineEnd(out, i + |PackagePrefix|)]
  {
    Text.SearchRestOfLineSpec(PackagePrefix, out);
  }

  /**
   * The version is `unknown` when no `versionName=` is followed by a
   * character other than '\n', and otherwise the sanitised rest of the line
   * after the first such key; it never holds an illegal character.
   */
  lemma VersionNameSpec(out: string)
    ensures forall i :: 0 <= i < |VersionName(out)| ==> !IsIllegal(VersionName(out)[i])
    ensures (forall i :: !Text.MatchAt(VersionKey, out, i)) ==> VersionName(out) == UnknownVersion
    ensures (exists i :: Text.MatchAt(VersionKey, out, i)) ==>
              exists i :: Text.IsFirstMatch(VersionKey, out, i)
                       && VersionName(out) == Sanitize(out[i + |VersionKey|..Text.LineEnd(out, i + |VersionKey|)])
  {
    Text.SearchRestOfLineSpec(VersionKey, out);
    match Text.SearchRestOfLine(VersionKey, out)
    case None =>
    case Some(v) =>
      var i :| Text.IsFirstMatch(VersionKey, out, i)
               && v == out[i + |VersionKey|..Text.LineEnd(out, i + |VersionKey|)];
      assert VersionName(out) == Sanitize(v);
      SanitizeSpec(v);
  }

  /** The application label: the sanitised extracted name, or the package id as it is when the name is `None` or empty. */
  function AppLabel(package: string, extracted: Option<string>): string
  {
    if extracted.Some? && extracted.value != [] then Sanitize(extracted.value) else package
  }

  /** `f"{app_name}-{version_name}.apk"`. */
  function FinalFileName(app: string, version: string): string
  {
    app + "-" + version + ".apk"
  }

  /** The directory a package's APK goes to. */
  function ApkDirectory(isSystem: bool): string
  {
    if isSystem then SystemApkDirectory else UserApkDirectory
  }

  /** `os.path.join(apk_directory, f"{package}.apk")`. */
  function StagedPath(isSystem: bool, package: string): string
  {
    PosixPath.Join(ApkDirectory(isSystem), package + ".apk")
  }

  /** `os.path.join(apk_directory, output_file_name)`. */
  function FinalPath(isSystem: bool, app: string, version: string): string
  {
    PosixPath.Join(ApkDirectory(isSystem), FinalFileName(app, version))
  }

  /** Final names land in the package's directory as `<dir>/<app>-<version>.apk`. */
  lemma FinalPathShape(isSystem: bool, app: string, version: string)
    requires app == [] || app[0] != '/'
    ensures FinalPath(isSystem, app, version)
            == ApkDirectory(isSystem) + "/" + app + "-" + version + ".apk"
  {
    var dir := ApkDirectory(isSystem);
    assert dir[|dir| - 1] == 's';
    var f := FinalFileName(app, version);
    assert f == [] || f[0] != '/' by {
      if app == [] { assert f[0] == '-'; }
      else { assert f[0] == app[0]; }
    }
    PosixPath.JoinRelative(dir, f);
  }

  /** `[line.replace('package:', '') for line in output.splitlines()]`. */
  function PackageIds(listing: string): seq<string>
  {
    var ls := Text.Lines(listing);
    seq(|ls|, k requires 0 <= k < |ls| => Text.RemoveAll(PackagePrefix, ls[k]))
  }

  /** `package:` has no proper prefix that is also a suffix. */
  lemma PackagePrefixBorderless()
    ensures Text.Borderless(PackagePrefix)
  {
    forall j | 1 <= j < |PackagePrefix|
      ensures PackagePrefix[j..] != PackagePrefix[..|PackagePrefix| - j]
    {
      assert PackagePrefix[j..][0] == PackagePrefix[j] != 'p';
    }
  }

  /**
   * A `package:` anywhere in a line is removed, not only a leading one: text
   * before it that holds no `package:` is kept, and the scan continues after it.
   */
  lemma RemoveInnerPrefix(a: string, b: string)
    requires forall i :: !Text.OccursAt(PackagePrefix, a, i)
    ensures Text.RemoveAll(PackagePrefix, a + PackagePrefix + b) == a + Text.RemoveAll(PackagePrefix, b)
  {
    PackagePrefixBorderless();
    Text.RemoveAllInner(PackagePrefix, a, b);
  }

  /** The text `pm list packages` prints for the given ids, one `package:<id>` line each. */
  function Listing(ids: seq<string>): string
  {
    Text.JoinWith(seq(|ids|, k requires 0 <= k < |ids| => PackagePrefix + ids[k]), '\n')
  }

  /** Parsing a listing gives back its ids, in order, when no id holds a '\n' or a `package:`. */
  lemma PackageIdsOfListing(ids: seq<string>)
    requires forall k :: 0 <= k < |ids| ==> '\n' !in ids[k]
    requires forall k, i :: 0 <= k < |ids| ==> !Text.OccursAt(PackagePrefix, ids[k], i)
    ensures PackageIds(Listing(ids)) == ids
  {
    var lines := seq(|ids|, k requires 0 <= k < |ids| => PackagePrefix + ids[k]);
    forall k | 0 <= k < |lines| ensures '\n' !in lines[k] {
      assert '\n' !in PackagePrefix;
    }
    if lines != [] {
      assert lines[|lines| - 1][0] == 'p';
    }
    Text.LinesOfJoin(lines);
    forall k | 0 <= k < |ids| ensures Text.RemoveAll(PackagePrefix, lines[k]) == ids[k] {
      Text.RemoveAllLeading(PackagePrefix, ids[k]);
    }
  }
}
