/**
 * The Python string operations the scripts rely on, over `seq<char>`:
 * substring membership (`pat in s`), the regular-expression search
 * `re.search(prefix + "(.+)", s).group(1)`, `str.replace(pat, "")`,
 * and `str.splitlines()` restricted to the line feed.
 */
module Text {

  import opened Wrappers

  /** `pat` occurs in `s` starting at index `i`. */
  predicate OccursAt(pat: string, s: string, i: int)
  {
    0 <= i && i + |pat| <= |s| && s[i..i + |pat|] == pat
  }

  lemma OccursAtShift(pat: string, s: string, i: int)
    requires s != [] && 0 <= i
    ensures OccursAt(pat, s[1..], i) <==> OccursAt(pat, s, i + 1)
  {
    if 0 <= i && i + |pat| <= |s| - 1 {
      assert s[1..][i..i + |pat|] == s[i + 1..i + 1 + |pat|];
    }
  }

  /** Python's `pat in s`. */
  function Contains(s: string, pat: string): (b: bool)
    ensures b <==> exists i :: OccursAt(pat, s, i)
    decreases |s|
  {
    if |s| < |pat| then false
    else if s[..|pat|] == pat then assert OccursAt(pat, s, 0); true
    else
      var b := Contains(s[1..], pat);
      assert b <==> exists i :: OccursAt(pat, s, i) by {
        if b {
          var i :| OccursAt(pat, s[1..], i);
          OccursAtShift(pat, s, i);
        } else {
          forall i | OccursAt(pat, s, i) ensures false {
            assert i != 0;
            OccursAtShift(pat, s, i - 1);
          }
        }
      }
      b
  }

  // ---------------------------------------------------------------------
  // re.search(prefix + "(.+)", s): `.` matches any character but '\n', and
  // `.+` is greedy, so the group is the rest of the line after the first
  // occurrence of `prefix` that is followed by at least one such character.
  // ---------------------------------------------------------------------

  /** The pattern `prefix(.+)` matches at index `i` of `s`. */
  predicate MatchAt(prefix: string, s: string, i: int)
  {
    OccursAt(prefix, s, i) && i + |prefix| < |s| && s[i + |prefix|] != '\n'
  }

  /** `i` is the leftmost index at which `prefix(.+)` matches. */
  predicate IsFirstMatch(prefix: string, s: string, i: int)
  {
    MatchAt(prefix, s, i) && forall j :: 0 <= j < i ==> !MatchAt(prefix, s, j)
  }

  /** The end of the line that holds index `k`: the next '\n' at or after `k`, or `|s|`. */
  function LineEnd(s: string, k: nat): (j: nat)
    requires k <= |s|
    ensures k <= j <= |s|
    ensures j == |s| || s[j] == '\n'
    ensures forall t :: k <= t < j ==> s[t] != '\n'
    decreases |s| - k
  {
    if k == |s| || s[k] == '\n' then k else LineEnd(s, k + 1)
  }

  /** The leftmost index at or after `k` where `prefix(.+)` matches. */
  function FirstMatchFrom(prefix: string, s: string, k: nat): (r: Option<nat>)
    ensures r.Some? ==> k <= r.value && MatchAt(prefix, s, r.value)
    ensures r.Some? ==> forall j :: k <= j < r.value ==> !MatchAt(prefix, s, j)
    ensures r.None? ==> forall j :: k <= j ==> !MatchAt(prefix, s, j)
    decreases |s| - k
  {
    if k + |prefix| >= |s| then None
    else if MatchAt(prefix, s, k) then Some(k)
    else FirstMatchFrom(prefix, s, k + 1)
  }

  /** `re.search(prefix + "(.+)", s)`, giving group 1 of the match if there is one. */
  function SearchRestOfLine(prefix: string, s: string): Option<string>
  {
    match FirstMatchFrom(prefix, s, 0)
    case None => None
    case Some(i) => Some(s[i + |prefix|..LineEnd(s, i + |prefix|)])
  }

  /**
   * The search fails exactly when `prefix(.+)` matches nowhere; otherwise
   * its group is the non-empty rest of the line after the leftmost match.
   */
  lemma SearchRestOfLineSpec(prefix: string, s: string)
    ensures var r := SearchRestOfLine(prefix, s);
            && (r.None? <==> forall i :: !MatchAt(prefix, s, i))
            && (r.Some? ==> exists i :: IsFirstMatch(prefix, s, i)
                                     && r.value == s[i + |prefix|..LineEnd(s, i + |prefix|)])
            && (r.Some? ==> |r.value| >= 1 && '\n' !in r.value)
  {
    match FirstMatchFrom(prefix, s, 0)
    case None =>
    case Some(i) =>
      var v := s[i + |prefix|..LineEnd(s, i + |prefix|)];
      assert IsFirstMatch(prefix, s, i);
      assert forall t :: 0 <= t < |v| ==> v[t] == s[i + |prefix| + t];
  }

  // ---------------------------------------------------------------------
  // str.replace(pat, ""): scans left to right and drops every
  // non-overlapping occurrence of `pat`.
  // ---------------------------------------------------------------------

  function RemoveAll(pat: string, s: string): (r: string)
    requires pat != []
    ensures |r| <= |s|
    ensures (forall i :: !OccursAt(pat, s, i)) ==> r == s
    decreases |s|
  {
    if |s| < |pat| then s
    else if s[..|pat|] == pat then assert OccursAt(pat, s, 0); RemoveAll(pat, s[|pat|..])
    else
      assert (forall i :: !OccursAt(pat, s, i)) ==> (forall i :: !OccursAt(pat, s[1..], i)) by {
        forall i | OccursAt(pat, s[1..], i) ensures OccursAt(pat, s, i + 1) {
          assert 0 <= i;
          OccursAtShift(pat, s, i);
        }
      }
      [s[0]] + RemoveAll(pat, s[1..])
  }

  /** A leading occurrence of `pat` is dropped and the scan continues after it. */
  lemma RemoveAllLeading(pat: string, s: string)
    requires pat != []
    ensures RemoveAll(pat, pat + s) == RemoveAll(pat, s)
  {
    assert (pat + s)[..|pat|] == pat;
    assert (pat + s)[|pat|..] == s;
  }

  /** No proper prefix of `pat` is also a suffix of it. */
  predicate Borderless(pat: string)
  {
    forall j :: 1 <= j < |pat| ==> pat[j..] != pat[..|pat| - j]
  }

  lemma RemoveAllSkip(pat: string, s: string)
    requires pat != [] && |s| >= |pat| && s[..|pat|] != pat
    ensures RemoveAll(pat, s) == [s[0]] + RemoveAll(pat, s[1..])
  {
  }

  lemma NoOccurrenceInTail(pat: string, a: string)
    requires a != []
    requires forall i :: !OccursAt(pat, a, i)
    ensures forall i :: !OccursAt(pat, a[1..], i)
  {
    forall i | OccursAt(pat, a[1..], i) ensures false {
      OccursAtShift(pat, a, i);
    }
  }

  /** Text that holds no `pat` cannot start an occurrence that runs into a following borderless `pat`. */
  lemma NoOccurrenceAtStart(pat: string, a: string, b: string)
    requires a != [] && Borderless(pat)
    requires forall i :: !OccursAt(pat, a, i)
    ensures (a + pat + b)[..|pat|] != pat
  {
    var n := |pat|;
    var s := a + pat + b;
    if |a| >= n {
      assert s[..n] == a[..n];
      assert !OccursAt(pat, a, 0);
    } else {
      assert pat[|a|..] != pat[..n - |a|];
      assert s[..n][|a|..] == pat[..n - |a|];
    }
  }

  /**
   * An occurrence of a borderless `pat` anywhere is dropped: the text before
   * it, holding no `pat`, is kept, and the scan continues after it.
   */
  lemma {:induction false} RemoveAllInner(pat: string, a: string, b: string)
    requires pat != [] && Borderless(pat)
    requires forall i :: !OccursAt(pat, a, i)
    ensures RemoveAll(pat, a + pat + b) == a + RemoveAll(pat, b)
    decreases |a|
  {
    var s := a + pat + b;
    if a == [] {
      assert s == pat + b;
      RemoveAllLeading(pat, b);
    } else {
      var t := a[1..] + pat + b;
      NoOccurrenceAtStart(pat, a, b);
      RemoveAllSkip(pat, s);
      assert s[1..] == t;
      NoOccurrenceInTail(pat, a);
      RemoveAllInner(pat, a[1..], b);
      calc {
        RemoveAll(pat, s);
        [a[0]] + RemoveAll(pat, t);
        [a[0]] + (a[1..] + RemoveAll(pat, b));
        { assert [a[0]] + a[1..] == a; }
        a + RemoveAll(pat, b);
      }
    }
  }

  // ---------------------------------------------------------------------
  // Splitting at a separator, joining, and splitlines.
  // ---------------------------------------------------------------------

  /** Python's `s.split(sep)` for a one-character separator: never empty. */
  function Split(s: string, sep: char): (parts: seq<string>)
    ensures |parts| >= 1
    ensures forall k :: 0 <= k < |parts| ==> sep !in parts[k]
  {
    if s == [] then [[]]
    else
      var rest := Split(s[1..], sep);
      if s[0] == sep then [[]] + rest else [[s[0]] + rest[0]] + rest[1..]
  }

  /** Python's `sep.join(parts)`. */
  function JoinWith(parts: seq<string>, sep: char): string
  {
    if |parts| == 0 then []
    else if |parts| == 1 then parts[0]
    else parts[0] + [sep] + JoinWith(parts[1..], sep)
  }

  lemma JoinWithConsHead(c: char, parts: seq<string>, sep: char)
    requires |parts| >= 1
    ensures JoinWith([[c] + parts[0]] + parts[1..], sep) == [c] + JoinWith(parts, sep)
  {
    var q := [[c] + parts[0]] + parts[1..];
    assert q[1..] == parts[1..];
  }

  /** Joining the pieces of a split gives back the string. */
  lemma {:induction false} JoinSplit(s: string, sep: char)
    ensures JoinWith(Split(s, sep), sep) == s
    decreases |s|
  {
    if s != [] {
      var rest := Split(s[1..], sep);
      JoinSplit(s[1..], sep);
      if s[0] == sep {
        var q := [[]] + rest;
        assert q[1..] == rest;
        assert JoinWith(q, sep) == [] + [sep] + s[1..];
      } else {
        JoinWithConsHead(s[0], rest, sep);
      }
      assert s == [s[0]] + s[1..];
    }
  }

  lemma {:induction false} SplitWithout(p: string, sep: char)
    requires sep !in p
    ensures Split(p, sep) == [p]
    decreases |p|
  {
    if p != [] {
      SplitWithout(p[1..], sep);
      assert p == [p[0]] + p[1..];
    }
  }

  lemma {:induction false} SplitAtFirst(p: string, sep: char, t: string)
    requires sep !in p
    ensures Split(p + [sep] + t, sep) == [p] + Split(t, sep)
    decreases |p|
  {
    var s := p + [sep] + t;
    if p == [] {
      assert s[1..] == t;
    } else {
      assert s[1..] == p[1..] + [sep] + t;
      SplitAtFirst(p[1..], sep, t);
      assert [p[0]] + p[1..] == p;
    }
  }

  /** Splitting a join of separator-free pieces gives back the pieces. */
  lemma {:induction false} SplitJoin(parts: seq<string>, sep: char)
    requires |parts| >= 1
    requires forall k :: 0 <= k < |parts| ==> sep !in parts[k]
    ensures Split(JoinWith(parts, sep), sep) == parts
    decreases |parts|
  {
    if |parts| == 1 {
      SplitWithout(parts[0], sep);
    } else {
      SplitJoin(parts[1..], sep);
      SplitAtFirst(parts[0], sep, JoinWith(parts[1..], sep));
      assert [parts[0]] + parts[1..] == parts;
    }
  }

  /**
   * Python's `s.splitlines()` with '\n' as the only line boundary: no lines
   * for the empty string, and a final line feed does not start an empty line.
   */
  function Lines(s: string): (ls: seq<string>)
    ensures forall k :: 0 <= k < |ls| ==> '\n' !in ls[k]
  {
    if s == [] then []
    else if s[|s| - 1] == '\n' then Split(s[..|s| - 1], '\n')
    else Split(s, '\n')
  }

  /** The lines, joined with line feeds, are the text up to a final line feed. */
  lemma LinesJoin(s: string)
    ensures JoinWith(Lines(s), '\n') + (if s != [] && s[|s| - 1] == '\n' then "\n" else "") == s
  {
    if s != [] && s[|s| - 1] == '\n' {
      JoinSplit(s[..|s| - 1], '\n');
      assert s[..|s| - 1] + "\n" == s;
    } else if s != [] {
      JoinSplit(s, '\n');
    }
  }

  /** Lines without line feeds, the last one non-empty, are recovered from their join. */
  lemma LinesOfJoin(ls: seq<string>)
    requires forall k :: 0 <= k < |ls| ==> '\n' !in ls[k]
    requires ls != [] ==> ls[|ls| - 1] != []
    ensures Lines(JoinWith(ls, '\n')) == ls
  {
    if ls != [] {
      var s := JoinWith(ls, '\n');
      JoinLastNonEmpty(ls, '\n');
      SplitJoin(ls, '\n');
    }
  }

  lemma {:induction false} JoinLastNonEmpty(ls: seq<string>, sep: char)
    requires ls != [] && ls[|ls| - 1] != []
    requires sep !in ls[|ls| - 1]
    ensures var s := JoinWith(ls, sep); s != [] && s[|s| - 1] != sep
    decreases |ls|
  {
    if |ls| > 1 {
      JoinLastNonEmpty(ls[1..], sep);
      var t := JoinWith(ls[1..], sep);
      assert JoinWith(ls, sep) == ls[0] + [sep] + t;
      assert (ls[0] + [sep] + t)[|ls[0]| + 1 + |t| - 1] == t[|t| - 1];
    } else {
      assert ls[0][|ls[0]| - 1] in ls[0];
    }
  }
}
