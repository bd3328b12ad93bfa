/**
 * Turning one solver run into an attempt record: the text classifier, the
 * problem-name shortening and the rule that decides which elapsed time an
 * attempt is charged.
 */
module Classify {
  import opened Config

  /** The five results an attempt can have. */
  datatype Verdict = Sat | Unsat | Unknown | Error | Timeout {
    /** A definitive answer: the dispatch stops at the first one. */
    predicate Solved() { Sat? || Unsat? }
  }

  /**
   * The result constant each verdict is reported as. The dispatch's test
   * for a definitive answer compares against "sat" and "unsat".
   */
  function Text(v: Verdict): (t: string)
    ensures v.Solved() <==> (t == "sat" || t == "unsat")
  {
    match v
    case Sat => "sat"
    case Unsat => "unsat"
    case Unknown => "unknown"
    case Error => "error"
    case Timeout => "timeout (60.0 s)"
  }

  predicate IsPrefix(p: string, s: string) {
    |p| <= |s| && s[..|p|] == p
  }

  /** Substring test, `t in s` on strings. */
  predicate Contains(s: string, t: string)
    decreases |s|
  {
    IsPrefix(t, s) || (|s| > 0 && Contains(s[1..], t))
  }

  /**
   * Classify a solver's combined stdout and stderr. "unsat" is tested before
   * "sat" because the first contains the second.
   */
  function Output2Result(output: string): (v: Verdict)
    ensures v != Timeout
  {
    if Contains(output, "UNSAT") || Contains(output, "unsat") then Unsat
    else if Contains(output, "SAT") || Contains(output, "sat") then Sat
    else if Contains(output, "UNKNOWN") || Contains(output, "unknown") then Unknown
    else Error
  }

  /** One of the six keywords the classifier looks for occurs in the output. */
  predicate MentionsKeyword(output: string) {
    Contains(output, "UNSAT") || Contains(output, "unsat") ||
    Contains(output, "SAT") || Contains(output, "sat") ||
    Contains(output, "UNKNOWN") || Contains(output, "unknown")
  }

  lemma {:induction false} PrefixContains(t: string, s: string, u: string)
    requires IsPrefix(t, s) && Contains(t, u)
    ensures Contains(s, u)
    decreases |t|
  {
    if IsPrefix(u, t) {
      assert s[..|u|] == t[..|u|];
    } else {
      PrefixContains(t[1..], s[1..], u);
    }
  }

  /** Substring containment is transitive. */
  lemma {:induction false} ContainsTransitive(s: string, t: string, u: string)
    requires Contains(s, t) && Contains(t, u)
    ensures Contains(s, u)
    decreases |s|
  {
    if IsPrefix(t, s) {
      PrefixContains(t, s, u);
    } else {
      ContainsTransitive(s[1..], t, u);
    }
  }

  /** A string that lacks one of t's characters does not contain t. */
  lemma {:induction false} MissingChar(s: string, t: string, i: nat)
    requires i < |t| && t[i] !in s
    ensures !Contains(s, t)
    decreases |s|
  {
    if |s| > 0 {
      assert t[i] !in s[1..];
      MissingChar(s[1..], t, i);
    }
  }

  /**
   * Any output mentioning "unsat" (or "UNSAT") is classified Unsat, although
   * it also mentions "sat" (or "SAT"): the order of the tests decides.
   */
  lemma UnsatWins(output: string)
    requires Contains(output, "unsat") || Contains(output, "UNSAT")
    ensures Output2Result(output) == Unsat
    ensures Contains(output, "sat") || Contains(output, "SAT")
  {
    if Contains(output, "unsat") {
      assert IsPrefix("sat", "unsat"[2..]);
      ContainsTransitive(output, "unsat", "sat");
    } else {
      assert IsPrefix("SAT", "UNSAT"[2..]);
      ContainsTransitive(output, "UNSAT", "SAT");
    }
  }

  /** Error is returned exactly when none of the six keywords occurs. */
  lemma ErrorIffNoKeyword(output: string)
    ensures Output2Result(output) == Error <==> !MentionsKeyword(output)
    ensures Output2Result(output) in {Unsat, Sat, Unknown, Error}
  {
  }

  /**
   * Reading back a reported result constant gives the verdict again, except
   * for the timeout text, which mentions no keyword and reads as Error.
   */
  lemma TextRoundTrip(v: Verdict)
    ensures Output2Result(Text(v)) == if v == Timeout then Error else v
  {
    match v
    case Unsat => assert IsPrefix("unsat", "unsat");
    case Sat => SatText();
    case Unknown => UnknownText();
    case Error => NoKeyword("error");
    case Timeout => NoKeyword("timeout (60.0 s)");
  }

  lemma SatText()
    ensures Output2Result("sat") == Sat
  {
    assert IsPrefix("sat", "sat");
    MissingChar("sat", "UNSAT", 0);
    MissingChar("sat", "unsat", 0);
  }

  lemma UnknownText()
    ensures Output2Result("unknown") == Unknown
  {
    assert IsPrefix("unknown", "unknown");
    MissingChar("unknown", "UNSAT", 0);
    MissingChar("unknown", "unsat", 3);
    MissingChar("unknown", "SAT", 0);
    MissingChar("unknown", "sat", 1);
  }

  /** A text without the letters a, A, k and K mentions no keyword. */
  lemma NoKeyword(s: string)
    requires 'a' !in s && 'A' !in s && 'k' !in s && 'K' !in s
    ensures !MentionsKeyword(s)
  {
    MissingChar(s, "UNSAT", 3);
    MissingChar(s, "unsat", 3);
    MissingChar(s, "SAT", 1);
    MissingChar(s, "sat", 1);
    MissingChar(s, "UNKNOWN", 2);
    MissingChar(s, "unknown", 2);
  }

  /** Number of '/' characters in s. */
  function Slashes(s: string): nat {
    multiset(s)['/']
  }

  /** Position of the first '/' of s. */
  function FirstSlash(s: string): (i: nat)
    requires '/' in s
    ensures i < |s| && s[i] == '/' && '/' !in s[..i]
  {
    if s[0] == '/' then 0
    else
      var j := FirstSlash(s[1..]);
      assert s[..j + 1] == [s[0]] + s[1..][..j];
      j + 1
  }

  /**
   * The name an attempt records for a problem path: the last piece of
   * splitting on '/' at most twice.
   */
  function ProblemName(path: string): (n: string)
    ensures |n| <= |path| && n == Skip(path, |path| - |n|)
  {
    if '/' !in path then path
    else
      var i := FirstSlash(path);
      var rest := path[i + 1..];
      if '/' !in rest then
        SkipIsSlice(path, i + 1);
        rest
      else
        var j := FirstSlash(rest);
        assert rest[j + 1..] == path[i + j + 2..];
        SkipIsSlice(path, i + j + 2);
        rest[j + 1..]
  }

  /** `s` without its first k characters, dropped one at a time. */
  function Skip(s: string, k: nat): string
    requires k <= |s|
    decreases k
  {
    if k == 0 then s else Skip(s[1..], k - 1)
  }

  /** Dropping k characters one at a time leaves the slice `s[k..]`. */
  lemma {:induction false} SkipIsSlice(s: string, k: nat)
    requires k <= |s|
    ensures Skip(s, k) == s[k..]
    decreases k
  {
    if k > 0 {
      SkipIsSlice(s[1..], k - 1);
      assert s[1..][k - 1..] == s[k..];
    }
  }

  /** The first i + 1 characters of s, up to and including its first '/', hold one '/'. */
  lemma OneSlashUpTo(s: string, i: nat)
    requires i < |s| && s[i] == '/' && '/' !in s[..i]
    ensures Slashes(s[..i + 1]) == 1
  {
    assert s[..i + 1] == s[..i] + [s[i]];
  }

  /**
   * The recorded name is what follows the second '/' of the path (the
   * first, or the whole path, when there are fewer): it is a suffix, the
   * part dropped in front of it holds min(2, slashes) '/' and ends with one.
   */
  lemma ProblemNameSuffix(path: string)
    ensures var n := ProblemName(path);
      var dropped := path[..|path| - |n|];
      |n| <= |path| && n == path[|path| - |n|..] &&
      Slashes(dropped) == (if Slashes(path) >= 2 then 2 else Slashes(path)) &&
      (dropped != [] ==> dropped[|dropped| - 1] == '/')
  {
    if '/' !in path {
      NoSlash(path);
    } else {
      var i := FirstSlash(path);
      var rest := path[i + 1..];
      if '/' !in rest {
        OneSlashName(path, i);
      } else {
        TwoSlashName(path, i, FirstSlash(rest));
      }
    }
  }

  /** The case of a single '/', at i: the dropped part ends at it. */
  lemma OneSlashName(path: string, i: nat)
    requires i < |path| && path[i] == '/' && '/' !in path[..i] && '/' !in path[i + 1..]
    ensures var n := ProblemName(path);
      var dropped := path[..|path| - |n|];
      |n| <= |path| && n == path[|path| - |n|..] &&
      Slashes(dropped) == (if Slashes(path) >= 2 then 2 else Slashes(path)) &&
      (dropped != [] ==> dropped[|dropped| - 1] == '/')
  {
    SplitOnce(path, i);
    DroppedPrefix(path, ProblemName(path), i + 1);
  }

  /** The case of a second '/', at i + 1 + j: the dropped part ends at that one. */
  lemma TwoSlashName(path: string, i: nat, j: nat)
    requires i < |path| && path[i] == '/' && '/' !in path[..i]
    requires var rest := path[i + 1..];
      j < |rest| && rest[j] == '/' && '/' !in rest[..j]
    ensures var n := ProblemName(path);
      var dropped := path[..|path| - |n|];
      |n| <= |path| && n == path[|path| - |n|..] &&
      Slashes(dropped) == (if Slashes(path) >= 2 then 2 else Slashes(path)) &&
      (dropped != [] ==> dropped[|dropped| - 1] == '/')
  {
    SplitTwice(path, i, j);
    DroppedPrefix(path, ProblemName(path), i + j + 2);
  }

  /** A suffix that starts right after a '/' drops the prefix up to that '/'. */
  lemma DroppedPrefix(path: string, n: string, k: nat)
    requires 0 < k <= |path| && path[k - 1] == '/' && n == path[k..]
    requires Slashes(path[..k]) == (if Slashes(path) >= 2 then 2 else Slashes(path))
    ensures var dropped := path[..|path| - |n|];
      |n| <= |path| && n == path[|path| - |n|..] &&
      Slashes(dropped) == (if Slashes(path) >= 2 then 2 else Slashes(path)) &&
      (dropped != [] ==> dropped[|dropped| - 1] == '/')
  {
    assert |path| - |n| == k;
  }

  /** Without a '/', the name is the whole path. */
  lemma NoSlash(path: string)
    requires '/' !in path
    ensures ProblemName(path) == path && Slashes(path) == 0 && path[..|path| - |path|] == []
  {
    assert '/' !in multiset(path);
  }

  /** Any '/' with none before it is the first. */
  lemma FirstSlashUnique(s: string, i: nat)
    requires i < |s| && s[i] == '/' && '/' !in s[..i]
    ensures FirstSlash(s) == i
  {
  }

  /** With a single '/', the name is what follows it. */
  lemma SplitOnce(path: string, i: nat)
    requires i < |path| && path[i] == '/' && '/' !in path[..i] && '/' !in path[i + 1..]
    ensures var n := ProblemName(path);
      n == path[i + 1..] &&
      Slashes(path[..i + 1]) == 1 && Slashes(path) == 1
  {
    FirstSlashUnique(path, i);
    OneSlashUpTo(path, i);
    assert path == path[..i + 1] + path[i + 1..];
    assert Slashes(path[i + 1..]) == 0 by { assert '/' !in multiset(path[i + 1..]); }
  }

  /** With a second '/' at i + 1 + j, the name is what follows that one. */
  lemma SplitTwice(path: string, i: nat, j: nat)
    requires i < |path| && path[i] == '/' && '/' !in path[..i]
    requires var rest := path[i + 1..];
      j < |rest| && rest[j] == '/' && '/' !in rest[..j]
    ensures var n := ProblemName(path);
      n == path[i + j + 2..] && path[i + j + 1] == '/' &&
      Slashes(path[..i + j + 2]) == 2 && Slashes(path) >= 2
  {
    var rest := path[i + 1..];
    FirstSlashUnique(path, i);
    FirstSlashUnique(rest, j);
    assert '/' in rest by { assert rest[j] == '/'; }
    assert rest[j + 1..] == path[i + j + 2..];
    assert path[i + j + 1] == rest[j];
    OneSlashUpTo(path, i);
    OneSlashUpTo(rest, j);
    var front := path[..i + j + 2];
    assert front == path[..i + 1] + rest[..j + 1];
    assert multiset(front) == multiset(path[..i + 1]) + multiset(rest[..j + 1]);
    assert path == front + path[i + j + 2..];
    assert multiset(path) == multiset(front) + multiset(path[i + j + 2..]);
  }

  /** What the external harness reports for one solver on one problem. */
  datatype HarnessRun =
    | Finished(stdout: string, stderr: string, elapsed: real)  // exited within the budget
    | TimedOut                                                  // killed at the budget

  /** One attempt as recorded: problem name, verdict, charged elapsed time. */
  datatype Attempt = Attempt(problem: string, verdict: Verdict, elapsed: real)

  /**
   * Build the attempt record. Only a definitive answer keeps its measured
   * time; every other result, timeouts included, is charged the whole
   * per-solver budget.
   */
  function RunProblem(path: string, h: HarnessRun): (a: Attempt)
    ensures a.problem == ProblemName(path)
    ensures a.verdict.Solved() ==> h.Finished? && a.elapsed == h.elapsed
    ensures !a.verdict.Solved() ==> a.elapsed == BUDGET
    ensures h.TimedOut? <==> a.verdict == Timeout
    ensures h.Finished? ==> a.verdict == Output2Result(h.stdout + h.stderr)
  {
    var verdict := match h
      case TimedOut => Timeout
      case Finished(out, err, _) => Output2Result(out + err);
    var elapsed := match h
      case TimedOut => BUDGET
      case Finished(_, _, t) => t;
    Attempt(ProblemName(path), verdict, if verdict.Solved() then elapsed else BUDGET)
  }

  /** Charged time stays within [0, BUDGET] whenever the measured time does. */
  lemma ChargedWithinBudget(path: string, h: HarnessRun)
    requires h.Finished? ==> 0.0 <= h.elapsed <= BUDGET
    ensures 0.0 <= RunProblem(path, h).elapsed <= BUDGET
  {
    assert BUDGET == 15.0;
    var a := RunProblem(path, h);
    if a.verdict.Solved() {
      assert a.elapsed == h.elapsed;
    } else {
      assert a.elapsed == BUDGET;
    }
  }
}
