/**
 * The three regular expressions of the worker-pool parser, as Go's
 * `FindStringSubmatch` evaluates them on a line without newlines.
 *
 * Go's matcher reports the match a backtracking engine finds first: the
 * leftmost start, then each greedy `(.*)` as long as the rest of the pattern
 * still matches. On a newline-free line `(.*)` can start at index 0 and run to
 * the end, so:
 *  - `(.*)=(.*)` splits at the LAST `=`;
 *  - `(.*)=(.*):(.*)` splits at the last `:` and then at the last `=` before it;
 *  - `prefix(.*)` captures everything after the LEFTMOST occurrence of `prefix`.
 * The greedy lemmas below check each split against every other way the
 * pattern could match.
 */
module Regexp {
  import opened Wrappers
  import Strings

  /** The last index of `c` in `s`, if any. */
  function LastIndex(s: string, c: char): (r: Option<nat>)
    ensures r.Some? ==> r.value < |s| && s[r.value] == c && c !in s[r.value + 1..]
    ensures r.None? <==> c !in s
    decreases |s|
  {
    if |s| == 0 then None
    else if s[|s| - 1] == c then Some(|s| - 1)
    else
      var r := LastIndex(s[..|s| - 1], c);
      assert s == s[..|s| - 1] + [s[|s| - 1]];
      r
  }

  /** The only `c` at or after index `i` is at `i` itself, so it is the last one. */
  lemma LastIndexAt(s: string, c: char, i: nat)
    requires i < |s| && s[i] == c && c !in s[i + 1..]
    ensures LastIndex(s, c) == Some(i)
  {
  }

  /** The captures of `(.*)=(.*)`: key before the last `=`, value after it. */
  function MatchKeyValue(s: string): (r: Option<(string, string)>)
    ensures r.None? <==> '=' !in s
    ensures r.Some? ==> s == r.value.0 + "=" + r.value.1 && '=' !in r.value.1
  {
    match LastIndex(s, '=')
    case None => None
    case Some(i) =>
      assert s == s[..i] + "=" + s[i + 1..];
      Some((s[..i], s[i + 1..]))
  }

  /** Rebuilding `k=v` with an `=`-free value matches back to `(k, v)`. */
  lemma KeyValueRoundTrip(k: string, v: string)
    requires '=' !in v
    ensures MatchKeyValue(k + "=" + v) == Some((k, v))
  {
    var s := k + "=" + v;
    var m := MatchKeyValue(s);
    assert s[|k|] == '=';
    assert m.value.0 == s[..|k|] == k;
    assert m.value.1 == s[|k| + 1..] == v;
  }

  /**
   * Greedy choice: of all ways to read `s` as `k=v`, the match takes the
   * one with the longest key.
   */
  lemma KeyValueGreedy(s: string, k: string, v: string)
    requires s == k + "=" + v
    ensures MatchKeyValue(s).Some?
    ensures |k| <= |MatchKeyValue(s).value.0|
  {
    assert s[|k|] == '=';
  }

  /** Some `=` comes before some `:` in `s`. */
  predicate HasTaintShape(s: string) {
    exists i, j :: 0 <= i < j < |s| && s[i] == '=' && s[j] == ':'
  }

  /**
   * The captures of `(.*)=(.*):(.*)`: key, value and effect. What they are
   * is stated by `MatchTaintShape` rather than here, which keeps the many
   * callers that only pass the result along cheap to verify.
   */
  function MatchTaint(s: string): Option<(string, string, string)> {
    match LastIndex(s, ':')
    case None => None
    case Some(j) =>
      match LastIndex(s[..j], '=')
      case None => None
      case Some(i) => Some((s[..i], s[i + 1..j], s[j + 1..]))
  }

  /** The effect follows the last `:`, and the key ends at the last `=` before it. */
  lemma MatchTaintShape(s: string)
    ensures MatchTaint(s).Some? ==>
      var m := MatchTaint(s).value;
      s == m.0 + "=" + m.1 + ":" + m.2 && '=' !in m.1 && ':' !in m.2
  {
    if MatchTaint(s).Some? {
      var j := LastIndex(s, ':').value;
      var i := LastIndex(s[..j], '=').value;
      assert s == s[..i] + "=" + s[i + 1..j] + ":" + s[j + 1..];
      assert s[i + 1..j] == s[..j][i + 1..];
    }
  }

  /** The taint pattern matches exactly when some `=` comes before some `:`. */
  lemma MatchTaintFails(s: string)
    ensures MatchTaint(s).None? <==> !HasTaintShape(s)
  {
    MatchTaintShape(s);
    if MatchTaint(s).Some? {
      var m := MatchTaint(s).value;
      assert s[|m.0|] == '=' && s[|m.0| + 1 + |m.1|] == ':';
    }
  }

  /** Rebuilding `k=v:e` with an `=`-free value and a `:`-free effect matches back. */
  lemma TaintRoundTrip(k: string, v: string, e: string)
    requires '=' !in v && ':' !in e
    ensures MatchTaint(k + "=" + v + ":" + e) == Some((k, v, e))
  {
    var kv := k + "=" + v;
    var s := kv + ":" + e;
    assert s[..|kv|] == kv;
    assert s[|kv| + 1..] == e;
    assert s[|kv|] == ':';
    LastIndexAt(s, ':', |kv|);
    assert kv[..|k|] == k;
    assert kv[|k| + 1..] == v;
    assert kv[|k|] == '=';
    LastIndexAt(kv, '=', |k|);
    assert s[..|k|] == k;
    assert s[|k| + 1..|kv|] == v;
  }

  /**
   * Greedy choice: of all ways to read `s` as `k=v:e`, the match takes the
   * longest key and, for that key, the longest value.
   */
  lemma TaintGreedy(s: string, k: string, v: string, e: string)
    requires s == k + "=" + v + ":" + e
    ensures MatchTaint(s).Some?
    ensures var m := MatchTaint(s).value;
      |k| < |m.0| || (|k| == |m.0| && |v| <= |m.1|)
  {
    assert s[|k|] == '=' && s[|k| + 1 + |v|] == ':';
    MatchTaintFails(s);
    MatchTaintShape(s);
    var m := MatchTaint(s).value;
    var j := |m.0| + 1 + |m.1|;
    assert s[j] == ':';
  }

  /** The capture of `prefix(.*)`: everything after the leftmost occurrence of `prefix`. */
  function SubmatchAfter(s: string, prefix: string): Option<string> {
    match Strings.Index(s, prefix)
    case None => None
    case Some(i) => Some(s[i + |prefix|..])
  }

  /**
   * The submatch is `None` exactly when `prefix` does not occur; otherwise it
   * is the suffix of `s` after the leftmost occurrence of `prefix`.
   */
  lemma SubmatchAfterLeftmost(s: string, prefix: string)
    ensures SubmatchAfter(s, prefix).None? <==> !Strings.Contains(s, prefix)
    ensures SubmatchAfter(s, prefix).None? <==> forall j: nat :: !Strings.OccursAt(s, prefix, j)
    ensures SubmatchAfter(s, prefix).Some? ==>
      var r := SubmatchAfter(s, prefix).value;
      |prefix| + |r| <= |s| && r == s[|s| - |r|..] &&
      Strings.OccursAt(s, prefix, |s| - |r| - |prefix|) &&
      forall j: nat :: j < |s| - |r| - |prefix| ==> !Strings.OccursAt(s, prefix, j)
  {
    Strings.IndexLeftmost(s, prefix);
  }
}
