/**
  `NoIfs1ImperativeExample.match(where, ignoreCase, globalMatch, what)`:
  whether `where` equals (global match) or contains (local match) `what`,
  optionally after lower-casing both.
 */
module NoIfs {

  /** `Character.toLowerCase` on the ASCII range: upper-case letters become lower-case, all else stays. */
  function LowerChar(c: char): (d: char)
    ensures 'A' <= c <= 'Z' ==> 'a' <= d <= 'z' && d as int - c as int == 'a' as int - 'A' as int
    ensures !('A' <= c <= 'Z') ==> d == c
    ensures !('A' <= d <= 'Z')
  {
    if 'A' <= c <= 'Z' then (c as int - 'A' as int + 'a' as int) as char else c
  }

  /** `String.toLowerCase`: every character lower-cased, in place. */
  function ToLower(s: string): (r: string)
    ensures |r| == |s|
    ensures forall i :: 0 <= i < |s| ==> r[i] == LowerChar(s[i])
  {
    seq(|s|, i requires 0 <= i < |s| => LowerChar(s[i]))
  }

  /** Lower-casing twice is lower-casing once. */
  lemma ToLowerIdempotent(s: string)
    ensures ToLower(ToLower(s)) == ToLower(s)
  {
  }

  /** `pattern` occurs in `target` starting at index `i`. */
  predicate OccursAt(target: string, pattern: string, i: nat)
  {
    i + |pattern| <= |target| && target[i..i + |pattern|] == pattern
  }

  /** `String.contains`: tries every starting position from the left. */
  function Contains(target: string, pattern: string): (r: bool)
    ensures r <==> exists i: nat :: i <= |target| && OccursAt(target, pattern, i)
    decreases |target|
  {
    if |pattern| <= |target| && target[..|pattern|] == pattern then
      assert OccursAt(target, pattern, 0);
      true
    else if target == [] then
      false
    else
      var r := Contains(target[1..], pattern);
      assert forall i: nat :: 1 <= i <= |target| && OccursAt(target, pattern, i) ==> OccursAt(target[1..], pattern, i - 1);
      assert forall i: nat :: i < |target| && OccursAt(target[1..], pattern, i) ==> OccursAt(target, pattern, i + 1);
      r
  }

  /** `match` as written: pick the (optionally lower-cased) strings, then compare whole or search. */
  function Match(where: string, ignoreCase: bool, globalMatch: bool, what: string): bool
  {
    var pattern := if ignoreCase then ToLower(what) else what;
    var target := if ignoreCase then ToLower(where) else where;
    if globalMatch then target == pattern else Contains(target, pattern)
  }

  /** A global match is equality of the (optionally lower-cased) strings. */
  lemma GlobalMatchIsEquality(where: string, ignoreCase: bool, what: string)
    ensures Match(where, false, true, what) <==> where == what
    ensures Match(where, true, true, what) <==> ToLower(where) == ToLower(what)
  {
  }

  /** A local match is an occurrence of the pattern somewhere in the target. */
  lemma LocalMatchIsOccurrence(where: string, what: string)
    ensures Match(where, false, false, what) <==> exists i: nat :: i <= |where| && OccursAt(where, what, i)
    ensures Match(where, true, false, what)
        <==> exists i: nat :: i <= |where| && OccursAt(ToLower(where), ToLower(what), i)
  {
  }

  /** Everything matches itself, in every mode; in particular the empty string matches the empty string. */
  lemma MatchReflexive(s: string, ignoreCase: bool, globalMatch: bool)
    ensures Match(s, ignoreCase, globalMatch, s)
  {
    var t := if ignoreCase then ToLower(s) else s;
    assert t[..|t|] == t;
    assert OccursAt(t, t, 0);
  }

  /** Nothing non-empty matches inside an empty string, in any mode. */
  lemma EmptyWhereMatchesOnlyEmpty(ignoreCase: bool, globalMatch: bool, what: string)
    requires what != ""
    ensures !Match("", ignoreCase, globalMatch, what)
  {
  }

  /** A global match is also a local one. */
  lemma GlobalImpliesLocal(where: string, ignoreCase: bool, what: string)
    requires Match(where, ignoreCase, true, what)
    ensures Match(where, ignoreCase, false, what)
  {
    MatchReflexive(where, ignoreCase, false);
  }

  /** An occurrence of `pattern` in `target` is an occurrence of the lower-cased pattern in the lower-cased target. */
  lemma LowerKeepsOccurrence(target: string, pattern: string, i: nat)
    requires OccursAt(target, pattern, i)
    ensures OccursAt(ToLower(target), ToLower(pattern), i)
  {
    var t := ToLower(target)[i..i + |pattern|];
    assert forall k :: 0 <= k < |pattern| ==> t[k] == LowerChar(target[i + k]) == LowerChar(pattern[k]);
  }

  /** A case-sensitive match is also a case-insensitive one. */
  lemma SensitiveImpliesInsensitive(where: string, globalMatch: bool, what: string)
    requires Match(where, false, globalMatch, what)
    ensures Match(where, true, globalMatch, what)
  {
    if !globalMatch {
      var i: nat :| i <= |where| && OccursAt(where, what, i);
      LowerKeepsOccurrence(where, what, i);
    }
  }

  lemma MatchExamples()
    ensures Match("ShOrT StRiNg", true, true, "Short string")
    ensures !Match("Short string", false, true, "SHORT STRING")
    ensures Match("OnEwOrD", true, false, "One")
  {
    assert OccursAt(ToLower("OnEwOrD"), ToLower("One"), 0);
  }
}
