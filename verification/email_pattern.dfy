/** The e-mail pattern `^\S+@\S+\.\S+$` that the register route, the user schema and the
    register page all apply. */
module EmailPattern {
  import opened JsText

  /** The pattern, read declaratively. `\S` also matches `@` and `.`, so backtracking lets the
      `@` and the `.` be any occurrences: a string matches iff it has no whitespace, an `@` with
      at least one character before it, and a later `.` with at least one character between
      them and at least one after it. */
  predicate Matches(s: string) {
    NoSpace(s) && exists a, d :: 1 <= a && a + 2 <= d < |s| - 1 && s[a] == '@' && s[d] == '.'
  }

  /** The pattern, decided by scanning: reject on whitespace, take the first `@` past
      position 0, then the last `.` before the final character, and compare positions. */
  method Match(s: string) returns (b: bool)
    ensures b <==> Matches(s)
  {
    var i := 0;
    while i < |s|
      invariant 0 <= i <= |s|
      invariant forall k :: 0 <= k < i ==> !IsSpace(s[k])
    {
      if IsSpace(s[i]) {
        return false;
      }
      i := i + 1;
    }
    if |s| == 0 {
      return false;
    }
    var a := 1;
    while a < |s| && s[a] != '@'
      invariant 1 <= a <= |s|
      invariant forall k :: 1 <= k < a ==> s[k] != '@'
    {
      a := a + 1;
    }
    if a + 4 > |s| {
      // every `@` is at `a` or later: no room left for a character, a `.` and a last character
      return false;
    }
    var d := |s| - 2;
    while d >= a + 2 && s[d] != '.'
      invariant a + 1 <= d <= |s| - 2
      invariant forall k :: d < k <= |s| - 2 ==> s[k] != '.'
    {
      d := d - 1;
    }
    b := d >= a + 2;
    if !b {
      forall a', d' | 1 <= a' && a' + 2 <= d' < |s| - 1 && s[a'] == '@'
        ensures s[d'] != '.'
      {
        assert a <= a';
      }
    }
  }

  /** A matching address has no whitespace, so trimming it changes nothing. */
  lemma MatchesTrimmed(s: string)
    requires Matches(s)
    ensures Trim(s) == s
  {
    TrimNoSpace(s);
  }

  /** Lower-casing neither makes nor breaks a match: the register route tests the raw
      address while the schema tests the lower-cased one. */
  lemma MatchesLower(s: string)
    ensures Matches(ToLower(s)) <==> Matches(s)
  {
    var l := ToLower(s);
    forall i | 0 <= i < |s|
      ensures IsSpace(l[i]) <==> IsSpace(s[i])
      ensures l[i] == '@' <==> s[i] == '@'
      ensures l[i] == '.' <==> s[i] == '.'
    {
      LowerCharKeepsClass(s[i]);
    }
    if Matches(s) {
      var a, d :| 1 <= a && a + 2 <= d < |s| - 1 && s[a] == '@' && s[d] == '.';
      assert l[a] == '@' && l[d] == '.';
    }
    if Matches(l) {
      var a, d :| 1 <= a && a + 2 <= d < |l| - 1 && l[a] == '@' && l[d] == '.';
      assert s[a] == '@' && s[d] == '.';
    }
  }
}
