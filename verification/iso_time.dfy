/**
  The text `Date.prototype.toISOString()` returns for years 0 to 9999:
  `YYYY-MM-DDTHH:mm:ss.sssZ`, 24 characters. Both the worktree-name builder
  and the temporary-file names cut their timestamps out of it.
 */
module IsoTime {
  import opened Text

  predicate IsDigit(c: char) {
    '0' <= c <= '9'
  }

  /** Positions of the punctuation characters of the format. */
  predicate IsPunctuationIndex(i: int) {
    i == 4 || i == 7 || i == 10 || i == 13 || i == 16 || i == 19 || i == 23
  }

  predicate IsIsoTimestamp(s: string) {
    && |s| == 24
    && s[4] == '-' && s[7] == '-' && s[10] == 'T'
    && s[13] == ':' && s[16] == ':' && s[19] == '.' && s[23] == 'Z'
    && forall i :: 0 <= i < 24 && !IsPunctuationIndex(i) ==> IsDigit(s[i])
  }

  /** Deleting characters none of which occur leaves the text as it was. */
  lemma {:induction false} RemoveAbsentChars(s: string, cs: set<char>)
    requires forall i :: 0 <= i < |s| ==> s[i] !in cs
    ensures RemoveChars(s, cs) == s
    decreases |s|
  {
    if |s| > 0 {
      RemoveAbsentChars(s[1..], cs);
      assert s == [s[0]] + s[1..];
    }
  }

  /** Deleting the one character of a one-character text. */
  lemma RemoveOnlyChar(s: string, cs: set<char>)
    requires |s| == 1 && s[0] in cs
    ensures RemoveChars(s, cs) == ""
  {
    assert RemoveChars(s[1..], cs) == "";
  }
}
