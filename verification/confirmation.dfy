/**
 * The self-destruct confirmation code check `/^[A-Z0-9]{8}$/.test(code)`.
 */
module Confirmation {

  /** The character class `[A-Z0-9]`. */
  predicate UpperAlnum(c: char) {
    ('A' <= c <= 'Z') || ('0' <= c <= '9')
  }

  /** What the pattern accepts: exactly eight characters, each an upper-case letter or a digit. */
  ghost predicate WellFormedCode(s: string) {
    |s| == 8 && forall i :: 0 <= i < |s| ==> UpperAlnum(s[i])
  }

  /** The pattern `[A-Z0-9]{n}` matched against all of `s`, one repetition at a time. */
  function MatchRepeat(s: string, n: nat): bool
    decreases n
  {
    if n == 0 then s == []
    else s != [] && UpperAlnum(s[0]) && MatchRepeat(s[1..], n - 1)
  }

  /** The anchored pattern `^[A-Z0-9]{8}$` (JavaScript's `$` without the `m` flag matches only at the end). */
  function Matches(s: string): bool {
    MatchRepeat(s, 8)
  }

  lemma {:induction false} MatchRepeatExactly(s: string, n: nat)
    ensures MatchRepeat(s, n) <==> |s| == n && forall i :: 0 <= i < |s| ==> UpperAlnum(s[i])
    decreases n
  {
    if n > 0 && s != [] {
      MatchRepeatExactly(s[1..], n - 1);
      assert forall i :: 1 <= i < |s| ==> s[i] == s[1..][i - 1];
    }
  }

  /** The matcher accepts exactly the well-formed codes. */
  lemma MatchesWellFormed(s: string)
    ensures Matches(s) <==> WellFormedCode(s)
  {
    MatchRepeatExactly(s, 8);
  }
}
