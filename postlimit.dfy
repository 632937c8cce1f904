/** Recognising the web server's complaint about an oversized POST in the
    body of an upload reply: the case-insensitive pattern
    "post content-length of <digits> bytes exceeds" (classes/lib.php:898). */
module PostLimit {

  const Prefix: string := "post content-length of "
  const Suffix: string := " bytes exceeds"

  /** ASCII case folding, as the pattern's i flag applies it. */
  function Lower(c: char): char {
    if 'A' <= c <= 'Z' then (c as int + 32) as char else c
  }

  predicate IsDigit(c: char) {
    '0' <= c <= '9'
  }

  /** The lower-case literal lit occurs in s at i, ignoring case. */
  predicate LitAt(s: string, i: nat, lit: string) {
    i + |lit| <= |s| && forall j :: 0 <= j < |lit| ==> Lower(s[i + j]) == lit[j]
  }

  predicate DigitsIn(s: string, i: nat, e: nat)
    requires i <= e <= |s|
  {
    forall j :: i <= j < e ==> IsDigit(s[j])
  }

  /** The pattern matches at i: the prefix, one or more digits, the suffix. */
  predicate PatternAt(s: string, i: nat) {
    exists e :: i + |Prefix| < e <= |s| && LitAt(s, i, Prefix) && DigitsIn(s, i + |Prefix|, e) && LitAt(s, e, Suffix)
  }

  /** What preg_match answers: the pattern matches somewhere in s. */
  predicate Matches(s: string) {
    exists i :: 0 <= i <= |s| && PatternAt(s, i)
  }

  /** End of the longest run of digits starting at i. */
  function DigitRunEnd(s: string, i: nat): (e: nat)
    requires i <= |s|
    ensures i <= e <= |s| && DigitsIn(s, i, e)
    ensures e < |s| ==> !IsDigit(s[e])
    decreases |s| - i
  {
    if i < |s| && IsDigit(s[i]) then DigitRunEnd(s, i + 1) else i
  }

  /** One left-to-right attempt at i: the prefix, the longest digit run after
      it (which must be non-empty), then the suffix. */
  predicate MatchesAt(s: string, i: nat) {
    LitAt(s, i, Prefix)
    && var e := DigitRunEnd(s, i + |Prefix|);
    e > i + |Prefix| && LitAt(s, e, Suffix)
  }

  /** Tries the positions i, i + 1, ..., last in turn, stopping at the first
      one where the attempt succeeds. */
  function Search(attempt: nat -> bool, last: nat, i: nat): bool
    decreases last + 1 - i
  {
    if i > last then false else attempt(i) || Search(attempt, last, i + 1)
  }

  /** The matcher used by the upload classification: an attempt at every
      position of the body, from the left. */
  function Mentions(s: string): bool {
    Search((m: nat) => MatchesAt(s, m), |s|, 0)
  }

  lemma {:induction false} RunEndIs(s: string, a: nat, e: nat)
    requires a <= e < |s| && DigitsIn(s, a, e) && !IsDigit(s[e])
    ensures DigitRunEnd(s, a) == e
    decreases e - a
  {
    if a < e {
      RunEndIs(s, a + 1, e);
    }
  }

  /** Taking the longest digit run loses no match: the suffix starts with a
      space, which is not a digit. */
  lemma MatchesAtIsPattern(s: string, i: nat)
    ensures MatchesAt(s, i) <==> PatternAt(s, i)
  {
    if PatternAt(s, i) {
      var e :| i + |Prefix| < e <= |s| && LitAt(s, i, Prefix) && DigitsIn(s, i + |Prefix|, e) && LitAt(s, e, Suffix);
      assert Lower(s[e + 0]) == Suffix[0];
      RunEndIs(s, i + |Prefix|, e);
    }
    if MatchesAt(s, i) {
      var e := DigitRunEnd(s, i + |Prefix|);
      assert i + |Prefix| < e <= |s| && LitAt(s, i, Prefix) && DigitsIn(s, i + |Prefix|, e) && LitAt(s, e, Suffix);
    }
  }

  /** The search succeeds exactly when some attempt from i on does. */
  lemma {:induction false} SearchFinds(attempt: nat -> bool, last: nat, i: nat)
    ensures Search(attempt, last, i) <==> exists m :: i <= m <= last && attempt(m)
    decreases last + 1 - i
  {
    if i <= last {
      SearchFinds(attempt, last, i + 1);
      if exists m :: i <= m <= last && attempt(m) {
        var m :| i <= m <= last && attempt(m);
        if m > i {
          assert i + 1 <= m <= last && attempt(m);
        }
      }
    }
  }

  /** The matcher answers exactly what the pattern promises. */
  lemma MentionsMatches(s: string)
    ensures Mentions(s) <==> Matches(s)
  {
    var attempt := (m: nat) => MatchesAt(s, m);
    SearchFinds(attempt, |s|, 0);
    if Mentions(s) {
      var m: nat :| m <= |s| && attempt(m);
      MatchesAtIsPattern(s, m);
      assert 0 <= m <= |s| && PatternAt(s, m);
    }
    if Matches(s) {
      var i :| 0 <= i <= |s| && PatternAt(s, i);
      MatchesAtIsPattern(s, i);
      assert attempt(i);
    }
  }
}
