/**
 * The URL string transforms of the live-reload client: stripping the origin
 * (`removeBase`), stripping the cache-busting `?<digits>` suffix (`removeTime`)
 * and re-stamping a locator with a fresh suffix (`replaceTime`).
 * The regular expressions of the source are written out as scanners; each
 * scanner is tied by its contract to a predicate stating what the pattern matches.
 */
module Urls {
  import opened Strings

  const Scheme: string := "http://"

  /** Length of the longest suffix of `s` made only of decimal digits. */
  function DigitSuffixLength(s: string): (k: nat)
    ensures k <= |s|
    ensures forall i | |s| - k <= i < |s| :: IsDigit(s[i])
    ensures k < |s| ==> !IsDigit(s[|s| - k - 1])
    decreases |s|
  {
    if s != [] && IsDigit(s[|s| - 1]) then DigitSuffixLength(s[..|s| - 1]) + 1 else 0
  }

  /** The pattern `\?[0-9]+$` matches `s` starting at index `p`. */
  predicate TimeSuffixAt(s: string, p: int) {
    0 <= p && p + 1 < |s| && s[p] == '?' && AllDigits(s[p + 1..])
  }

  /** The pattern can match at one position only: just before the longest digit suffix. */
  lemma TimeSuffixUnique(s: string)
    ensures forall p | TimeSuffixAt(s, p) :: p == |s| - DigitSuffixLength(s) - 1
  {
    var k := DigitSuffixLength(s);
    forall p | TimeSuffixAt(s, p)
      ensures p == |s| - k - 1
    {
      forall i | p + 1 <= i < |s|
        ensures IsDigit(s[i])
      {
        assert s[i] == s[p + 1..][i - p - 1];
      }
    }
  }

  /**
   * `removeTime`: drop a trailing `?<digits>`; a string without one is
   * returned as it is. At most one position can start the match.
   */
  function RemoveTime(s: string): (r: string)
    ensures forall p | TimeSuffixAt(s, p) :: r == s[..p]
    ensures (forall p :: !TimeSuffixAt(s, p)) ==> r == s
  {
    var k := DigitSuffixLength(s);
    TimeSuffixUnique(s);
    if 0 < k < |s| && s[|s| - k - 1] == '?' then
      assert AllDigits(s[|s| - k..]);
      assert TimeSuffixAt(s, |s| - k - 1);
      s[..|s| - k - 1]
    else
      s
  }

  /** `replaceTime`: the locator with its old stamp removed and `?now` appended. */
  function ReplaceTime(s: string, now: nat): string {
    RemoveTime(s) + "?" + Decimal(now)
  }

  /** Stripping the stamp of a re-stamped locator gives back the stripped original. */
  lemma ReplaceThenRemove(s: string, now: nat)
    ensures RemoveTime(ReplaceTime(s, now)) == RemoveTime(s)
    ensures TimeSuffixAt(ReplaceTime(s, now), |RemoveTime(s)|)
  {
    var r := ReplaceTime(s, now);
    var base := RemoveTime(s);
    assert r[|base| + 1..] == Decimal(now);
    assert TimeSuffixAt(r, |base|);
    assert r[..|base|] == base;
  }

  /** Re-stamping twice is re-stamping once: stamps never accumulate. */
  lemma ReplaceTwice(s: string, a: nat, b: nat)
    ensures ReplaceTime(ReplaceTime(s, a), b) == ReplaceTime(s, b)
  {
    ReplaceThenRemove(s, a);
  }

  /**
   * `removeTime` is not idempotent: only the LAST `?<digits>` is a match, and
   * removing it can expose another one.
   */
  lemma RemoveTimeNotIdempotent()
    ensures RemoveTime("a?1") == "a"
    ensures RemoveTime("a?1?2") == "a?1"
    ensures RemoveTime(RemoveTime("a?1?2")) != RemoveTime("a?1?2")
  {
    assert TimeSuffixAt("a?1", 1);
    assert TimeSuffixAt("a?1?2", 3);
  }

  /** On a locator with at most one `?`, `removeTime` is idempotent. */
  lemma RemoveTimeIdempotent(s: string)
    requires forall i, j | 0 <= i < j < |s| :: s[i] == '?' ==> s[j] != '?'
    ensures RemoveTime(RemoveTime(s)) == RemoveTime(s)
  {
    var r := RemoveTime(s);
    if r != s {
      var p :| TimeSuffixAt(s, p);
      assert r == s[..p];
      assert forall i | 0 <= i < |r| :: r[i] == s[i];
      assert forall q :: !TimeSuffixAt(r, q);
    }
  }

  /** Number of characters from the start of `s` before the first `/`. */
  function HostLength(s: string): (n: nat)
    ensures n <= |s|
    ensures forall i | 0 <= i < n :: s[i] != '/'
    ensures n < |s| ==> s[n] == '/'
  {
    if s == [] || s[0] == '/' then 0 else HostLength(s[1..]) + 1
  }

  /** The pattern `^http\:\/\/[^/]+` matches `s`. */
  predicate HasOrigin(s: string) {
    StartsWith(s, Scheme) && |s| > |Scheme| && s[|Scheme|] != '/'
  }

  /**
   * `removeBase`: drop a leading `http://host`. What remains is a suffix of the
   * input that is empty or starts with `/`; an input without an origin is
   * returned unchanged.
   */
  function RemoveBase(s: string): (r: string)
    ensures |r| <= |s| && r == s[|s| - |r|..]
    ensures HasOrigin(s) ==> |r| < |s| - |Scheme| && (r == [] || r[0] == '/')
    ensures HasOrigin(s) ==> forall i | |Scheme| <= i < |s| - |r| :: s[i] != '/'
    ensures !HasOrigin(s) ==> r == s
  {
    if HasOrigin(s) then
      var rest := s[|Scheme|..];
      var n := HostLength(rest);
      assert forall i | |Scheme| <= i < |Scheme| + n :: s[i] == rest[i - |Scheme|];
      s[|Scheme| + n..]
    else s
  }

  /** Stripping the origin twice is stripping it once. */
  lemma RemoveBaseIdempotent(s: string)
    ensures RemoveBase(RemoveBase(s)) == RemoveBase(s)
  {
  }

  /** The prefix the `script[src^=…]` and `link[href^=…]` selectors look for. */
  function Canonical(locator: string): string {
    RemoveTime(RemoveBase(locator))
  }

  /**
   * A re-stamped relative locator is still found by the selector built from
   * the original, so a clone is one of the "similar" elements of its original.
   */
  lemma StampedMatchesCanonical(locator: string, now: nat)
    requires |locator| > 0 && locator[0] == '/'
    ensures StartsWith(ReplaceTime(locator, now), Canonical(locator))
    ensures Canonical(ReplaceTime(locator, now)) == Canonical(locator)
  {
    var base := RemoveTime(locator);
    var r := ReplaceTime(locator, now);
    ReplaceThenRemove(locator, now);
    assert |base| > 0 && base[0] == '/' by {
      if base != locator {
        var p :| TimeSuffixAt(locator, p);
        assert p != 0;
        assert base == locator[..p];
      }
    }
    assert r[0] == '/';
    assert !HasOrigin(locator) && !HasOrigin(r);
    assert r[..|base|] == base;
  }
}
