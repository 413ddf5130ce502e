/** The static capability heuristic `isLowPowerDevice` (script.js): three device
    signals read from `navigator`, each with a default, combined by a
    conservative OR, failing open when reading them throws. */
module Capability {
  import opened Wrappers

  /** What one read of the device signals yields: the read throws, or each
      signal is present or absent. Memory is in gigabytes and may be
      fractional (0.25, 0.5, ...). */
  datatype Probe =
    | Threw
    | Read(deviceMemory: Option<real>, hardwareConcurrency: Option<int>, userAgent: Option<string>)

  /** `navigator.deviceMemory || 4`: an absent or zero (falsy) value becomes 4. */
  function MemoryOrDefault(m: Option<real>): real {
    if m.None? || m.value == 0.0 then 4.0 else m.value
  }

  /** `navigator.hardwareConcurrency || 4`. */
  function CoresOrDefault(c: Option<int>): int {
    if c.None? || c.value == 0 then 4 else c.value
  }

  /** ASCII case folding, which is what a non-Unicode `/i` regular expression
      applies to the ASCII letters of its pattern. */
  function Lower(c: char): char {
    if 'A' <= c <= 'Z' then (c as int + 32) as char else c
  }

  /** The lower-case pattern `p` occurs in `s` at offset `i`, ignoring case. */
  predicate MatchesAt(s: string, i: nat, p: string) {
    i + |p| <= |s| && forall j :: 0 <= j < |p| ==> Lower(s[i + j]) == p[j]
  }

  /** `p` occurs somewhere in `s`, ignoring case. */
  predicate ContainsFolded(s: string, p: string) {
    exists i: nat :: i <= |s| && MatchesAt(s, i, p)
  }

  /** `/Mobi|Android/i.test(ua)`. */
  predicate MobileAgent(ua: string) {
    ContainsFolded(ua, "mobi") || ContainsFolded(ua, "android")
  }

  /** `isLowPowerDevice()`: memory of at most 4 GB, at most 4 cores, or a
      mobile user agent; an absent signal takes the default 4 and so counts
      as weak; a read that throws yields `false` (full capability). */
  function IsLowPowerDevice(p: Probe): (low: bool)
    ensures low ==> p.Read?
    ensures p.Read? && (p.deviceMemory.None? || p.hardwareConcurrency.None?) ==> low
    ensures !low <==>
              || p.Threw?
              || (&& p.deviceMemory.Some? && p.deviceMemory.value > 4.0
                  && p.hardwareConcurrency.Some? && p.hardwareConcurrency.value > 4
                  && (p.userAgent.None? || !MobileAgent(p.userAgent.value)))
  {
    match p
    case Threw => false
    case Read(m, c, u) =>
      var agent := if u.None? then "" else u.value;
      MemoryOrDefault(m) <= 4.0 || CoresOrDefault(c) <= 4 || MobileAgent(agent)
  }

  /** The regular-expression test as the engine performs it: try both
      alternatives at each start position from left to right. */
  method MatchMobile(ua: string) returns (found: bool)
    ensures found <==> MobileAgent(ua)
  {
    var i := 0;
    while i < |ua|
      invariant 0 <= i <= |ua|
      invariant forall k: nat :: k < i ==> !MatchesAt(ua, k, "mobi") && !MatchesAt(ua, k, "android")
    {
      if MatchesAt(ua, i, "mobi") || MatchesAt(ua, i, "android") {
        return true;
      }
      i := i + 1;
    }
    return false;
  }

  /** A user agent naming Android marks the device as low-power whatever its
      memory and core count. */
  lemma AndroidAgentIsLowPower(m: Option<real>, c: Option<int>, before: string, after: string)
    ensures IsLowPowerDevice(Read(m, c, Some(before + "Android" + after)))
  {
    var ua := before + "Android" + after;
    assert MatchesAt(ua, |before|, "android") by {
      forall j | 0 <= j < 7
        ensures Lower(ua[|before| + j]) == "android"[j]
      {
        assert ua[|before| + j] == "Android"[j];
      }
    }
  }
}
