/** `setupScrollReveal` (script.js): every matched element is marked
    `to-reveal` and observed; on its first intersecting entry it gets
    `in-view` and is no longer observed. */
module Reveal {

  /** A page element, by identity. */
  type Elem = nat

  /** One `IntersectionObserverEntry`: its target and whether it intersects. */
  datatype Entry = Entry(target: Elem, isIntersecting: bool)

  /** Elements carrying `to-reveal`, elements the observer still watches,
      elements carrying `in-view`, and every `in-view` addition scheduled so
      far, in order. */
  datatype RevealState = RevealState(
    toReveal: set<Elem>,
    observed: set<Elem>,
    inView: set<Elem>,
    revealLog: seq<Elem>)

  /** Before `setupScrollReveal` runs. */
  const Initial := RevealState({}, {}, {}, [])

  /** The elements of a sequence. */
  function Elems(s: seq<Elem>): set<Elem> {
    set k | 0 <= k < |s| :: s[k]
  }

  /** No element occurs twice. */
  predicate Distinct(s: seq<Elem>) {
    forall i, j :: 0 <= i < j < |s| ==> s[i] != s[j]
  }

  /** The targets of the intersecting entries of a batch. */
  function Hits(entries: seq<Entry>): set<Elem> {
    set k | 0 <= k < |entries| && entries[k].isIntersecting :: entries[k].target
  }

  /** `setupScrollReveal` over the elements its selector matched. */
  function Setup(elems: set<Elem>): (s: RevealState)
    ensures s.toReveal == elems && s.observed == elems
    ensures s.inView == {} && s.revealLog == []
  {
    RevealState(elems, elems, {}, [])
  }

  /** The callback on one entry: an intersecting target is scheduled for
      `in-view` and unobserved; anything else changes nothing. */
  function Handle(s: RevealState, e: Entry): (s': RevealState)
    ensures s'.toReveal == s.toReveal
    ensures e.isIntersecting ==>
              && e.target in s'.inView && e.target !in s'.observed
              && s'.inView - {e.target} == s.inView - {e.target}
              && s'.observed + {e.target} == s.observed + {e.target}
              && s'.revealLog == s.revealLog + [e.target]
    ensures !e.isIntersecting ==> s' == s
  {
    if e.isIntersecting then
      s.(inView := s.inView + {e.target},
         observed := s.observed - {e.target},
         revealLog := s.revealLog + [e.target])
    else s
  }

  lemma HitsCons(entries: seq<Entry>)
    requires |entries| > 0
    ensures Hits(entries) == (if entries[0].isIntersecting then {entries[0].target} else {}) + Hits(entries[1..])
  {
    var tail := entries[1..];
    forall x | x in Hits(tail) ensures x in Hits(entries) {
      var k :| 0 <= k < |tail| && tail[k].isIntersecting && tail[k].target == x;
      assert entries[k + 1] == tail[k];
    }
    forall x | x in Hits(entries) && x !in Hits(tail)
      ensures entries[0].isIntersecting && x == entries[0].target
    {
      var k :| 0 <= k < |entries| && entries[k].isIntersecting && entries[k].target == x;
    }
  }

  /** The observer callback over one batch of entries, in order. Targets of
      intersecting entries move from observed to `in-view`; every scheduled
      addition names one of them; a batch without an intersecting entry
      changes nothing. */
  function OnEntries(s: RevealState, entries: seq<Entry>): (s': RevealState)
    ensures s'.toReveal == s.toReveal
    ensures s'.observed == s.observed - Hits(entries)
    ensures s'.inView == s.inView + Hits(entries)
    ensures |s.revealLog| <= |s'.revealLog| && s'.revealLog[..|s.revealLog|] == s.revealLog
    ensures forall k :: |s.revealLog| <= k < |s'.revealLog| ==> s'.revealLog[k] in Hits(entries)
    ensures Hits(entries) == {} ==> s' == s
    decreases |entries|
  {
    if |entries| == 0 then s
    else
      HitsCons(entries);
      var s1 := Handle(s, entries[0]);
      var s' := OnEntries(s1, entries[1..]);
      assert s'.revealLog[..|s1.revealLog|] == s1.revealLog;
      s'
  }

  /** What the observer delivers: entries only for targets it still
      observes, and at most one entry per target in a batch. */
  predicate Delivered(s: RevealState, entries: seq<Entry>) {
    && (forall k :: 0 <= k < |entries| ==> entries[k].target in s.observed)
    && (forall i, j :: 0 <= i < j < |entries| ==> entries[i].target != entries[j].target)
  }

  /** The one-shot reveal invariant: every scheduled `in-view` addition names
      a distinct element, exactly the `in-view` ones, all marked `to-reveal`
      and none still observed. */
  predicate Inv(s: RevealState) {
    && s.observed <= s.toReveal
    && s.inView <= s.toReveal
    && s.observed !! s.inView
    && Elems(s.revealLog) == s.inView
    && Distinct(s.revealLog)
  }

  lemma SetupInv(elems: set<Elem>)
    ensures Inv(Setup(elems))
  {
  }

  /** A delivered batch keeps the one-shot invariant: no element gets
      `in-view` twice, and a revealed element is never observed again. */
  lemma {:induction false} OnEntriesKeepsInv(s: RevealState, entries: seq<Entry>)
    requires Inv(s) && Delivered(s, entries)
    ensures Inv(OnEntries(s, entries))
    decreases |entries|
  {
    if |entries| > 0 {
      var e := entries[0];
      var s1 := Handle(s, e);
      if e.isIntersecting {
        assert e.target !in Elems(s.revealLog);
        assert Elems(s1.revealLog) == Elems(s.revealLog) + {e.target} by {
          var log := s1.revealLog;
          assert log[|log| - 1] == e.target;
          forall x | x in Elems(s.revealLog) ensures x in Elems(log) {
            var k :| 0 <= k < |s.revealLog| && s.revealLog[k] == x;
            assert log[k] == x;
          }
        }
      }
      var tail := entries[1..];
      assert Delivered(s1, tail) by {
        forall k | 0 <= k < |tail| ensures tail[k].target in s1.observed {
          assert tail[k] == entries[k + 1];
        }
      }
      OnEntriesKeepsInv(s1, tail);
    }
  }

  /** A delivered batch never names an element that already has `in-view`,
      so it gets no second `in-view` addition. */
  lemma RevealedStaysQuiet(s: RevealState, entries: seq<Entry>, x: Elem)
    requires Inv(s) && Delivered(s, entries) && x in s.inView
    ensures forall k :: 0 <= k < |entries| ==> entries[k].target != x
    ensures x !in OnEntries(s, entries).observed
    ensures x in OnEntries(s, entries).inView
  {
  }
}
