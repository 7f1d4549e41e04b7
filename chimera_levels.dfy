/**
 * The level pairing of the Chimera loop: every model part of a background level is paired with
 * every model part of each higher level, in the order of the four nested loops, and the pairing
 * tells the hole cutting whether the background is the main domain (level 0, -1) or not (1).
 */
module ChimeraLevels {

  /** One pairing: background level and entry, patch level and entry, and the main-domain sign. */
  datatype Pairing = Pairing(background: nat, backgroundEntry: nat, patch: nat, patchEntry: nat, mainDomainOrNot: int)

  /** MainDomainOrNot: -1 for a background on level 0, 1 above it. */
  function Side(background: nat): int {
    if background == 0 then -1 else 1
  }

  /** The innermost loop: the first n entries of patch level `patch` against one background entry. */
  function PatchRow(background: nat, backgroundEntry: nat, patch: nat, n: nat): (r: seq<Pairing>)
    ensures |r| == n
  {
    if n == 0 then []
    else PatchRow(background, backgroundEntry, patch, n - 1) + [Pairing(background, backgroundEntry, patch, n - 1, Side(background))]
  }

  /** The patch-level loop: the levels background + 1 .. end - 1 against one background entry. */
  function PatchLevels(levels: seq<nat>, background: nat, backgroundEntry: nat, end: nat): seq<Pairing>
    requires end <= |levels|
  {
    if end <= background + 1 then []
    else PatchLevels(levels, background, backgroundEntry, end - 1) + PatchRow(background, backgroundEntry, end - 1, levels[end - 1])
  }

  /** The background-entry loop: the first n entries of level `background`, each against every higher level. */
  function BackgroundRow(levels: seq<nat>, background: nat, n: nat): seq<Pairing> {
    if n == 0 then []
    else BackgroundRow(levels, background, n - 1) + PatchLevels(levels, background, n - 1, |levels|)
  }

  /** The outer loop over the first `end` background levels. */
  function Pairings(levels: seq<nat>, end: nat): seq<Pairing>
    requires end <= |levels|
  {
    if end == 0 then []
    else Pairings(levels, end - 1) + BackgroundRow(levels, end - 1, levels[end - 1])
  }

  /** The pairings the loop formulates: background level below patch level, both entries in range, the sign by the background level. */
  predicate Formulated(levels: seq<nat>, p: Pairing) {
    p.background < p.patch < |levels| && p.backgroundEntry < levels[p.background] && p.patchEntry < levels[p.patch] &&
    p.mainDomainOrNot == Side(p.background)
  }

  lemma {:induction false} PatchRowMembers(background: nat, backgroundEntry: nat, patch: nat, n: nat, p: Pairing)
    ensures p in PatchRow(background, backgroundEntry, patch, n) <==>
      p.background == background && p.backgroundEntry == backgroundEntry && p.patch == patch && p.patchEntry < n &&
      p.mainDomainOrNot == Side(background)
  {
    if n > 0 {
      PatchRowMembers(background, backgroundEntry, patch, n - 1, p);
    }
  }

  lemma {:induction false} PatchLevelsMembers(levels: seq<nat>, background: nat, backgroundEntry: nat, end: nat, p: Pairing)
    requires end <= |levels|
    ensures p in PatchLevels(levels, background, backgroundEntry, end) <==>
      p.background == background && p.backgroundEntry == backgroundEntry && background < p.patch < end &&
      p.patchEntry < levels[p.patch] && p.mainDomainOrNot == Side(background)
  {
    if end > background + 1 {
      PatchLevelsMembers(levels, background, backgroundEntry, end - 1, p);
      PatchRowMembers(background, backgroundEntry, end - 1, levels[end - 1], p);
    }
  }

  lemma {:induction false} BackgroundRowMembers(levels: seq<nat>, background: nat, n: nat, p: Pairing)
    ensures p in BackgroundRow(levels, background, n) <==>
      p.background == background && p.backgroundEntry < n && background < p.patch < |levels| &&
      p.patchEntry < levels[p.patch] && p.mainDomainOrNot == Side(background)
  {
    if n > 0 {
      var earlier := BackgroundRow(levels, background, n - 1);
      var last := PatchLevels(levels, background, n - 1, |levels|);
      assert p in BackgroundRow(levels, background, n) <==> p in earlier || p in last by {
        assert BackgroundRow(levels, background, n) == earlier + last;
      }
      assert p in earlier <==>
        p.background == background && p.backgroundEntry < n - 1 && background < p.patch < |levels| &&
        p.patchEntry < levels[p.patch] && p.mainDomainOrNot == Side(background) by {
        BackgroundRowMembers(levels, background, n - 1, p);
      }
      assert p in last <==>
        p.background == background && p.backgroundEntry == n - 1 && background < p.patch < |levels| &&
        p.patchEntry < levels[p.patch] && p.mainDomainOrNot == Side(background) by {
        PatchLevelsMembers(levels, background, n - 1, |levels|, p);
      }
      if p.backgroundEntry != n - 1 {
        assert p !in last;
      }
    }
  }

  lemma {:induction false} PairingsMembers(levels: seq<nat>, end: nat, p: Pairing)
    requires end <= |levels|
    ensures p in Pairings(levels, end) <==> p.background < end && Formulated(levels, p)
  {
    if end > 0 {
      var earlier := Pairings(levels, end - 1);
      var last := BackgroundRow(levels, end - 1, levels[end - 1]);
      assert p in Pairings(levels, end) <==> p in earlier || p in last by {
        assert Pairings(levels, end) == earlier + last;
      }
      assert p in earlier <==> p.background < end - 1 && Formulated(levels, p) by {
        PairingsMembers(levels, end - 1, p);
      }
      assert p in last <==>
        p.background == end - 1 && p.backgroundEntry < levels[end - 1] && end - 1 < p.patch < |levels| &&
        p.patchEntry < levels[p.patch] && p.mainDomainOrNot == Side(end - 1) by {
        BackgroundRowMembers(levels, end - 1, levels[end - 1], p);
      }
      if p.background == end - 1 {
        assert p in Pairings(levels, end) <==> Formulated(levels, p);
      } else {
        assert p !in last;
      }
    }
  }

  /** The loop formulates exactly the pairings of a background level with a higher patch level, each with its sign. */
  lemma AllPairings(levels: seq<nat>, p: Pairing)
    ensures p in Pairings(levels, |levels|) <==> Formulated(levels, p)
  {
    PairingsMembers(levels, |levels|, p);
  }

  /** Extending both sides of a prefix by the same front keeps it a prefix. */
  lemma PrefixAfter<T>(a: seq<T>, b: seq<T>, c: seq<T>)
    requires b <= c
    ensures a + b <= a + c
  {
    assert (a + c)[..|a + b|] == a + c[..|b|];
  }

  /** The loop of each depth formulates its pairings in an order the longer loop of the same depth continues. */
  lemma {:induction false} PatchRowPrefix(background: nat, backgroundEntry: nat, patch: nat, n: nat, m: nat)
    requires n <= m
    ensures PatchRow(background, backgroundEntry, patch, n) <= PatchRow(background, backgroundEntry, patch, m)
    decreases m
  {
    if n < m {
      PatchRowPrefix(background, backgroundEntry, patch, n, m - 1);
    }
  }

  lemma {:induction false} PatchLevelsPrefix(levels: seq<nat>, background: nat, backgroundEntry: nat, a: nat, b: nat)
    requires a <= b <= |levels|
    ensures PatchLevels(levels, background, backgroundEntry, a) <= PatchLevels(levels, background, backgroundEntry, b)
    decreases b
  {
    if a < b {
      PatchLevelsPrefix(levels, background, backgroundEntry, a, b - 1);
    }
  }

  lemma {:induction false} BackgroundRowPrefix(levels: seq<nat>, background: nat, n: nat, m: nat)
    requires n <= m
    ensures BackgroundRow(levels, background, n) <= BackgroundRow(levels, background, m)
    decreases m
  {
    if n < m {
      BackgroundRowPrefix(levels, background, n, m - 1);
    }
  }

  lemma {:induction false} PairingsPrefix(levels: seq<nat>, a: nat, b: nat)
    requires a <= b <= |levels|
    ensures Pairings(levels, a) <= Pairings(levels, b)
    decreases b
  {
    if a < b {
      PairingsPrefix(levels, a, b - 1);
    }
  }

  /** One more patch level appends its row: the step of the patch-level loop. */
  lemma PatchLevelsNext(levels: seq<nat>, background: nat, backgroundEntry: nat, end: nat)
    requires background < end < |levels|
    ensures PatchLevels(levels, background, backgroundEntry, end + 1) ==
            PatchLevels(levels, background, backgroundEntry, end) + PatchRow(background, backgroundEntry, end, levels[end])
  {
  }

  /** One more background entry appends its patch levels: the step of the background-entry loop. */
  lemma BackgroundRowNext(levels: seq<nat>, background: nat, n: nat)
    ensures BackgroundRow(levels, background, n + 1) == BackgroundRow(levels, background, n) + PatchLevels(levels, background, n, |levels|)
  {
  }

  /** One more background level appends its row: the step of the level loop. */
  lemma PairingsNext(levels: seq<nat>, end: nat)
    requires end < |levels|
    ensures Pairings(levels, end + 1) == Pairings(levels, end) + BackgroundRow(levels, end, levels[end])
  {
  }
}
