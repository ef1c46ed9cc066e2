/**
 The search for a resting position: the left-aligned pass over all corners and, for best
 fit, the right-aligned pass, each step comparing one more position with the best so far.
 */
module SkylineSearch {
  import opened SkylineProfile
  import opened SkylinePlacement

  ghost predicate Candidate(s: seq<Seg>, t: Target, aw: int, h: int, x: int)
    requires Ordered(s, t.width)
  {
    Tried(s, t, aw, x) && (t.bestFit ==> Fits(s, t, aw, h, x))
  }

  /** The best position the search holds, with its resting height and waste. */
  datatype Best = None | Held(x: int, y: int, waste: int)

  ghost predicate BeatsIt(s: seq<Seg>, t: Target, aw: int, h: int, b: Best, x: int)
    requires Ordered(s, t.width)
  {
    Candidate(s, t, aw, h, x) ==> b.Held? && Tried(s, t, aw, b.x) && NoWorse(s, t, aw, b.x, x)
  }

  /** `b` beats the left-aligned positions at corners [..k] and the right-aligned ones at [..m]. */
  ghost predicate BestSoFar(s: seq<Seg>, t: Target, aw: int, h: int, k: nat, m: nat, b: Best)
    requires Ordered(s, t.width) && k <= |s| && m <= |s|
  {
    && Holds(s, t, aw, h, b)
    && (forall i :: 0 <= i < k ==> BeatsIt(s, t, aw, h, b, s[i].x))
    && (forall i :: 0 <= i < m ==> BeatsIt(s, t, aw, h, b, s[i].x - aw))
  }

  /** The heuristic's test for taking position `c` over the best so far, in the left-aligned pass. */
  predicate TakeLeft(t: Target, h: int, b: Best, c: Best)
    requires c.Held?
  {
    if !t.bestFit then b.None? || c.y < b.y
    else c.y + h <= t.height && (b.None? || c.y < b.y || (c.y == b.y && c.waste < b.waste))
  }

  /** The same test in the right-aligned pass of best fit, which breaks ties to the left. */
  predicate TakeRight(t: Target, h: int, b: Best, c: Best)
    requires c.Held?
  {
    c.y + h <= t.height &&
    (b.None? || c.y < b.y || (c.y == b.y && (c.waste < b.waste || (c.waste == b.waste && c.x < b.x))))
  }

  ghost predicate Measured(s: seq<Seg>, t: Target, aw: int, c: Best)
    requires Ordered(s, t.width)
  {
    c.Held? && Tried(s, t, aw, c.x) && c.y == Rest(s, c.x, aw).minY && c.waste == Rest(s, c.x, aw).waste
  }

  lemma SwitchKeeps(s: seq<Seg>, t: Target, aw: int, h: int, b: Best, c: Best, x: int)
    requires Ordered(s, t.width) && Measured(s, t, aw, c)
    requires b.Held? ==> Measured(s, t, aw, b)
    requires b.Held? ==>
      c.y < b.y || (t.bestFit && c.y == b.y && (c.waste < b.waste || (c.waste == b.waste && c.x < b.x)))
    requires BeatsIt(s, t, aw, h, b, x)
    ensures BeatsIt(s, t, aw, h, c, x)
  {
    hide Rest, Tried, LeftAligned, RightAligned;
  }

  /** Staying with the best so far is right when the new position does not win the test. */
  lemma StayKeeps(s: seq<Seg>, t: Target, aw: int, h: int, b: Best, c: Best)
    requires Ordered(s, t.width) && Measured(s, t, aw, c)
    requires b.Held? ==> Measured(s, t, aw, b)
    requires if t.bestFit then !TakeRight(t, h, b, c) else !TakeLeft(t, h, b, c) && (b.Held? ==> b.x < c.x)
    ensures BeatsIt(s, t, aw, h, b, c.x)
  {
    hide Rest, Tried, LeftAligned, RightAligned;
  }

  ghost predicate Holds(s: seq<Seg>, t: Target, aw: int, h: int, b: Best)
    requires Ordered(s, t.width)
  {
    b.Held? ==> Measured(s, t, aw, b) && Candidate(s, t, aw, h, b.x)
  }

  /** Switching to a measured position that wins the test keeps everything beaten so far beaten. */
  lemma SwitchAll(s: seq<Seg>, t: Target, aw: int, h: int, k: nat, m: nat, b: Best, c: Best)
    requires Ordered(s, t.width) && k <= |s| && m <= |s| && BestSoFar(s, t, aw, h, k, m, b)
    requires Measured(s, t, aw, c)
    requires if t.bestFit then TakeRight(t, h, b, c) else TakeLeft(t, h, b, c)
    ensures BestSoFar(s, t, aw, h, k, m, c)
  {
    hide Rest, Tried, LeftAligned, RightAligned, NoWorse, BeatsIt;
    forall i | 0 <= i < k ensures BeatsIt(s, t, aw, h, c, s[i].x) {
      SwitchKeeps(s, t, aw, h, b, c, s[i].x);
    }
    forall i | 0 <= i < m ensures BeatsIt(s, t, aw, h, c, s[i].x - aw) {
      SwitchKeeps(s, t, aw, h, b, c, s[i].x - aw);
    }
  }

  lemma SelfBeats(s: seq<Seg>, t: Target, aw: int, h: int, c: Best)
    requires Ordered(s, t.width) && Measured(s, t, aw, c)
    ensures BeatsIt(s, t, aw, h, c, c.x)
  {
    hide Rest, LeftAligned, RightAligned;
  }

  lemma LeftStep(s: seq<Seg>, t: Target, aw: int, h: int, k: nat, b: Best, c: Best)
    requires Ordered(s, t.width) && k < |s| && BestSoFar(s, t, aw, h, k, 0, b)
    requires Measured(s, t, aw, c) && c.x == s[k].x && (b.Held? ==> b.x < c.x)
    ensures BestSoFar(s, t, aw, h, k + 1, 0, if TakeLeft(t, h, b, c) then c else b)
  {
    hide Rest, Tried, LeftAligned, RightAligned, NoWorse, BeatsIt;
    if TakeLeft(t, h, b, c) {
      SwitchAll(s, t, aw, h, k, 0, b, c);
      SelfBeats(s, t, aw, h, c);
    } else {
      StayKeeps(s, t, aw, h, b, c);
    }
  }

  lemma RightStep(s: seq<Seg>, t: Target, aw: int, h: int, m: nat, b: Best, c: Best)
    requires Ordered(s, t.width) && m < |s| && BestSoFar(s, t, aw, h, |s|, m, b) && t.bestFit
    requires Measured(s, t, aw, c) && c.x == s[m].x - aw
    ensures BestSoFar(s, t, aw, h, |s|, m + 1, if TakeRight(t, h, b, c) then c else b)
  {
    hide Rest, Tried, LeftAligned, RightAligned, NoWorse, BeatsIt;
    if TakeRight(t, h, b, c) {
      SwitchAll(s, t, aw, h, |s|, m, b, c);
      SelfBeats(s, t, aw, h, c);
    } else {
      StayKeeps(s, t, aw, h, b, c);
    }
  }

  lemma UntriedBeaten(s: seq<Seg>, t: Target, aw: int, h: int, b: Best, x: int)
    requires Ordered(s, t.width) && (x < 0 || x + aw > t.width)
    ensures BeatsIt(s, t, aw, h, b, x)
  {
    hide Rest, LeftAligned, RightAligned;
  }

  /** Past the first corner too far right, no further left-aligned position is tried. */
  lemma LeftDone(s: seq<Seg>, t: Target, aw: int, h: int, k: nat, b: Best)
    requires Ordered(s, t.width) && k < |s| && BestSoFar(s, t, aw, h, k, 0, b) && s[k].x + aw > t.width
    ensures BestSoFar(s, t, aw, h, |s|, 0, b)
  {
    hide Holds, BeatsIt;
    forall i | 0 <= i < |s| ensures BeatsIt(s, t, aw, h, b, s[i].x) {
      if i >= k {
        UntriedBeaten(s, t, aw, h, b, s[i].x);
      }
    }
  }

  /** A corner left of the quantized width gives no right-aligned position. */
  lemma RightSkip(s: seq<Seg>, t: Target, aw: int, h: int, m: nat, b: Best)
    requires Ordered(s, t.width) && m < |s| && BestSoFar(s, t, aw, h, |s|, m, b) && s[m].x < aw
    ensures BestSoFar(s, t, aw, h, |s|, m + 1, b)
  {
    hide Holds, BeatsIt;
    UntriedBeaten(s, t, aw, h, b, s[m].x - aw);
  }

  lemma TriedLeft(s: seq<Seg>, t: Target, aw: int, k: nat)
    requires Ordered(s, t.width) && k < |s| && s[k].x + aw <= t.width
    ensures Tried(s, t, aw, s[k].x)
  {
    assert LeftAligned(s, s[k].x);
  }

  lemma TriedRight(s: seq<Seg>, t: Target, aw: int, m: nat)
    requires Ordered(s, t.width) && m < |s| && aw <= s[m].x && t.bestFit
    ensures Tried(s, t, aw, s[m].x - aw)
  {
    assert RightAligned(s, aw, s[m].x - aw);
  }

  lemma LeftBeaten(s: seq<Seg>, t: Target, aw: int, h: int, m: nat, b: Best, i: nat)
    requires Ordered(s, t.width) && m <= |s| && BestSoFar(s, t, aw, h, |s|, m, b) && i < |s|
    ensures BeatsIt(s, t, aw, h, b, s[i].x)
  {
    hide Holds, BeatsIt;
  }

  lemma RightBeaten(s: seq<Seg>, t: Target, aw: int, h: int, b: Best, i: nat)
    requires Ordered(s, t.width) && BestSoFar(s, t, aw, h, |s|, |s|, b) && i < |s|
    ensures BeatsIt(s, t, aw, h, b, s[i].x - aw)
  {
    hide Holds, BeatsIt;
  }

  lemma EveryCandidateBeaten(s: seq<Seg>, t: Target, aw: int, h: int, b: Best, z: int)
    requires Ordered(s, t.width)
    requires BestSoFar(s, t, aw, h, |s|, if t.bestFit then |s| else 0, b)
    requires Candidate(s, t, aw, h, z)
    ensures b.Held? && NoWorse(s, t, aw, b.x, z)
  {
    hide Rest, NoWorse, BestSoFar, Ordered;
    if LeftAligned(s, z) {
      var i :| 0 <= i < |s| && s[i].x == z;
      LeftBeaten(s, t, aw, h, if t.bestFit then |s| else 0, b, i);
    } else {
      var i :| 0 <= i < |s| && s[i].x == z + aw;
      RightBeaten(s, t, aw, h, b, i);
    }
  }

  /** A finished search holds the chosen position, and holds nothing only if nothing fits. */
  lemma SearchOutcome(s: seq<Seg>, t: Target, w: int, h: int, b: Best)
    requires Ordered(s, t.width) && w >= 1 && t.align >= 1
    requires BestSoFar(s, t, Aligned(w, t.align), h, |s|, if t.bestFit then |s| else 0, b)
    ensures b.Held? ==> Chosen(s, t, Aligned(w, t.align), h, b.x)
    ensures HasRoom(s, t, w, h) ==> b.Held?
  {
    var aw := Aligned(w, t.align);
    forall z | Candidate(s, t, aw, h, z) ensures b.Held? && NoWorse(s, t, aw, b.x, z) {
      EveryCandidateBeaten(s, t, aw, h, b, z);
    }
    if HasRoom(s, t, w, h) {
      var z :| Tried(s, t, aw, z) && Fits(s, t, aw, h, z);
      assert Candidate(s, t, aw, h, z);
    }
  }
}
