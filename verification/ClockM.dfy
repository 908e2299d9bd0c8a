/**
 The page that the improved clock (Clock-M) chooses, on the use and modified bits of the
 frames alone. Frames are visited in cyclic order from the hand. The code sweeps for a
 page neither used nor modified; then for one not used, clearing the use bits it passes;
 then both again.
 */
module ClockM {

  datatype Bits = Bits(used: bool, modified: bool)

  /** The frame at position `k` of the cyclic order from the hand; the hand may rest just past the last frame. */
  function At(n: nat, hand: nat, k: nat): (f: nat)
    requires hand <= n && k < n
    ensures f < n
  {
    if hand + k < n then hand + k else hand + k - n
  }

  /** The position of a frame in that order. */
  function PositionOf(n: nat, hand: nat, f: nat): (k: nat)
    requires hand <= n && f < n
    ensures k < n && At(n, hand, k) == f
    ensures forall i :: 0 <= i < n && At(n, hand, i) == f ==> i == k
  {
    if f >= hand then f - hand else f + n - hand
  }

  predicate Wanted(b: Bits, unused: bool, unmodified: bool) {
    (unused ==> !b.used) && (unmodified ==> !b.modified)
  }

  /** The first position from `k` on whose frame has the wanted bits clear, or the number of frames. */
  function First(b: seq<Bits>, hand: nat, k: nat, unused: bool, unmodified: bool): (q: nat)
    requires hand <= |b| && k <= |b|
    ensures k <= q <= |b|
    ensures q < |b| ==> Wanted(b[At(|b|, hand, q)], unused, unmodified)
    ensures forall i :: k <= i < q ==> !Wanted(b[At(|b|, hand, i)], unused, unmodified)
    decreases |b| - k
  {
    if k == |b| || Wanted(b[At(|b|, hand, k)], unused, unmodified) then k
    else First(b, hand, k + 1, unused, unmodified)
  }

  /**
   `position` of the victim, the `sweep` that finds it (1 to 4), and whether a `second` page
   is evicted too.
   */
  datatype Choice = Choice(position: nat, sweep: nat, second: bool)

  function Choose(b: seq<Bits>, hand: nat): (c: Choice)
    requires b != [] && hand <= |b|
    ensures c.position < |b| && 1 <= c.sweep <= 4
  {
    var clean := First(b, hand, 0, true, true);
    if clean < |b| then Choice(clean, 1, false)
    else
      var unused := First(b, hand, 0, true, false);
      if unused < |b| then
        Choice(unused, 2, unused == |b| - 1 && 0 < hand < |b| && !b[hand].modified)
      else
        var unmodified := First(b, hand, 0, false, true);
        if unmodified < |b| then Choice(unmodified, 3, false) else Choice(0, 4, false)
  }

  /** Use bits are cleared at the positions below this one. */
  function ClearedBelow(b: seq<Bits>, hand: nat): (k: nat)
    requires b != [] && hand <= |b|
    ensures k <= |b|
  {
    var c := Choose(b, hand);
    if c.sweep == 1 then 0 else if c.sweep == 2 then c.position else |b|
  }

  /** Where the hand ends: past the victim, or, when that is where it began, one step further. */
  function HandAfter(b: seq<Bits>, hand: nat): (h: nat)
    requires b != [] && hand <= |b|
    ensures h <= |b|
  {
    var v := At(|b|, hand, Choose(b, hand).position);
    if v + 1 != hand then v + 1 else if hand == |b| then 0 else hand + 1
  }

  /** Searching the whole order finds a frame exactly when there is one. */
  lemma FirstSeesAll(b: seq<Bits>, hand: nat, unused: bool, unmodified: bool)
    requires hand <= |b|
    ensures First(b, hand, 0, unused, unmodified) == |b| <==>
            forall f :: 0 <= f < |b| ==> !Wanted(b[f], unused, unmodified)
  {
    forall f | 0 <= f < |b| ensures At(|b|, hand, PositionOf(|b|, hand, f)) == f {
    }
    if First(b, hand, 0, unused, unmodified) == |b| {
      forall f | 0 <= f < |b| ensures !Wanted(b[f], unused, unmodified) {
        assert !Wanted(b[At(|b|, hand, PositionOf(|b|, hand, f))], unused, unmodified);
      }
    }
  }

  /** A page neither used nor modified wins if there is one; then any unused page; then any unmodified one. */
  lemma ChooseByClass(b: seq<Bits>, hand: nat)
    requires b != [] && hand <= |b|
    ensures var c := Choose(b, hand);
      && (c.sweep == 1 <==> exists f :: 0 <= f < |b| && !b[f].used && !b[f].modified)
      && (c.sweep >= 3 <==> forall f :: 0 <= f < |b| ==> b[f].used)
      && (c.sweep == 4 <==> forall f :: 0 <= f < |b| ==> b[f].used && b[f].modified)
    ensures var c, v := Choose(b, hand), b[At(|b|, hand, Choose(b, hand).position)];
      && (c.sweep == 1 ==> !v.used && !v.modified) && (c.sweep == 2 ==> !v.used) && (c.sweep == 3 ==> !v.modified)
  {
    FirstSeesAll(b, hand, true, true);
    FirstSeesAll(b, hand, true, false);
    FirstSeesAll(b, hand, false, true);
  }

  /** The victim is the first page of its class in cyclic order. */
  lemma ChooseFirst(b: seq<Bits>, hand: nat, k: nat)
    requires b != [] && hand <= |b| && k < Choose(b, hand).position
    ensures var c, p := Choose(b, hand), b[At(|b|, hand, k)];
      && (c.sweep == 1 ==> p.used || p.modified)
      && (c.sweep == 2 ==> p.used)
      && (c.sweep == 3 ==> p.modified)
      && c.sweep != 4
  {
  }

  /** The hand on a used, unmodified page, an unused, modified one just behind, every other page used. */
  predicate TwoVictims(b: seq<Bits>, hand: nat) {
    && 0 < hand < |b| && b[hand] == Bits(true, false) && b[hand - 1] == Bits(false, true)
    && forall f :: 0 <= f < |b| && f != hand - 1 ==> b[f].used
  }

  /**
   A second page goes too exactly when the hand stands on a used but unmodified page, the
   page just behind it is unused but modified, and every other page is used.
   */
  lemma SecondVictim(b: seq<Bits>, hand: nat)
    requires b != [] && hand <= |b|
    ensures Choose(b, hand).second <==> TwoVictims(b, hand)
  {
    var n := |b|;
    var c := Choose(b, hand);
    ChooseByClass(b, hand);
    if 0 < hand < n {
      assert At(n, hand, 0) == hand && At(n, hand, n - 1) == hand - 1;
    }
    if c.second {
      forall f | 0 <= f < n && f != hand - 1 ensures b[f].used {
        assert At(n, hand, PositionOf(n, hand, f)) == f;
        assert !Wanted(b[At(n, hand, PositionOf(n, hand, f))], true, false);
      }
      assert !Wanted(b[At(n, hand, 0)], true, true);
      assert !Wanted(b[At(n, hand, n - 1)], true, true);
    }
    if 0 < hand < n && b[hand - 1] == Bits(false, true) && forall f :: 0 <= f < n && f != hand - 1 ==> b[f].used {
      assert c.sweep == 2;
      assert c.position == PositionOf(n, hand, hand - 1);
    }
  }

  lemma SecondIsElsewhere(b: seq<Bits>, hand: nat)
    requires b != [] && hand <= |b|
    ensures Choose(b, hand).second ==> hand < |b| && At(|b|, hand, Choose(b, hand).position) != hand
  {
    SecondVictim(b, hand);
  }

  /**
   A use bit is cleared exactly when no page is neither used nor modified and every page met up to that one,
   itself included, is used.
   */
  lemma ClearedBelowIs(b: seq<Bits>, hand: nat, f: nat)
    requires b != [] && hand <= |b| && f < |b|
    ensures PositionOf(|b|, hand, f) < ClearedBelow(b, hand) <==>
            && (forall g :: 0 <= g < |b| ==> b[g].used || b[g].modified)
            && forall g :: 0 <= g < |b| && PositionOf(|b|, hand, g) <= PositionOf(|b|, hand, f) ==> b[g].used
  {
    ChooseByClass(b, hand);
    var p := PositionOf(|b|, hand, f);
    if p < ClearedBelow(b, hand) {
      forall g | 0 <= g < |b| && PositionOf(|b|, hand, g) <= p ensures b[g].used {
        assert !Wanted(b[At(|b|, hand, PositionOf(|b|, hand, g))], true, false) || Choose(b, hand).sweep >= 3;
      }
    } else if Choose(b, hand).sweep == 2 {
      var v := At(|b|, hand, Choose(b, hand).position);
      assert PositionOf(|b|, hand, v) <= p && !b[v].used;
    }
  }

  /** The hand ends where the victim's frame comes last, or last but one when the hand had to move past its start. */
  lemma HandEnds(b: seq<Bits>, hand: nat)
    requires b != [] && hand <= |b|
    ensures var v := At(|b|, hand, Choose(b, hand).position);
      PositionOf(|b|, HandAfter(b, hand), v) == if v + 1 == hand < |b| then |b| - 2 else |b| - 1
  {
  }
}
