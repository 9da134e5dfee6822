/**
  Why walking an extendible-hash table run by run visits every leaf exactly once.
  A table is a sequence of leaf pointers; next to it stands, for every slot, the
  length of the run its leaf claims.
 */
module HashRuns {
  import opened GfsHeights
  import opened GfsTree

  datatype Visit = Visit(index: nat, len: nat, leaf: nat)

  predicate SameRun(i: nat, j: nat, len: nat)
    requires len > 0
  {
    i / len == j / len
  }

  /** Two slots point at the same leaf exactly when they lie in the same aligned run. */
  predicate Extendible(slots: seq<nat>, lens: seq<nat>)
  {
    && |slots| == |lens|
    && (forall i :: 0 <= i < |lens| ==> lens[i] > 0 && |slots| % lens[i] == 0)
    && forall i, j {:trigger SameRun(i, j, lens[i])} :: 0 <= i < |slots| && 0 <= j < |slots| ==>
         (slots[i] == slots[j] <==> SameRun(i, j, lens[i]))
  }

  /** The visits cover the slots below upto, in order, without gap or overlap. */
  predicate Tiles(visits: seq<Visit>, upto: nat)
  {
    && (visits == [] ==> upto == 0)
    && (visits != [] ==> visits[0].index == 0 && visits[|visits| - 1].index + visits[|visits| - 1].len == upto)
    && (forall k :: 0 <= k < |visits| ==> visits[k].len > 0)
    && forall k :: 0 <= k < |visits| - 1 ==> visits[k].index + visits[k].len == visits[k + 1].index
  }

  /** Every visit is to the leaf its first slot points at, for the run that leaf claims. */
  predicate Genuine(slots: seq<nat>, lens: seq<nat>, visits: seq<Visit>)
    requires |slots| == |lens|
  {
    forall k :: 0 <= k < |visits| ==>
      visits[k].index < |slots| && visits[k].leaf == slots[visits[k].index] && visits[k].len == lens[visits[k].index]
  }

  /** Each visit starts a run and stays within what has been walked. */
  predicate Aligned(visits: seq<Visit>, upto: nat)
  {
    forall k :: 0 <= k < |visits| ==>
      visits[k].len > 0 && visits[k].index % visits[k].len == 0 && visits[k].index + visits[k].len <= upto
  }

  predicate Covers(t: Visit, i: nat)
  {
    t.index <= i < t.index + t.len
  }

  /** Every slot belongs to a visit, every visit goes to the leaf of all its slots, and no leaf is visited twice. */
  ghost predicate OncePerLeaf(slots: seq<nat>, visits: seq<Visit>)
  {
    && (forall k, i :: 0 <= k < |visits| && 0 <= i < |slots| && Covers(visits[k], i) ==> slots[i] == visits[k].leaf)
    && (forall i :: 0 <= i < |slots| ==> slots[i] in set k | 0 <= k < |visits| :: visits[k].leaf)
    && (forall k, l :: 0 <= k < l < |visits| ==> visits[k].leaf != visits[l].leaf)
  }

  // ---------- arithmetic of aligned runs

  lemma MultiplesApart(a: nat, b: nat, n: nat)
    requires n > 0 && a % n == 0 && b % n == 0 && a < b
    ensures a + n <= b
  {
    var q, r := a / n, b / n;
    Split(a, n);
    Split(b, n);
    if r <= q { MulMonotone(r, q, n, n); }
    MulMonotone(q + 1, r, n, n);
    assert (q + 1) * n == a + n;
  }

  lemma PreviousSlot(i: nat, n: nat)
    requires n > 0 && i > 0 && i / n != (i - 1) / n
    ensures i % n == 0
  {
    Split(i, n);
    if i % n > 0 { DivModUnique(i / n, n, i % n - 1); }
  }

  lemma WithinRun(a: nat, n: nat, i: nat)
    requires n > 0 && a % n == 0 && a <= i < a + n
    ensures a / n == i / n
  {
    Split(a, n);
    DivModUnique(a / n, n, i - a);
  }

  lemma BeyondRun(a: nat, n: nat, i: nat)
    requires n > 0 && a % n == 0 && a + n <= i
    ensures a / n < i / n
  {
    var q, r := a / n, i / n;
    Split(a, n);
    Split(i, n);
    if r <= q {
      MulMonotone(r, q, n, n);
    }
  }

  // ---------- the walk

  /** A run cannot begin in the middle: the slot before would belong to it too. */
  lemma RunStarts(slots: seq<nat>, lens: seq<nat>, visits: seq<Visit>, index: nat)
    requires Extendible(slots, lens) && index < |slots|
    requires Tiles(visits, index) && Genuine(slots, lens, visits) && Aligned(visits, index)
    ensures index % lens[index] == 0
  {
    var len := lens[index];
    if index == 0 {
      DivModUnique(0, len, 0);
    } else {
      var t := visits[|visits| - 1];
      WithinRun(t.index, t.len, index - 1);
      assert SameRun(t.index, index - 1, lens[t.index]);
      BeyondRun(t.index, t.len, index);
      assert !SameRun(t.index, index, lens[t.index]);
      assert !SameRun(index, index - 1, lens[index]);
      PreviousSlot(index, len);
    }
  }

  lemma NextRun(slots: seq<nat>, lens: seq<nat>, visits: seq<Visit>, index: nat)
    requires Extendible(slots, lens) && index < |slots|
    requires Tiles(visits, index) && Genuine(slots, lens, visits) && Aligned(visits, index)
    ensures index + lens[index] <= |slots|
    ensures Aligned(visits + [Visit(index, lens[index], slots[index])], index + lens[index])
  {
    RunStarts(slots, lens, visits, index);
    MultiplesApart(index, |slots|, lens[index]);
  }

  lemma NoVisits(slots: seq<nat>, lens: seq<nat>)
    requires |slots| == |lens|
    ensures Tiles([], 0) && Genuine(slots, lens, []) && Aligned([], 0)
  {
  }

  lemma AddVisit(slots: seq<nat>, lens: seq<nat>, visits: seq<Visit>, index: nat)
    requires |slots| == |lens| && index < |slots| && lens[index] > 0
    requires Tiles(visits, index) && Genuine(slots, lens, visits)
    ensures var r := visits + [Visit(index, lens[index], slots[index])];
            Tiles(r, index + lens[index]) && Genuine(slots, lens, r)
  {
  }

  lemma {:induction false} TilesCover(visits: seq<Visit>, upto: nat, i: nat) returns (k: nat)
    requires Tiles(visits, upto) && i < upto
    ensures k < |visits| && Covers(visits[k], i)
    decreases |visits|
  {
    k := |visits| - 1;
    if i < visits[k].index {
      k := TilesCover(visits[..k], visits[k].index, i);
    }
  }

  lemma {:induction false} TilesOrdered(visits: seq<Visit>, upto: nat, k: nat, l: nat)
    requires Tiles(visits, upto) && k < l < |visits|
    ensures visits[k].index + visits[k].len <= visits[l].index
    decreases l - k
  {
    if k + 1 < l { TilesOrdered(visits, upto, k, l - 1); }
  }

  /** A complete walk of an extendible table visits each leaf once, for exactly its slots. */
  lemma AllOnce(slots: seq<nat>, lens: seq<nat>, visits: seq<Visit>)
    requires Extendible(slots, lens)
    requires Tiles(visits, |slots|) && Genuine(slots, lens, visits) && Aligned(visits, |slots|)
    ensures OncePerLeaf(slots, visits)
  {
    forall k, i | 0 <= k < |visits| && 0 <= i < |slots| && Covers(visits[k], i)
      ensures slots[i] == visits[k].leaf
    {
      WithinRun(visits[k].index, visits[k].len, i);
      assert SameRun(visits[k].index, i, lens[visits[k].index]);
    }
    forall i | 0 <= i < |slots|
      ensures slots[i] in set k | 0 <= k < |visits| :: visits[k].leaf
    {
      var k := TilesCover(visits, |slots|, i);
    }
    forall k, l | 0 <= k < l < |visits|
      ensures visits[k].leaf != visits[l].leaf
    {
      TilesOrdered(visits, |slots|, k, l);
      BeyondRun(visits[k].index, visits[k].len, visits[l].index);
      assert !SameRun(visits[k].index, visits[l].index, lens[visits[k].index]);
    }
  }
}
