/**
 * scratch/dsme-beacon-slot-selection-random-pick.cc: every joining coordinator draws a beacon slot from the
 * slots that are still free. The random draws are a sequence of indices, one for each coordinator.
 */
module SlotPick {

  /** The slots from 1 on; slot 0 belongs to the PAN coordinator. */
  function AllFree(totalSlots: nat): (free: seq<nat>)
    ensures |free| == (if totalSlots > 0 then totalSlots - 1 else 0) && forall i :: 0 <= i < |free| ==> free[i] == i + 1
  {
    if totalSlots <= 1 then [] else AllFree(totalSlots - 1) + [totalSlots - 1]
  }

  function Erase(free: seq<nat>, k: nat): seq<nat>
    requires k < |free|
  {
    free[..k] + free[k + 1..]
  }

  /** Every draw is an index into the slots that are free at that moment. */
  predicate ValidDraws(n: nat, draws: seq<nat>) {
    draws == [] || (draws[0] < n && ValidDraws(n - 1, draws[1..]))
  }

  function Picked(free: seq<nat>, draws: seq<nat>): (picked: seq<nat>)
    requires ValidDraws(|free|, draws)
    ensures |picked| == |draws|
    decreases |draws|
  {
    if draws == [] then [] else [free[draws[0]]] + Picked(Erase(free, draws[0]), draws[1..])
  }

  function StillFree(free: seq<nat>, draws: seq<nat>): seq<nat>
    requires ValidDraws(|free|, draws)
    decreases |draws|
  {
    if draws == [] then free else StillFree(Erase(free, draws[0]), draws[1..])
  }

  ghost predicate Distinct(xs: seq<nat>) {
    forall i, j :: 0 <= i < j < |xs| ==> xs[i] != xs[j]
  }

  lemma Erased(free: seq<nat>, k: nat)
    requires Distinct(free) && k < |free|
    ensures Distinct(Erase(free, k))
    ensures forall s :: s in Erase(free, k) <==> s in free && s != free[k]
  {
    forall s | s in free && s != free[k]
      ensures s in Erase(free, k)
    {
      var i :| 0 <= i < |free| && free[i] == s;
      assert Erase(free, k)[if i < k then i else i - 1] == s;
    }
  }

  /** Picking moves slots from the free ones to the picked ones: none is lost, none duplicated. */
  lemma {:induction false} PickingPartitions(free: seq<nat>, draws: seq<nat>)
    requires Distinct(free) && ValidDraws(|free|, draws)
    ensures Distinct(Picked(free, draws) + StillFree(free, draws))
    ensures forall s :: s in free <==> s in Picked(free, draws) + StillFree(free, draws)
    decreases |draws|
  {
    if draws != [] {
      var k := draws[0];
      var rest := Picked(Erase(free, k), draws[1..]) + StillFree(free, draws);
      Erased(free, k);
      PickingPartitions(Erase(free, k), draws[1..]);
      assert Picked(free, draws) + StillFree(free, draws) == [free[k]] + rest;
      assert forall i :: 0 <= i < |rest| ==> rest[i] in Erase(free, k);
    } else {
      assert Picked(free, draws) + StillFree(free, draws) == free;
    }
  }

  /** Whatever is drawn, no two coordinators share a slot, none gets slot 0, and the rest stay free. */
  lemma PickedSlots(totalSlots: nat, draws: seq<nat>)
    requires ValidDraws(|AllFree(totalSlots)|, draws)
    ensures var picked, free := Picked(AllFree(totalSlots), draws), StillFree(AllFree(totalSlots), draws);
            && Distinct(picked + free)
            && forall s :: 1 <= s < totalSlots <==> s in picked + free
  {
    var all := AllFree(totalSlots);
    PickingPartitions(all, draws);
    forall s | 1 <= s < totalSlots
      ensures s in all
    {
      assert all[s - 1] == s;
    }
  }

  ghost predicate Ascending(xs: seq<nat>) {
    forall i, j :: 0 <= i < j < |xs| ==> xs[i] < xs[j]
  }

  /** The slots below `slot`, apart from those in `taken`. */
  ghost function Below(free: seq<nat>, slot: nat, taken: seq<nat>): set<nat> {
    set s | s in free && s < slot && s !in taken
  }

  lemma {:induction false} RankIs(free: seq<nat>, k: nat)
    requires Ascending(free) && k < |free|
    ensures |Below(free, free[k], [])| == k
  {
    if k == 0 {
      assert Below(free, free[0], []) == {};
    } else {
      RankIs(free, k - 1);
      assert Below(free, free[k], []) == Below(free, free[k - 1], []) + {free[k - 1]};
    }
  }

  /** A draw is the rank of the slot that it picks, among the slots that are free then. */
  lemma {:induction false} DrawIsRank(free: seq<nat>, draws: seq<nat>, j: nat)
    requires Ascending(free) && ValidDraws(|free|, draws) && j < |draws|
    ensures var picked := Picked(free, draws);
            |Below(free, picked[j], picked[..j])| == draws[j]
    decreases j
  {
    var picked := Picked(free, draws);
    if j == 0 {
      RankIs(free, draws[0]);
      assert picked[..0] == [];
    } else {
      var rest := Picked(Erase(free, draws[0]), draws[1..]);
      Erased(free, draws[0]);
      DrawIsRank(Erase(free, draws[0]), draws[1..], j - 1);
      assert picked[..j] == [free[draws[0]]] + rest[..j - 1];
      assert Below(free, picked[j], picked[..j]) == Below(Erase(free, draws[0]), rest[j - 1], rest[..j - 1]);
    }
  }

  /** Coordinator j gets the slot that has as many free slots below it, from 1 on, as its draw says. */
  lemma PickedByRank(totalSlots: nat, draws: seq<nat>, j: nat)
    requires ValidDraws(|AllFree(totalSlots)|, draws) && j < |draws|
    ensures var picked := Picked(AllFree(totalSlots), draws);
            |set s: nat | 1 <= s < picked[j] && s !in picked[..j]| == draws[j]
  {
    var all := AllFree(totalSlots);
    var picked := Picked(all, draws);
    DrawIsRank(all, draws, j);
    PickedSlots(totalSlots, draws);
    assert picked[j] in picked + StillFree(all, draws);
    forall s: nat
      ensures s in all <==> 1 <= s < totalSlots
    {
      if 1 <= s < totalSlots {
        assert all[s - 1] == s;
      }
    }
    assert Below(all, picked[j], picked[..j]) == set s: nat | 1 <= s < picked[j] && s !in picked[..j];
  }

  /** Conversely, every assignment of different slots comes from some draws. */
  lemma {:induction false} EveryAssignmentDrawn(free: seq<nat>, wanted: seq<nat>) returns (draws: seq<nat>)
    requires Distinct(wanted) && forall s :: s in wanted ==> s in free
    ensures ValidDraws(|free|, draws) && Picked(free, draws) == wanted
    decreases |wanted|
  {
    if wanted == [] {
      draws := [];
    } else {
      assert wanted[0] in free;
      var k :| 0 <= k < |free| && free[k] == wanted[0];
      var rest := wanted[1..];
      forall s | s in rest
        ensures s in Erase(free, k)
      {
        var j :| 0 <= j < |rest| && rest[j] == s;
        assert wanted[0] != wanted[j + 1] && wanted[j + 1] in free;
        var i :| 0 <= i < |free| && free[i] == s;
        assert Erase(free, k)[if i < k then i else i - 1] == s;
      }
      assert forall i, j :: 0 <= i < j < |rest| ==> rest[i] == wanted[i + 1] && rest[j] == wanted[j + 1];
      var more := EveryAssignmentDrawn(Erase(free, k), rest);
      draws := [k] + more;
      assert draws[1..] == more;
    }
  }

  /** An assignment can come out of the program if and only if it is one to one and avoids slot 0. */
  lemma PossibleIff(totalSlots: nat, wanted: seq<nat>)
    ensures var free := AllFree(totalSlots);
            (exists draws :: ValidDraws(|free|, draws) && Picked(free, draws) == wanted) <==>
            Distinct(wanted) && forall s :: s in wanted ==> 1 <= s < totalSlots
  {
    if draws :| ValidDraws(|AllFree(totalSlots)|, draws) && Picked(AllFree(totalSlots), draws) == wanted {
      PickedSlots(totalSlots, draws);
      var free := StillFree(AllFree(totalSlots), draws);
      forall i, j | 0 <= i < j < |wanted|
        ensures wanted[i] != wanted[j]
      {
        assert (wanted + free)[i] != (wanted + free)[j];
      }
      assert forall s :: s in wanted ==> s in wanted + free;
    }
    if Distinct(wanted) && forall s :: s in wanted ==> 1 <= s < totalSlots {
      forall s | s in wanted
        ensures s in AllFree(totalSlots)
      {
        assert AllFree(totalSlots)[s - 1] == s;
      }
      var draws := EveryAssignmentDrawn(AllFree(totalSlots), wanted);
    }
  }

  /** The program: fills the list of free slots, then picks and erases once for each joining coordinator. */
  method PickSlots(totalSlots: nat, draws: seq<nat>) returns (picked: seq<nat>, freeSlots: seq<nat>)
    requires ValidDraws(|AllFree(totalSlots)|, draws)
    ensures picked == Picked(AllFree(totalSlots), draws)
    ensures freeSlots == StillFree(AllFree(totalSlots), draws)
  {
    freeSlots := [];
    var s := 1;
    while s < totalSlots
      invariant 1 <= s && (s <= totalSlots || (s == 1 && totalSlots == 0))
      invariant freeSlots == AllFree(s)
    {
      freeSlots := freeSlots + [s];
      s := s + 1;
    }
    assert freeSlots == AllFree(totalSlots);
    picked := [];
    ghost var left := draws;
    for i := 0 to |draws|
      invariant left == draws[i..] && ValidDraws(|freeSlots|, left)
      invariant picked + Picked(freeSlots, left) == Picked(AllFree(totalSlots), draws)
      invariant StillFree(freeSlots, left) == StillFree(AllFree(totalSlots), draws)
    {
      var idx := draws[i];
      assert left[0] == idx;
      picked := picked + [freeSlots[idx]];
      freeSlots := freeSlots[..idx] + freeSlots[idx + 1..];
      left := left[1..];
    }
  }
}
