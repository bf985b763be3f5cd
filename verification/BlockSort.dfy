/** BZ2_blockSort: the sorted rotations of a block and the row that is the block itself. */
module BlockSort {
  import opened Basics
  import opened Rotations
  import MainCompare
  import MainRadix
  import MainQSort
  import MainSimpleSort
  import Main = MainSort
  import GivingUp
  import Repetition
  import Fallback = FallbackSort

  const MAIN_SORT_MIN: nat := 10000

  /** The row of rotation 0; with it assertion 1003 never fails. */
  method FindOrigin(ptr: seq<nat>) returns (origPtr: int)
    requires IsPermutation(ptr, |ptr|) && ptr != []
    ensures 0 <= origPtr < |ptr| && ptr[origPtr] == 0
  {
    origPtr := -1;
    for i := 0 to |ptr|
      invariant origPtr == -1 && forall k :: 0 <= k < i ==> ptr[k] != 0
    {
      if ptr[i] == 0 {
        origPtr := i;
        break;
      }
    }
    PermutationIsOnto(ptr, |ptr|, 0);
    assert origPtr != -1;  // assertion 1003
  }

  /** The order by the fallback sorter. */
  method SortByFallback(block: seq<Byte>) returns (ptr: seq<nat>)
    requires 0 < |block| <= 900000
    ensures IsRotationOrder(block, ptr)
  {
    var nblock := |block|;
    var fmap := new nat[nblock];
    var eclass := new nat[nblock];
    var bytes := new Byte[nblock](i requires 0 <= i < |block| => block[i]);
    var bhtab := new bool[32 * (nblock / 32 + 3)];
    MainQSort.BlockFits();
    assert bytes[..nblock] == block;
    Fallback.FallbackSort(fmap, bytes, eclass, bhtab, nblock);
    ptr := fmap[..];
  }

  /** The block is at least 265 copies of a shorter one, of more than one byte value. */
  ghost predicate RepeatsOften(block: seq<Byte>) {
    Main.Varied(block) && exists k: nat :: Repetition.RepeatsWith(block, k) && |block| / k >= 265
  }

  /** The most that sorting takes off the budget: so much for a comparison, times so many. */
  ghost function MostSpent(block: seq<Byte>): nat { MainSimpleSort.Cost(block) * MainSimpleSort.Compares(|block|) }

  /** The budget that the work factor allows for n bytes. */
  function BudgetFor(n: nat, workFactor: int): nat {
    n * (((if workFactor < 1 then 1 else if workFactor > 100 then 100 else workFactor) - 1) / 3)
  }

  lemma BudgetIsAtMost(n: nat, k: nat)
    requires k <= 33
    ensures n * k <= 33 * n
  {
  }

  /** The order by the main sorter, unless it runs out of budget: never on a block in which no 22 bytes
      occur twice, and always on one that repeats a short one often. */
  method SortByMain(block: seq<Byte>, budget: int) returns (ptr: seq<nat>, left: int)
    requires MAIN_SORT_MIN <= |block| <= 900000 && budget >= 0
    ensures left >= 0 ==> IsRotationOrder(block, ptr)
    ensures !MainSimpleSort.Twice(block, 22) ==> left == budget
    ensures RepeatsOften(block) && budget <= 33 * |block| ==> left < 0
    ensures left < 0 ==> budget < MostSpent(block)
    ensures Main.Varied(block) && Main.AllTooMany(block, budget) ==> left < 0
  {
    var nblock := |block|;
    var size := nblock + MainCompare.BZ_N_OVERSHOOT;
    var start := if size % 2 == 1 then size + 1 else size;
    assert start + 2 * size <= 4 * size;  // the 16-bit quadrants fit behind the block in arr2
    var order := new nat[nblock];
    var bytes := new Byte[size](i => if 0 <= i < |block| then block[i] else 0);
    var quadrant := new nat[size];
    var ftab := new nat[MainRadix.PAIRS + 1];
    assert bytes[..nblock] == block;
    if RepeatsOften(block) && budget <= 33 * |block| {
      ghost var k: nat :| Repetition.RepeatsWith(block, k) && |block| / k >= 265;
      GivingUp.RepetitionIsTooMuch(block, k, budget);
    }
    left := Main.Sort(order, bytes, quadrant, ftab, nblock, budget);
    ptr := order[..];
  }

  /** Whether the main sorter's order is the one taken: on a short block it never is, on others always
      if no 22 bytes occur twice, and never if a short block is repeated often; and in general as
      the budget is enough for all comparisons, or not even for those of equal rotations. */
  ghost predicate TakenFromMain(block: seq<Byte>, workFactor: int, byMain: bool) {
    var budget := BudgetFor(|block|, workFactor);
    if |block| < 10000 then !byMain
    else
      && (!MainSimpleSort.Twice(block, 22) || budget >= MostSpent(block) ==> byMain)
      && (RepeatsOften(block) || (Main.Varied(block) && Main.AllTooMany(block, budget)) ==> !byMain)
  }

  /** Sorts the rotations of the block: short blocks by the fallback sorter, others by the main
      sorter first, within a budget set by the work factor. */
  method SortRotations(block: seq<Byte>, workFactor: int) returns (ptr: seq<nat>, ghost byMain: bool)
    requires 0 < |block| <= 900000
    ensures IsRotationOrder(block, ptr) && TakenFromMain(block, workFactor, byMain)
  {
    byMain := false;
    if |block| < MAIN_SORT_MIN {
      ptr := SortByFallback(block);
    } else {
      var wfact := workFactor;
      if wfact < 1 { wfact := 1; }
      if wfact > 100 { wfact := 100; }
      var budget := |block| * ((wfact - 1) / 3);
      BudgetIsAtMost(|block|, (wfact - 1) / 3);
      ptr, budget := SortByMain(block, budget);
      byMain := budget >= 0;
      if budget < 0 { ptr := SortByFallback(block); }
    }
  }

  method BlockSort(block: seq<Byte>, workFactor: int) returns (ptr: seq<nat>, origPtr: nat, ghost byMain: bool)
    requires 0 < |block| <= 900000
    ensures IsRotationOrder(block, ptr) && origPtr < |ptr| && ptr[origPtr] == 0
    ensures TakenFromMain(block, workFactor, byMain)
  {
    ptr, byMain := SortRotations(block, workFactor);
    origPtr := FindOrigin(ptr);
  }
}
