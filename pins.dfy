/**
 The memory list: frozen conversion records the user pins, at most three,
 removed only by index.
 */
module Pins {
  import opened Lists
  import opened Currencies

  /** The hard cap on pinned records. */
  const MaxSaved: nat := 3

  /**
   One pinned conversion, as it was when pinned: the base and its amount,
   the target, the converted amount and the cross rate used.
   */
  datatype SavedItem = SavedItem(base: Code, baseAmt: real, target: Code, targetAmt: real, rate: real)

  /** A record is consistent when its converted amount is its base amount times its rate. */
  predicate Consistent(item: SavedItem) {
    item.targetAmt == item.baseAmt * item.rate
  }

  /** The record `save_currency_direct` builds from the current base and amount. */
  function Snapshot(base: Code, baseAmt: real, target: Code, rate: real): (item: SavedItem)
    ensures Consistent(item)
    ensures item.base == base && item.baseAmt == baseAmt && item.target == target && item.rate == rate
  {
    SavedItem(base, baseAmt, target, baseAmt * rate, rate)
  }

  /**
   The memory list after pinning `item`. Pinning is capped: at the cap
   nothing changes; below it exactly one record is added at the end and the
   earlier ones are untouched; a list within the cap stays within it.
   */
  function Pin(items: seq<SavedItem>, item: SavedItem): (r: seq<SavedItem>)
    ensures |items| >= MaxSaved ==> r == items
    ensures |items| < MaxSaved ==> |r| == |items| + 1 && r[|items|] == item && r[..|items|] == items
    ensures |items| <= MaxSaved ==> |r| <= MaxSaved
  {
    if |items| >= MaxSaved then items else items + [item]
  }

  /** The memory list after pressing delete on slot `idx` (`delete_saved_item`). */
  function Delete(items: seq<SavedItem>, idx: int): seq<SavedItem> {
    PopAt(items, idx)
  }

  /**
   Deleting the record just pinned undoes the pin: below the cap, pinning
   and then deleting the last slot gives back the list as it was.
   */
  lemma DeleteUndoesPin(items: seq<SavedItem>, item: SavedItem)
    requires |items| < MaxSaved
    ensures Delete(Pin(items, item), |items|) == items
  {
    var r := Pin(items, item);
    assert r[..|items|] == items;
    assert r[|items| + 1..] == [];
  }
}
