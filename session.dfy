/**
 The per-session display state and the handlers that change it: choosing a
 base from the selector, swapping the base with a listed target, pinning a
 conversion and deleting a pinned one.
 */
module Session {
  import opened Lists
  import opened Currencies
  import opened Pins
  import opened View

  class DisplayState {
    /** The currency held (`base_currency`). */
    var baseCurrency: Code
    /** The amount held (`input_amount`). */
    var inputAmount: real
    /** The target currencies, in display order (`display_order`). */
    var displayOrder: seq<Code>
    /** The pinned conversions, oldest first (`saved_items`). */
    var savedItems: seq<SavedItem>

    /** The display list has no duplicates and never lists the base. */
    ghost predicate OrderValid()
      reads this
    {
      Distinct(displayOrder) && baseCurrency !in displayOrder
    }

    /** The memory list is within its cap and every record is consistent. */
    ghost predicate MemoryValid()
      reads this
    {
      |savedItems| <= MaxSaved && forall k :: 0 <= k < |savedItems| ==> Consistent(savedItems[k])
    }

    ghost predicate Valid()
      reads this
    {
      OrderValid() && MemoryValid() && inputAmount >= 0.0
    }

    /** The state a new session starts in. */
    constructor ()
      ensures Valid()
      ensures baseCurrency == InitialBase && inputAmount == 1000.0
      ensures displayOrder == ResetOrder(InitialBase) && savedItems == []
    {
      baseCurrency := InitialBase;
      inputAmount := 1000.0;
      displayOrder := ResetOrder(InitialBase);
      savedItems := [];
      ResetOrderShape(InitialBase);
    }

    /** The amount field: the widget accepts no value below zero. */
    method SetAmount(amount: real)
      requires Valid() && amount >= 0.0
      modifies this
      ensures Valid()
      ensures inputAmount == amount
      ensures baseCurrency == old(baseCurrency) && displayOrder == old(displayOrder)
      ensures savedItems == old(savedItems)
    {
      inputAmount := amount;
    }

    /**
     The selector's callback: the display list is rebuilt from the template
     for the base now selected, whatever order it had before.
     */
    method OnDropdownChange()
      modifies this
      ensures OrderValid()
      ensures displayOrder == ResetOrder(baseCurrency)
      ensures baseCurrency == old(baseCurrency) && inputAmount == old(inputAmount)
      ensures savedItems == old(savedItems)
    {
      var newOrder := ResetOrder(baseCurrency);
      assert Distinct(newOrder) && baseCurrency !in newOrder by {
        ResetOrderShape(baseCurrency);
      }
      displayOrder := newOrder;
    }

    /**
     Choosing `newBase` in the selector. The callback runs only when the
     choice differs from the current base: then the widget stores it and the
     list is reset; choosing the current base again keeps the list as it is,
     a custom order from earlier swaps included.
     */
    method SelectBase(newBase: Code)
      requires Valid()
      modifies this
      ensures Valid()
      ensures baseCurrency == newBase
      ensures newBase != old(baseCurrency) ==> displayOrder == ResetOrder(newBase)
      ensures newBase == old(baseCurrency) ==> displayOrder == old(displayOrder)
      ensures inputAmount == old(inputAmount) && savedItems == old(savedItems)
    {
      if newBase != baseCurrency {
        baseCurrency := newBase;
        OnDropdownChange();
      }
    }

    /**
     The swap button of a row: the first slot holding `target` takes the old
     base, and `target` becomes the base. No currency is gained or lost when
     the target was listed, and the display invariant is kept.
     */
    method SwapCurrency(target: Code)
      requires Valid()
      modifies this
      ensures Valid()
      ensures baseCurrency == target
      ensures displayOrder == SwapInto(old(displayOrder), old(baseCurrency), target)
      ensures target in old(displayOrder) ==>
        multiset{baseCurrency} + multiset(displayOrder) == multiset{old(baseCurrency)} + multiset(old(displayOrder))
      ensures inputAmount == old(inputAmount) && savedItems == old(savedItems)
    {
      var oldBase := baseCurrency;
      var currentList := displayOrder;
      if target in currentList {
        var idx := IndexOf(currentList, target);
        currentList := currentList[idx := oldBase];
      }
      displayOrder := currentList;
      baseCurrency := target;
      SwapKeepsInvariant(old(displayOrder), oldBase, target);
    }

    /**
     The pin button of a row: below the cap, a frozen record of the current
     base, amount, `target` and `rate` is appended; at the cap nothing
     changes and `saved` is false (the user is only notified).
     */
    method SaveCurrency(target: Code, rate: real) returns (saved: bool)
      requires Valid()
      modifies this
      ensures Valid()
      ensures saved <==> |old(savedItems)| < MaxSaved
      ensures savedItems == Pin(old(savedItems), Snapshot(baseCurrency, inputAmount, target, rate))
      ensures baseCurrency == old(baseCurrency) && inputAmount == old(inputAmount)
      ensures displayOrder == old(displayOrder)
    {
      if |savedItems| >= MaxSaved {
        return false;
      }
      var baseAmt := inputAmount;
      var targetAmt := baseAmt * rate;
      var base := baseCurrency;
      var newItem := SavedItem(base, baseAmt, target, targetAmt, rate);
      assert newItem == Snapshot(base, baseAmt, target, rate);
      savedItems := savedItems + [newItem];
      saved := true;
    }

    /** The delete button of a pinned record: slot `index` is removed if it exists. */
    method DeleteSavedItem(index: int)
      requires Valid()
      modifies this
      ensures Valid()
      ensures savedItems == Delete(old(savedItems), index)
      ensures baseCurrency == old(baseCurrency) && inputAmount == old(inputAmount)
      ensures displayOrder == old(displayOrder)
    {
      if 0 <= index < |savedItems| {
        savedItems := savedItems[..index] + savedItems[index + 1..];
      }
    }

    /**
     The live list for the current state and a rate snapshot; the base
     itself never appears as a row.
     */
    method LiveRows(rates: Rates) returns (rows: seq<Row>)
      requires Valid() && PositiveRates(rates)
      ensures rows == Conversions(displayOrder, baseCurrency, inputAmount, rates)
      ensures forall k :: 0 <= k < |rows| ==> rows[k].code != baseCurrency
    {
      rows := ComputeView(displayOrder, baseCurrency, inputAmount, rates);
    }
  }

  /**
   Pinning a live row freezes exactly what the row shows: the record's
   target and converted amount are the row's code and converted amount.
   */
  lemma PinnedRowMatchesView(order: seq<Code>, base: Code, amount: real, rates: Rates, k: nat)
    requires PositiveRates(rates) && k < |Conversions(order, base, amount, rates)|
    ensures var row := Conversions(order, base, amount, rates)[k];
      var item := Snapshot(base, amount, row.code, row.cross);
      item.target == row.code && item.targetAmt == row.converted && item.baseAmt == amount
  {
  }

  /**
   A pinned record outlives a change of base: pin USD at rate 0.031 from the
   starting state, then select USD as the base; the record still reads
   TWD 1000 to USD 31 while the display list is reset for USD.
   */
  method PinSurvivesReselect() returns (item: SavedItem, order: seq<Code>)
    ensures item == SavedItem("TWD", 1000.0, "USD", 31.0, 0.031)
    ensures order == ResetOrder("USD")
  {
    var state := new DisplayState();
    var saved := state.SaveCurrency("USD", 0.031);
    state.SelectBase("USD");
    item := state.savedItems[0];
    order := state.displayOrder;
  }

  /**
   Re-choosing the base a swap just set keeps the swapped order: swap with
   `target`, then pick `target` in the selector; the list is still the
   swapped one, not the reset order for `target`.
   */
  method SwapThenReselect(state: DisplayState, target: Code)
    requires state.Valid()
    modifies state
    ensures state.Valid() && state.baseCurrency == target
    ensures state.displayOrder == SwapInto(old(state.displayOrder), old(state.baseCurrency), target)
  {
    state.SwapCurrency(target);
    state.SelectBase(target);
  }

  /**
   Swapping JPY into a list [USD, JPY] with base TWD gives [USD, TWD] with
   base JPY; swapping back restores the list.
   */
  lemma SwapScenario()
    ensures SwapInto(["USD", "JPY"], "TWD", "JPY") == ["USD", "TWD"]
    ensures SwapInto(["USD", "TWD"], "JPY", "TWD") == ["USD", "JPY"]
  {
    assert IndexOf(["USD", "JPY"], "JPY") == 1;
    assert IndexOf(["USD", "TWD"], "TWD") == 1;
  }
}
