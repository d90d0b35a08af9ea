# Multi-currency exchange: display-state model

This project models the state logic of a single-page currency converter in
Dafny. The user holds an amount of a base currency. The page lists converted
amounts for a fixed set of other currencies. Any row can be pinned to a
three-slot memory list or swapped with the base.

The model covers:

- the session state (`base_currency`, `input_amount`, `display_order`,
  `saved_items`) and how it is initialised;
- the four handlers that change it: choose a base from the selector, swap
  the base with a row, pin a row, delete a pinned record;
- the live conversion list: cross rate, converted amount, rows skipped for
  lack of a rate;
- the rules that pick how many decimals a live row or a pinned record shows.

Modules:

- `Lists` (`lists.dfy`): the three Python list idioms the handlers use. These
  are the filtering comprehension, `list.index` and `list.pop`. Each is stated
  over sequences with its properties: distinctness is kept, the filter is
  idempotent, in a list without duplicates the filter equals removing one slot,
  the first occurrence is unique, and pop keeps the relative order.
- `Currencies` (`currencies.dfy`): currency codes and the template order. It
  defines the reset of the display list (`ResetOrder`) and the in-place swap
  (`SwapInto`), with the invariant the swap keeps and the proof that swapping
  back undoes it.
- `Pins` (`pins.dfy`): the frozen pinned record, the cap of three, and delete.
- `View` (`view.dfy`): rate snapshots, the live rows, the loop that builds them
  (`ComputeView`, proved equal to `Conversions`), and the decimal rules.
- `Session` (`session.dfy`): the class `DisplayState`. It holds the four
  session fields and has one method per handler. Each method keeps the
  invariant `Valid()`: the display list has no duplicates and never lists the
  base, there are at most three pinned records, every record's converted amount
  equals its base amount times its rate, and the amount is not negative.

Amounts and rates are `real`. A rate snapshot is a `map<string, real>`.
The model assumes every rate in it is positive (`PositiveRates`), because
the conversion loop divides by the base's rate. The code does not check this
itself (see "## Left out").

A base currency missing from the snapshot is taken at rate 1
(`rates.get(base_curr, 1)`, line 370). Every displayed code that has a rate
still gets its row. `BaseRate` and `Conversions` model this.

## Model

| member | source | states |
|---|---|---|
| `Lists.Without` | multi_currency_exchange.py:259 | the filtered list holds exactly the elements of the input other than the dropped one, and is no longer than the input |
| `Lists.WithoutDistinct` | multi_currency_exchange.py:259 | filtering a list without duplicates yields a list without duplicates |
| `Lists.WithoutMultiset` | multi_currency_exchange.py:259 | the filter keeps every other element exactly as often as it occurs and drops every occurrence of the code |
| `Lists.WithoutConcat` | multi_currency_exchange.py:259 | filtering a concatenation is concatenating the filtered parts, so the filter keeps relative order |
| `Lists.WithoutIdempotent` | multi_currency_exchange.py:275 | filtering a second time by the same code changes nothing |
| `Lists.WithoutAbsent` | multi_currency_exchange.py:275 | filtering out a code the list does not hold returns the list unchanged |
| `Lists.WithoutAt` | multi_currency_exchange.py:259 | in a list without duplicates, filtering out the element at slot k equals removing slot k, so the others keep their order and the length drops by one |
| `Lists.IndexOf` | multi_currency_exchange.py:268 | `list.index` returns a slot holding the element with no earlier occurrence |
| `Lists.IndexOfUnique` | multi_currency_exchange.py:268 | that first-occurrence slot is unique |
| `Lists.PopAt` | multi_currency_exchange.py:296-298 | for an index in range, one slot is removed: the length drops by one, earlier entries stay, later ones shift down by one, and the multiset loses exactly that entry; any other index leaves the list unchanged |
| `Currencies.TemplateDistinct` | multi_currency_exchange.py:231 | the template lists each of the ten currencies once |
| `Currencies.FilterShape` | multi_currency_exchange.py:259 | filtering a duplicate-free list by a code drops the code, keeps distinctness, and equals removing that code's slot, or changes nothing if the code is absent |
| `Currencies.ResetOrderShape` | multi_currency_exchange.py:273-276 | the reset order never holds the base and has no duplicates; for a supported base it is the template with that one slot removed, in template order; for any other base it is the whole template |
| `Currencies.InitialOrder` | multi_currency_exchange.py:253-259 | the starting display list is the template without TWD: USD, VND, JPY, EUR, CNY, KRW, HKD, AUD, GBP |
| `Currencies.ResetIdempotent` | multi_currency_exchange.py:273-276 | filtering the reset order again by the base changes nothing |
| `Currencies.SwapInto` | multi_currency_exchange.py:264-271 | the length is kept; if the target is listed, its first slot now holds the old base and every other slot is unchanged; if not, the list is unchanged |
| `Currencies.SwapKeepsInvariant` | multi_currency_exchange.py:264-271 | given a list without duplicates and without the old base, the swapped list has no duplicates and does not hold the new base; if the target was listed, base plus list is the same multiset before and after |
| `Currencies.SwapInvolution` | multi_currency_exchange.py:264-271 | swapping back (new base with old base) restores the original list |
| `Pins.Snapshot` | multi_currency_exchange.py:283-293 | the record holds the given base, amount, target and rate, and its converted amount is the amount times the rate |
| `Pins.Pin` | multi_currency_exchange.py:278-294 | at three or more records nothing changes; below that exactly one record is appended and earlier records are untouched; a list within the cap stays within it |
| `Pins.DeleteUndoesPin` | multi_currency_exchange.py:278-298 | below the cap, deleting the slot just pinned gives back the list as it was before the pin |
| `View.BaseRate` | multi_currency_exchange.py:370 | the base's rate, with 1 for a base missing from the snapshot, is positive, so the division is defined |
| `View.LiveDecimals` | multi_currency_exchange.py:423-425 | a live row has 0 decimals exactly for VND, KRW and JPY; otherwise 2 below 10,000 and 1 from 10,000 on |
| `View.SavedBaseDecimals` | multi_currency_exchange.py:337-339 | a pinned base amount has 0 decimals exactly when it is whole and at least 10,000, otherwise 2 |
| `View.SavedTargetDecimals` | multi_currency_exchange.py:341-343 | a pinned converted amount has 0 decimals exactly for VND, JPY and KRW or from 10,000 on, otherwise 2 |
| `View.SavedAndLiveDecimals` | multi_currency_exchange.py:341-343 | for the same currency and amount, a pinned record never shows more decimals than the live row; the two agree exactly for VND, KRW, JPY or below 10,000 |
| `View.Conversions` | multi_currency_exchange.py:370-378 | there are no more rows than displayed codes; each row's code is displayed and has a rate; cross rate times base rate is the code's rate; converted is amount times cross; the decimals follow the live rule |
| `View.ConvertibleMembers` | multi_currency_exchange.py:372-374 | a code is convertible exactly when it is displayed and has a rate |
| `View.ConvertibleAppend` | multi_currency_exchange.py:372-374 | the convertible codes of a list extended by one code are those of the list, followed by that code if it has a rate |
| `View.ConversionsFollowOrder` | multi_currency_exchange.py:372-374 | the row codes are exactly the displayed codes that have a rate, in display order |
| `View.ConversionsStep` | multi_currency_exchange.py:372-378 | one more displayed code adds its row at the end when it has a rate, and nothing otherwise |
| `View.ComputeView` | multi_currency_exchange.py:367-378 | the loop over the display order that skips codes without a rate builds exactly `Conversions` |
| `View.SampleConvertible` | multi_currency_exchange.py:372-374 | with rates for TWD, USD and JPY only, the convertible codes of the starting list are USD then JPY |
| `View.SampleRows` | multi_currency_exchange.py:370-378 | for the starting display list, base TWD, any amount and rates TWD 1, USD 0.031, JPY 4.5, there are exactly two rows: USD at cross 0.031 and JPY at cross 4.5 with 0 decimals, each converted amount being the amount times the cross rate |
| `Session.DisplayState.constructor` | multi_currency_exchange.py:253-261 | a new session has base TWD, amount 1000, the reset order for TWD and no pinned records, and satisfies the invariant |
| `Session.DisplayState.SetAmount` | multi_currency_exchange.py:318-324 | entering a non-negative amount changes only the amount and keeps the invariant |
| `Session.DisplayState.OnDropdownChange` | multi_currency_exchange.py:273-276 | the display list becomes the reset order for the current base, whatever it was before; the base no longer appears and there are no duplicates; base, amount and pinned records are unchanged |
| `Session.DisplayState.SelectBase` | multi_currency_exchange.py:307-316 | choosing a base stores it; the list is reset for it only when it differs from the current base (the selector's `on_change` at line 314 fires only on a change), otherwise the list is kept as it was; amount and pinned records are unchanged; the invariant is kept |
| `Session.DisplayState.SwapCurrency` | multi_currency_exchange.py:264-271 | the target becomes the base and the list becomes `SwapInto` of the old list; if the target was listed, base plus list is the same multiset; amount and pinned records are unchanged; the invariant is kept |
| `Session.DisplayState.SaveCurrency` | multi_currency_exchange.py:278-294 | the result is true exactly when fewer than three records are pinned; the records become `Pin` of the old ones with a snapshot of the current base and amount; nothing else changes; the invariant (at most three records) is kept |
| `Session.DisplayState.DeleteSavedItem` | multi_currency_exchange.py:296-298 | the records become `Delete` of the old ones at the index; nothing else changes; the invariant is kept |
| `Session.DisplayState.LiveRows` | multi_currency_exchange.py:367-378 | the page's rows for the current state are `Conversions` of its fields, and no row is the base |
| `Session.PinnedRowMatchesView` | multi_currency_exchange.py:386-393 | pinning a live row stores the row's code and its converted amount, computed from the current amount |
| `Session.PinSurvivesReselect` | multi_currency_exchange.py:273-294 | pin USD at 0.031 from the starting state and then select USD: the record still reads TWD 1000 to USD 31 at rate 0.031, and the list is the reset order for USD |
| `Session.SwapThenReselect` | multi_currency_exchange.py:264-276 | swapping with a target and then choosing that target in the selector leaves the swapped list in place, not the reset order |
| `Session.SwapScenario` | multi_currency_exchange.py:264-271 | swapping JPY in [USD, JPY] with base TWD gives [USD, TWD], and swapping TWD back gives [USD, JPY] |

## Left out

- Page styling and layout (lines 6-212 and the rendering in 300-437): presentation only.
- Fetching the rates (`get_rates_data`, lines 215-228): an HTTP request, a five-minute cache and an error banner. The model takes the snapshot as a parameter. A failed fetch stops the script at line 228. The session initialisation (253-261) and the view loop (367-378) come after that line, so they do not run. A widget callback (swap, pin, delete, selector) still runs before the stopped rerun.
- Streamlit's own widget-state handling: keys of widgets a run does not render may be dropped. After a stopped run, this can reset `base_currency` and `input_amount` but not `display_order`. The model keeps all four fields across runs.
- Positive rates: the model requires every rate to be positive. The source does not check this. A zero base rate would raise a division error at line 377. A zero or negative target rate would still be shown as a row.
- The toast at the cap (line 280) and the error banner (line 223): user notices. The cap case is modelled as no change plus a `false` result.
- Floating-point behaviour of the division and multiplication: amounts and rates are exact reals, so no claim is made about rounding.
- The string formatting `"{:,.Nf}"` (thousands separators, rounding of the shown digits): only the number of decimals is modelled.
- `format_currency_label`, the name, flag and emoji tables and the flag image URLs (lines 233-250, 348, 408): static lookups for display.
- The selector's option list (line 308), restricted to codes with a rate: a widget constraint. `SelectBase` accepts any code.
- The Python list's aliasing: the swap handler mutates the list object held in the session in place. The model reassigns a sequence field, which gives the same final state.
