/**
 Currency codes and the two ways the list of target currencies is rebuilt:
 the reset to the canonical template when a base is chosen from the
 selector, and the in-place substitution when the base is swapped with one
 of the targets.
 */
module Currencies {
  import opened Lists

  /** An ISO 4217 style code such as "TWD"; any string is accepted. */
  type Code = string

  /** The canonical order of the supported currencies (`DEFAULT_ORDER_TEMPLATE`). */
  const Template: seq<Code> :=
    ["TWD", "USD", "VND", "JPY", "EUR", "CNY", "KRW", "HKD", "AUD", "GBP"]

  /** The base the session starts with. */
  const InitialBase: Code := "TWD"

  /** The template lists every currency once. */
  lemma TemplateDistinct()
    ensures Distinct(Template)
  {
  }

  /** The display order after choosing `base`: the template with `base` filtered out. */
  function ResetOrder(base: Code): seq<Code> {
    Without(Template, base)
  }

  /**
   The reset order never holds the base and has no duplicates; when the base
   is a supported currency it is exactly the template with that one slot
   removed, so the other nine keep their canonical order.
   */
  lemma ResetOrderShape(base: Code)
    ensures base !in ResetOrder(base)
    ensures Distinct(ResetOrder(base))
    ensures base !in Template ==> ResetOrder(base) == Template
    ensures base in Template ==>
      var k := IndexOf(Template, base);
      ResetOrder(base) == Template[..k] + Template[k + 1..] && |ResetOrder(base)| == |Template| - 1
  {
    TemplateDistinct();
    FilterShape(Template, base);
  }

  /** `ResetOrderShape` for any list without duplicates in place of the template. */
  lemma FilterShape(s: seq<Code>, base: Code)
    requires Distinct(s)
    ensures base !in Without(s, base)
    ensures Distinct(Without(s, base))
    ensures base !in s ==> Without(s, base) == s
    ensures base in s ==>
      var k := IndexOf(s, base);
      Without(s, base) == s[..k] + s[k + 1..] && |Without(s, base)| == |s| - 1
  {
    WithoutDistinct(s, base);
    if base in s {
      WithoutAt(s, IndexOf(s, base));
    } else {
      WithoutAbsent(s, base);
    }
  }

  /** The targets a new session lists. */
  const InitialTargets: seq<Code> := ["USD", "VND", "JPY", "EUR", "CNY", "KRW", "HKD", "AUD", "GBP"]

  /** The order the session starts with is the template without "TWD", in template order. */
  lemma InitialOrder()
    ensures ResetOrder(InitialBase) == InitialTargets
  {
    ResetOrderShape(InitialBase);
    assert IndexOf(Template, InitialBase) == 0;
  }

  /** Resetting for a base that is already filtered out changes nothing more. */
  lemma ResetIdempotent(base: Code)
    ensures Without(ResetOrder(base), base) == ResetOrder(base)
  {
    WithoutIdempotent(Template, base);
  }

  /**
   The display order after swapping `oldBase` with `target`: when the
   target is listed, its first slot now holds the old base; otherwise the
   list is left as it was.
   */
  function SwapInto(order: seq<Code>, oldBase: Code, target: Code): (r: seq<Code>)
    ensures |r| == |order|
    ensures target in order ==>
      r[IndexOf(order, target)] == oldBase &&
      forall j :: 0 <= j < |order| && j != IndexOf(order, target) ==> r[j] == order[j]
    ensures target !in order ==> r == order
  {
    if target in order then order[IndexOf(order, target) := oldBase] else order
  }

  /**
   Swapping keeps the display invariant: with no duplicates and the old base
   absent before, there are no duplicates and the new base (the target) is
   absent after. When the target was listed, no currency is gained or lost:
   the base together with the list is the same multiset before and after.
   */
  lemma SwapKeepsInvariant(order: seq<Code>, oldBase: Code, target: Code)
    requires Distinct(order) && oldBase !in order
    ensures var r := SwapInto(order, oldBase, target);
      Distinct(r) && target !in r &&
      (target in order ==> multiset{target} + multiset(r) == multiset{oldBase} + multiset(order))
  {
    var r := SwapInto(order, oldBase, target);
    if target in order {
      var i := IndexOf(order, target);
      forall a, b | 0 <= a < b < |r| ensures r[a] != r[b] {
        if a == i {
          assert r[b] == order[b];
        } else if b == i {
          assert r[a] == order[a];
        } else {
          assert r[a] == order[a] && r[b] == order[b];
        }
      }
      forall j | 0 <= j < |r| ensures r[j] != target {
        if j != i {
          assert r[j] == order[j] && order[i] == target;
        }
      }
      assert order == order[..i] + [target] + order[i + 1..];
      assert r == order[..i] + [oldBase] + order[i + 1..];
    }
  }

  /**
   Swapping back undoes a swap: after swapping `oldBase` with a listed
   `target`, swapping `target` with `oldBase` restores the original list.
   */
  lemma SwapInvolution(order: seq<Code>, oldBase: Code, target: Code)
    requires Distinct(order) && oldBase !in order && target in order
    ensures SwapInto(SwapInto(order, oldBase, target), target, oldBase) == order
  {
    var i := IndexOf(order, target);
    var r := SwapInto(order, oldBase, target);
    assert oldBase !in r[..i] by {
      forall j | 0 <= j < i ensures r[..i][j] != oldBase {
        assert r[..i][j] == order[j];
      }
    }
    IndexOfUnique(r, oldBase, i);
    assert r[i := target] == order;
  }
}
