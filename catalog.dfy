/**
 * The fixed category catalog and the rule that turns a menu answer into a
 * category: a digit string naming a position 1..7 of the catalog.
 */
module Catalog {
  import opened Wrappers
  import opened Text

  const CATEGORIES: seq<string> := ["Food", "Transport", "Bills", "Shopping", "Health", "Education", "Other"]

  /** A category is valid when the catalog lists it. */
  predicate IsCategory(c: string) {
    c in CATEGORIES
  }

  /**
   * The answer `choice` to the numbered category menu: accepted only when it
   * is a digit string whose value lies in 1..|CATEGORIES|, and then the entry
   * at that one-based position; anything else is no choice.
   */
  function ChooseByNumber(choice: string): (r: Option<string>)
    ensures r.Some? <==> IsDigits(choice) && 1 <= DecimalValue(choice) <= |CATEGORIES|
    ensures r.Some? ==> IsCategory(r.value) && r.value == CATEGORIES[DecimalValue(choice) - 1]
  {
    if IsDigits(choice) && 1 <= DecimalValue(choice) <= |CATEGORIES| then
      Some(CATEGORIES[DecimalValue(choice) - 1])
    else
      None
  }

  /** The number printed before the `i`-th entry (zero-based) of the menu. */
  function MenuLabel(i: nat): string
    requires i < |CATEGORIES|
  {
    ToDecimal(i + 1)
  }

  /** Typing the number the menu shows next to a category selects that category. */
  lemma MenuLabelSelects(i: nat)
    requires i < |CATEGORIES|
    ensures ChooseByNumber(MenuLabel(i)) == Some(CATEGORIES[i])
  {
    DecimalValueOfToDecimal(i + 1);
  }

  /** The catalog has no repeated entry, so the chosen category determines the number typed. */
  lemma ChoiceDeterminesNumber(choice: string, i: nat)
    requires i < |CATEGORIES|
    requires ChooseByNumber(choice) == Some(CATEGORIES[i])
    ensures DecimalValue(choice) == i + 1
  {
    var k := DecimalValue(choice) - 1;
    assert CATEGORIES[k] == CATEGORIES[i];
    assert forall a, b :: 0 <= a < b < |CATEGORIES| ==> CATEGORIES[a] != CATEGORIES[b];
  }
}
