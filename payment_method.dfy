/**
 * The decision rule of `parse_payment_method_paste` and `parse_payment_method_html`
 * (app/parsers/tender_feature_parsers/payment_features/method.py). Both variants differ only in
 * the page selectors, so the rule is stated once over what the selectors found: the text of a
 * direct "payment method" field, if any, and the text of a "payment conditions" field, if any.
 */
module PaymentMethod {
  import opened Wrappers
  import opened Text

  const Advance: string := "С авансированием"
  const Prepayment: string := "С предоплатой"
  const OnDelivery: string := "По факту поставки"
  const Cashless: string := "Безналичный расчет"
  /** The label returned when no field settles the method. */
  const Default: string := Cashless

  predicate IsLabel(s: string) {
    s == Advance || s == Prepayment || s == OnDelivery || s == Cashless
  }

  /** The keyword chain over the stripped, lower-cased conditions text. */
  function ClassifyConditions(text: string): (r: Option<string>)
    ensures r.Some? ==> IsLabel(r.value)
    ensures r == Some(Advance) <==> Contains(text, "аванс")
    ensures r == Some(Prepayment) <==> !Contains(text, "аванс") && Contains(text, "предоплат")
    ensures r == Some(OnDelivery) <==>
      && !Contains(text, "аванс") && !Contains(text, "предоплат")
      && (Contains(text, "по факту") || Contains(text, "после поставки"))
    ensures r.None? <==>
      && !Contains(text, "аванс") && !Contains(text, "предоплат")
      && !Contains(text, "по факту") && !Contains(text, "после поставки")
      && !Contains(text, "безналичн")
  {
    if Contains(text, "аванс") then Some(Advance)
    else if Contains(text, "предоплат") then Some(Prepayment)
    else if Contains(text, "по факту") || Contains(text, "после поставки") then Some(OnDelivery)
    else if Contains(text, "безналичн") then Some(Cashless)
    else None
  }

  /**
   * The payment method: the direct field's text, stripped, when that field exists; otherwise the
   * label the conditions text selects; otherwise the default.
   */
  function ParsePaymentMethod(direct: Option<string>, conditions: Option<string>): (r: string)
    ensures direct.Some? ==> r == Strip(direct.value)
    ensures direct.None? ==> IsLabel(r)
    ensures direct.None? && conditions.None? ==> r == Default
    ensures direct.None? && conditions.Some? ==>
      r == ClassifyConditions(Lower(Strip(conditions.value))).GetOr(Default)
  {
    if direct.Some? then Strip(direct.value)
    else if conditions.Some? then
      match ClassifyConditions(Lower(Strip(conditions.value)))
      case Some(l) => l
      case None => Default
    else Default
  }

  /** The keyword test ignores letter case: an upper-case "АВАНС" selects the advance label. */
  lemma UpperCaseAdvance(conditions: string)
    requires Contains(Strip(conditions), "АВАНС")
    ensures ParsePaymentMethod(None, Some(conditions)) == Advance
  {
    var t := Strip(conditions);
    var i: nat :| i <= |t| && OccursAt(t, "АВАНС", i);
    LowerSlice(t, i, i + 5);
    assert Lower("АВАНС") == "аванс";
    assert OccursAt(Lower(t), "аванс", i);
  }
}
