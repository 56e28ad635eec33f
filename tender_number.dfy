/**
 * The text post-processing of `get_tender_number`
 * (app/parsers/tender_feature_parsers/tender_features/tender_number.py): the notice number is
 * whatever follows the last `№` sign of the link text.
 */
module TenderNumber {
  import opened Wrappers
  import opened Text

  const NumberSign: char := '№'

  /**
   * The tender number taken from the link text: the last piece of splitting it at the sign,
   * stripped, or the whole text when it has no sign; `None` stands for a missing link element (and
   * for a failed page query), which gives the empty string.
   */
  function TenderNumberText(text: Option<string>): (r: string)
    ensures text.None? ==> r == []
    ensures text.Some? && NumberSign !in text.value ==> r == text.value
  {
    match text
    case None => []
    case Some(t) =>
      if NumberSign in t then
        var parts := Split(t, NumberSign);
        Strip(parts[|parts| - 1])
      else t
  }

  /** The number holds no sign. */
  lemma NumberHasNoSign(text: Option<string>)
    ensures NumberSign !in TenderNumberText(text)
  {
    if text.Some? && NumberSign in text.value {
      var parts := Split(text.value, NumberSign);
      StripDropsNoChar(parts[|parts| - 1], NumberSign);
    }
  }

  /** When the last sign is at `k`, the number is the stripped text after it. */
  lemma NumberAfterLastSign(t: string, k: nat)
    requires k < |t| && t[k] == NumberSign && forall j | k < j < |t| :: t[j] != NumberSign
    ensures TenderNumberText(Some(t)) == Strip(t[k + 1..])
  {
    LastPieceIsTail(t, k);
  }

  /** The last piece of the split starts right after the last sign. */
  lemma LastPieceIsTail(t: string, k: nat)
    requires k < |t| && t[k] == NumberSign && forall j | k < j < |t| :: t[j] != NumberSign
    ensures var parts := Split(t, NumberSign); parts[|parts| - 1] == t[k + 1..]
  {
    var parts := Split(t, NumberSign);
    var last := parts[|parts| - 1];
    var start := |t| - |last|;
    assert 0 < start <= |t| && t[start - 1] == NumberSign && last == t[start..] && NumberSign !in last by {
      SplitLast(t, NumberSign);
    }
    LastSignUnique(t, k, start - 1);
    assert k + 1 == start;
  }

  /** Two positions of the sign with none after either are the same position. */
  lemma LastSignUnique(t: string, k: nat, k': nat)
    requires k < |t| && t[k] == NumberSign && forall j | k < j < |t| :: t[j] != NumberSign
    requires k' < |t| && t[k'] == NumberSign && NumberSign !in t[k' + 1..]
    ensures k == k'
  {
  }

  /** The tender number is a contiguous piece of the link text. */
  lemma TenderNumberIsSubstring(t: string)
    ensures Contains(t, TenderNumberText(Some(t)))
  {
    var r := TenderNumberText(Some(t));
    if NumberSign in t {
      var parts := Split(t, NumberSign);
      var last := parts[|parts| - 1];
      var d := |t| - |last|;
      assert 0 <= d <= |t| && t[d..] == last by {
        SplitLast(t, NumberSign);
      }
      assert r == Strip(last);
      StripOccurs(last);
      OccursInSuffix(t, d, r, StripOffset(last));
    } else {
      assert OccursAt(t, r, 0);
    }
  }
}
