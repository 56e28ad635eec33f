/**
 * OKPD2 and KTRU classifier codes found in an item cell (app/parsers/tender_feature_parsers/
 * items_features/codes.py). Each extractor is a leftmost `re.search` for a fixed digit pattern:
 * OKPD2 is `\d{2}\.\d{2}\.\d{2}\.\d{3}`, KTRU is the same followed by `-\d{8}`.
 */
module Codes {
  import opened Wrappers
  import opened Text

  const Okpd2Length: nat := 12
  const KtruLength: nat := 21

  /** `w` has the OKPD2 shape DD.DD.DD.DDD. */
  predicate Okpd2Shape(w: string) {
    && |w| == Okpd2Length
    && w[2] == '.' && w[5] == '.' && w[8] == '.'
    && (forall k | 0 <= k < Okpd2Length && k != 2 && k != 5 && k != 8 :: IsDigit(w[k]))
  }

  /** `w` has the KTRU shape DD.DD.DD.DDD-DDDDDDDD. */
  predicate KtruShape(w: string) {
    && |w| == KtruLength
    && Okpd2Shape(w[..Okpd2Length])
    && w[Okpd2Length] == '-'
    && (forall k | Okpd2Length < k < KtruLength :: IsDigit(w[k]))
  }

  predicate Okpd2At(s: string, i: nat) {
    i + Okpd2Length <= |s| && Okpd2Shape(s[i..i + Okpd2Length])
  }

  predicate KtruAt(s: string, i: nat) {
    i + KtruLength <= |s| && KtruShape(s[i..i + KtruLength])
  }

  /** Where `re.search` finds the OKPD2 pattern: the leftmost match, if any. */
  function Okpd2Position(s: string): (p: Option<nat>)
    ensures p.Some? ==> Okpd2At(s, p.value) && forall q | 0 <= q < p.value :: !Okpd2At(s, q)
    ensures p.None? ==> forall q | 0 <= q <= |s| :: !Okpd2At(s, q)
  {
    var at := (q: nat) => Okpd2At(s, q);
    assert forall q: nat :: at(q) == Okpd2At(s, q);
    FirstWhere(at, 0, |s|)
  }

  /** Where `re.search` finds the KTRU pattern: the leftmost match, if any. */
  function KtruPosition(s: string): (p: Option<nat>)
    ensures p.Some? ==> KtruAt(s, p.value) && forall q | 0 <= q < p.value :: !KtruAt(s, q)
    ensures p.None? ==> forall q | 0 <= q <= |s| :: !KtruAt(s, q)
  {
    var at := (q: nat) => KtruAt(s, q);
    assert forall q: nat :: at(q) == KtruAt(s, q);
    FirstWhere(at, 0, |s|)
  }

  /** `extract_okpd2_code`: the leftmost OKPD2-shaped substring, or `None` when there is none. */
  function ExtractOkpd2(cellText: string): (r: Option<string>)
    ensures r.None? <==> forall q | 0 <= q <= |cellText| :: !Okpd2At(cellText, q)
    ensures r.Some? ==>
      && Okpd2Shape(r.value)
      && exists p: nat | p <= |cellText| ::
        && Okpd2At(cellText, p) && cellText[p..p + Okpd2Length] == r.value
        && forall q | 0 <= q < p :: !Okpd2At(cellText, q)
  {
    match Okpd2Position(cellText)
    case None => None
    case Some(p) => Some(cellText[p..p + Okpd2Length])
  }

  /** `extract_ktru_code`: the leftmost KTRU-shaped substring, or `None` when there is none. */
  function ExtractKtru(cellText: string): (r: Option<string>)
    ensures r.None? <==> forall q | 0 <= q <= |cellText| :: !KtruAt(cellText, q)
    ensures r.Some? ==>
      && KtruShape(r.value)
      && exists p: nat | p <= |cellText| ::
        && KtruAt(cellText, p) && cellText[p..p + KtruLength] == r.value
        && forall q | 0 <= q < p :: !KtruAt(cellText, q)
  {
    match KtruPosition(cellText)
    case None => None
    case Some(p) => Some(cellText[p..p + KtruLength])
  }

  /** Every KTRU match starts with an OKPD2 match. */
  lemma KtruStartsWithOkpd2(s: string, i: nat)
    requires KtruAt(s, i)
    ensures Okpd2At(s, i)
  {
    assert s[i..i + KtruLength][..Okpd2Length] == s[i..i + Okpd2Length];
  }

  /** Whenever a KTRU code is found, an OKPD2 code is found too, no later in the text. */
  lemma KtruImpliesOkpd2(s: string)
    requires ExtractKtru(s).Some?
    ensures ExtractOkpd2(s).Some?
    ensures Okpd2Position(s).value <= KtruPosition(s).value
  {
    var k := KtruPosition(s).value;
    KtruStartsWithOkpd2(s, k);
  }
}
