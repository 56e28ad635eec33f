/**
 * The pure parts of app/parsers/tender_feature_parsers/documents_info.py: deriving the
 * documents page address from a notice address (`get_documents_url`) and naming an attachment
 * after its title when its link text is blank.
 */
module DocumentsInfo {
  import opened Wrappers
  import opened Text

  // The documents page address, assembled from short pieces.
  const Host: string := "https://zakupki.gov.ru"
  const NoticePath: string := "/epz/order/notice/ea20/view/"
  const DocumentsPage: string := "documents.html?"
  const RegNumberKey: string := "regNumber="
  const DocumentsBase: string := Host + NoticePath + DocumentsPage
  /** Every documents address starts with this; the registry number follows. */
  const DocumentsPrefix: string := DocumentsBase + RegNumberKey
  const NotFoundMessage: string := "Не найден regNumber в URL: "

  /** `regNumber=` followed by at least one digit starts at `p`: where `regNumber=(\d+)` can match. */
  predicate RegNumberAt(url: string, p: nat) {
    OccursAt(url, RegNumberKey, p) && p + |RegNumberKey| < |url| && IsDigit(url[p + |RegNumberKey|])
  }

  /** The start of the leftmost `regNumber=(\d+)` match. */
  function RegNumberPosition(url: string): (p: Option<nat>)
    ensures p.Some? ==> RegNumberAt(url, p.value) && forall q | 0 <= q < p.value :: !RegNumberAt(url, q)
    ensures p.None? ==> forall q | 0 <= q <= |url| :: !RegNumberAt(url, q)
  {
    var at := (q: nat) => RegNumberAt(url, q);
    assert forall q: nat :: at(q) == RegNumberAt(url, q);
    FirstWhere(at, 0, |url|)
  }

  /** `match.group(1)`: the whole digit run after the leftmost `regNumber=` that a digit follows. */
  function RegNumber(url: string): (r: Option<string>)
    ensures r.None? <==> RegNumberPosition(url).None?
    ensures r.Some? ==>
      var s := RegNumberPosition(url).value + |RegNumberKey|;
      && r.value != [] && AllDigits(r.value)
      && s + |r.value| <= |url| && url[s..s + |r.value|] == r.value
      && (s + |r.value| == |url| || !IsDigit(url[s + |r.value|]))
  {
    match RegNumberPosition(url)
    case None => None
    case Some(p) =>
      var s := p + |RegNumberKey|;
      Some(url[s..DigitRunEnd(url, s)])
  }

  /** `get_documents_url`: the documents address, or the error `ValueError` carries. */
  function GetDocumentsUrl(tenderUrl: string): (r: Result<string, string>)
    ensures r.Failure? <==> forall q | 0 <= q <= |tenderUrl| :: !RegNumberAt(tenderUrl, q)
    ensures r.Failure? ==> r.error == NotFoundMessage + tenderUrl
    ensures r.Success? ==> r.value == DocumentsPrefix + RegNumber(tenderUrl).value
  {
    match RegNumber(tenderUrl)
    case None => Failure(NotFoundMessage + tenderUrl)
    case Some(n) => Success(DocumentsPrefix + n)
  }

  lemma NoCapitalNInBase()
    ensures forall k | 0 <= k < |DocumentsBase| :: DocumentsBase[k] != 'N'
  {
    assert forall k | 0 <= k < |Host| :: Host[k] != 'N';
    assert forall k | 0 <= k < |NoticePath| :: NoticePath[k] != 'N';
    assert forall k | 0 <= k < |DocumentsPage| :: DocumentsPage[k] != 'N';
    forall k | 0 <= k < |DocumentsBase| ensures DocumentsBase[k] != 'N' {
      if k < |Host| {
        assert DocumentsBase[k] == Host[k];
      } else if k < |Host| + |NoticePath| {
        assert DocumentsBase[k] == NoticePath[k - |Host|];
      } else {
        assert DocumentsBase[k] == DocumentsPage[k - |Host| - |NoticePath|];
      }
    }
  }

  /** No `regNumber=` starts inside the fixed part of a documents address. */
  lemma NoRegNumberInBase(u: string)
    requires |u| > |DocumentsPrefix| && u[..|DocumentsPrefix|] == DocumentsPrefix
    ensures forall q | 0 <= q < |DocumentsBase| :: !RegNumberAt(u, q)
  {
    var b := |DocumentsBase|;
    NoCapitalNInBase();
    forall q | 0 <= q < b ensures !RegNumberAt(u, q) {
      assert u[q + 3] == DocumentsPrefix[q + 3];
      if q + 3 < b {
        assert DocumentsPrefix[q + 3] == DocumentsBase[q + 3];
      } else {
        assert DocumentsPrefix[q + 3] == RegNumberKey[q + 3 - b];
      }
      assert u[q..q + |RegNumberKey|][3] == u[q + 3] != RegNumberKey[3];
    }
  }

  /** A digit run that reaches the end of the text ends there. */
  lemma DigitsToEnd(u: string, s: nat)
    requires s <= |u| && AllDigits(u[s..])
    ensures DigitRunEnd(u, s) == |u|
  {
    assert forall k | s <= k < |u| :: u[k] == u[s..][k - s];
  }

  /** In a documents address the only `regNumber=` match is the one after the fixed prefix. */
  lemma DocumentsUrlRegNumber(digits: string)
    requires digits != [] && AllDigits(digits)
    ensures RegNumberPosition(DocumentsPrefix + digits) == Some(|DocumentsBase|)
    ensures RegNumber(DocumentsPrefix + digits) == Some(digits)
  {
    var u := DocumentsPrefix + digits;
    var b := |DocumentsBase|;
    assert RegNumberPosition(u) == Some(b) by {
      assert u[..|DocumentsPrefix|] == DocumentsPrefix;
      assert u[b..b + |RegNumberKey|] == RegNumberKey;
      assert u[b + |RegNumberKey|] == digits[0];
      assert RegNumberAt(u, b);
      NoRegNumberInBase(u);
    }
    var s := b + |RegNumberKey|;
    assert u[s..DigitRunEnd(u, s)] == digits by {
      assert u[s..] == digits;
      DigitsToEnd(u, s);
    }
  }

  /** Deriving the documents address again from a documents address gives the same address. */
  lemma GetDocumentsUrlIdempotent(tenderUrl: string)
    requires GetDocumentsUrl(tenderUrl).Success?
    ensures GetDocumentsUrl(GetDocumentsUrl(tenderUrl).value) == GetDocumentsUrl(tenderUrl)
    ensures RegNumber(GetDocumentsUrl(tenderUrl).value) == RegNumber(tenderUrl)
  {
    DocumentsUrlRegNumber(RegNumber(tenderUrl).value);
  }

  // ---------------------------------------------------------------------------------------------
  // Attachment name from the link title: `re.sub(r'\.\w+$', '', title)`

  /** Where `$` matches: the end of `t`, or just before a final newline. */
  function LineEnd(t: string): nat {
    if t != [] && t[|t| - 1] == '\n' then |t| - 1 else |t|
  }

  /** A dot at `p` followed by word characters reaching `$`: where `\.\w+$` matches. */
  predicate ExtensionAt(t: string, p: nat) {
    && p + 1 < LineEnd(t)
    && t[p] == '.'
    && forall k | p < k < LineEnd(t) :: IsWordChar(t[k])
  }

  /** The pattern matches at one position at most, so `re.sub` replaces at most once. */
  lemma ExtensionUnique(t: string, p: nat, q: nat)
    requires ExtensionAt(t, p) && ExtensionAt(t, q)
    ensures p == q
  {
  }

  /** The title with its trailing `.<word characters>` extension removed. */
  function StripExtension(title: string): (r: string)
    ensures forall p | 0 <= p <= |title| && ExtensionAt(title, p) :: r == title[..p] + title[LineEnd(title)..]
    ensures (forall p | 0 <= p <= |title| :: !ExtensionAt(title, p)) ==> r == title
  {
    var at := (p: nat) => ExtensionAt(title, p);
    assert forall p: nat :: at(p) == ExtensionAt(title, p);
    match FirstWhere(at, 0, |title|)
    case None => title
    case Some(p) =>
      assert forall q | 0 <= q <= |title| && ExtensionAt(title, q) :: q == p by {
        forall q | 0 <= q <= |title| && ExtensionAt(title, q) ensures q == p {
          ExtensionUnique(title, p, q);
        }
      }
      title[..p] + title[LineEnd(title)..]
  }

  /**
   * The attachment name: the stripped link text, or, when that is empty, the title without its
   * extension (empty when there is no title).
   */
  function AttachmentName(linkText: string, title: Option<string>): (r: string)
    ensures Strip(linkText) != [] ==> r == Strip(linkText)
    ensures Strip(linkText) == [] ==> r == StripExtension(title.GetOr([]))
  {
    var name := Strip(linkText);
    if name != [] then name
    else match title
      case Some(t) => if t != [] then StripExtension(t) else name
      case None => name
  }
}
