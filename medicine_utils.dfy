/**
 * `parse_medical_info` (app/parsers/tender_feature_parsers/items_features/medicine/utils.py):
 * splits a "form, dosage" text of a medicine item into its dosage form and its dosage.
 *
 * Without a comma the dosage is the leftmost match of
 * `(\d+(?:[.,]\d+)?)\s*(мг|мкг|г|ME|ЕД|ед)` under `re.IGNORECASE`. `DosageEnd` runs that regex
 * at one start position the way the backtracking matcher settles it; `IsDosageParse` is the
 * pattern read as a grammar, and the two are proved to agree on where a match exists.
 */
module MedicineUtils {
  import opened Wrappers
  import opened Text

  /** The unit alternatives, in the order the regex tries them. */
  const Units: seq<string> := ["мг", "мкг", "г", "ME", "ЕД", "ед"]

  datatype MedicalInfo = MedicalInfo(form: string, dosage: string)

  /** Unit `u` matches at `i`, ignoring letter case. */
  predicate UnitMatchAt(s: string, i: nat, u: string) {
    i + |u| <= |s| && forall k | 0 <= k < |u| :: LowerChar(s[i + k]) == LowerChar(u[k])
  }

  /** The first unit alternative, from the `k`-th on, that matches at `i`. */
  function FirstUnitFrom(s: string, i: nat, k: nat): (r: Option<nat>)
    decreases |Units| - k
    ensures r.Some? ==> k <= r.value < |Units| && UnitMatchAt(s, i, Units[r.value])
    ensures r.None? ==> forall j | k <= j < |Units| :: !UnitMatchAt(s, i, Units[j])
  {
    if k >= |Units| then None
    else if UnitMatchAt(s, i, Units[k]) then Some(k)
    else FirstUnitFrom(s, i, k + 1)
  }

  /** The end of `\d+(?:[.,]\d+)?` at `p`: the digit run, and the fraction when one follows. */
  function NumberEnd(s: string, p: nat): nat
    requires p <= |s|
  {
    var a := DigitRunEnd(s, p);
    if a + 1 < |s| && (s[a] == '.' || s[a] == ',') && IsDigit(s[a + 1]) then DigitRunEnd(s, a + 1) else a
  }

  /** The end of the regex match that starts at `p`, if one does. */
  function DosageEnd(s: string, p: nat): Option<nat> {
    if p < |s| && IsDigit(s[p]) then
      var c := SkipSpaces(s, NumberEnd(s, p));
      match FirstUnitFrom(s, c, 0)
      case Some(j) => Some(c + |Units[j]|)
      case None => None
    else None
  }

  /**
   * One way of reading `s[p..e]` as the pattern: digits `s[p..a]`, an optional fraction
   * `s[a..b]`, whitespace `s[b..c]` and unit number `unit` at `c`.
   */
  datatype DosageParse = DosageParse(a: nat, b: nat, c: nat, unit: nat)

  predicate AllSpaces(s: string) {
    forall k | 0 <= k < |s| :: IsSpace(s[k])
  }

  predicate IsDosageParse(s: string, p: nat, e: nat, m: DosageParse) {
    && p < m.a <= m.b <= m.c <= e <= |s|
    && m.unit < |Units|
    && AllDigits(s[p..m.a])
    && (m.b == m.a || (m.a + 1 < m.b && (s[m.a] == '.' || s[m.a] == ',') && AllDigits(s[m.a + 1..m.b])))
    && AllSpaces(s[m.b..m.c])
    && e == m.c + |Units[m.unit]|
    && UnitMatchAt(s, m.c, Units[m.unit])
  }

  /** No unit starts with a digit, a whitespace character, a dot or a comma, in any letter case. */
  lemma UnitStartsWithLetter(s: string, i: nat, j: nat)
    requires j < |Units| && UnitMatchAt(s, i, Units[j])
    ensures !IsDigit(s[i]) && !IsSpace(s[i]) && s[i] != '.' && s[i] != ','
  {
    assert LowerChar(s[i]) == LowerChar(Units[j][0]);
  }

  /** Whatever `DosageEnd` returns is a reading of the pattern. */
  lemma DosageEndSound(s: string, p: nat)
    requires DosageEnd(s, p).Some?
    ensures exists m :: IsDosageParse(s, p, DosageEnd(s, p).value, m)
  {
    var a := DigitRunEnd(s, p);
    var b := NumberEnd(s, p);
    var c := SkipSpaces(s, b);
    SkipSpacesSkipsSpaces(s, b);
    var j := FirstUnitFrom(s, c, 0).value;
    DigitsSlice(s, p, a);
    if b > a {
      DigitsSlice(s, a + 1, b);
    }
    SpacesSlice(s, b, c);
    assert IsDosageParse(s, p, DosageEnd(s, p).value, DosageParse(a, b, c, j));
  }

  lemma SpacesSlice(s: string, i: nat, j: nat)
    requires i <= j <= |s| && forall k | i <= k < j :: IsSpace(s[k])
    ensures AllSpaces(s[i..j])
  {
  }

  /** In a reading, the character after the digits is neither a digit nor whitespace. */
  lemma ParseAfterDigits(s: string, p: nat, e: nat, m: DosageParse)
    requires IsDosageParse(s, p, e, m)
    ensures m.a < |s| && !IsDigit(s[m.a])
    ensures m.b == m.a ==> !IsSpace(s[m.a]) || m.c > m.b
  {
    UnitStartsWithLetter(s, m.c, m.unit);
    if m.b > m.a {
      assert s[m.a] == '.' || s[m.a] == ',';
    } else if m.c > m.b {
      assert s[m.a] == s[m.b..m.c][0];
    }
  }

  /** The digit run of a reading is the whole digit run at `p`. */
  lemma ParseDigitsMaximal(s: string, p: nat, e: nat, m: DosageParse)
    requires IsDosageParse(s, p, e, m)
    ensures m.a == DigitRunEnd(s, p)
  {
    ParseAfterDigits(s, p, e, m);
    DigitRunEndUnique(s, p, m.a);
  }

  /** The fraction of a reading is the one `DosageEnd` takes. */
  lemma ParseFractionMaximal(s: string, p: nat, e: nat, m: DosageParse)
    requires IsDosageParse(s, p, e, m)
    ensures m.b == NumberEnd(s, p)
  {
    ParseDigitsMaximal(s, p, e, m);
    var a := m.a;
    UnitStartsWithLetter(s, m.c, m.unit);
    if m.b > a {
      assert s[a + 1] == s[a + 1..m.b][0];
      assert m.b == |s| || !IsDigit(s[m.b]) by {
        if m.c > m.b {
          assert s[m.b] == s[m.b..m.c][0];
        }
      }
      DigitRunEndUnique(s, a + 1, m.b);
    } else {
      assert s[a] != '.' && s[a] != ',' by {
        if m.c > m.b {
          assert s[a] == s[m.b..m.c][0];
        }
      }
    }
  }

  /** The whitespace of a reading is the whole whitespace run after the number. */
  lemma ParseSpacesMaximal(s: string, p: nat, e: nat, m: DosageParse)
    requires IsDosageParse(s, p, e, m)
    ensures m.c == SkipSpaces(s, m.b)
  {
    UnitStartsWithLetter(s, m.c, m.unit);
    SkipSpacesSkipsSpaces(s, m.b);
    assert forall k | m.b <= k < m.c :: IsSpace(s[k]) by {
      assert forall k | m.b <= k < m.c :: s[k] == s[m.b..m.c][k - m.b];
    }
  }

  /** Wherever the pattern can be read, `DosageEnd` finds a match: the regex search cannot miss it. */
  lemma DosageEndComplete(s: string, p: nat, e: nat, m: DosageParse)
    requires IsDosageParse(s, p, e, m)
    ensures DosageEnd(s, p).Some?
  {
    assert IsDigit(s[p]) by {
      assert s[p] == s[p..m.a][0];
    }
    ParseFractionMaximal(s, p, e, m);
    ParseSpacesMaximal(s, p, e, m);
    assert FirstUnitFrom(s, m.c, 0).Some?;
  }

  /** Where `re.search` finds the dosage: the leftmost start of a match. */
  function DosagePosition(s: string): (p: Option<nat>)
    ensures p.Some? ==> p.value < |s| && DosageEnd(s, p.value).Some?
    ensures p.Some? ==> exists m :: IsDosageParse(s, p.value, DosageEnd(s, p.value).value, m)
    ensures p.Some? ==> forall q: nat, e: nat, m | q < p.value :: !IsDosageParse(s, q, e, m)
    ensures p.None? ==> forall q, e, m :: !IsDosageParse(s, q, e, m)
  {
    var at := (q: nat) => DosageEnd(s, q).Some?;
    assert forall q: nat :: at(q) == DosageEnd(s, q).Some?;
    var r := FirstWhere(at, 0, |s|);
    forall q: nat, e: nat, m: DosageParse | IsDosageParse(s, q, e, m)
      ensures r.Some? && r.value <= q
    {
      DosageEndComplete(s, q, e, m);
    }
    if r.Some? then DosageEndSound(s, r.value); r else r
  }

  /** `parse_medical_info`. */
  function ParseMedicalInfo(text: string): (r: MedicalInfo)
    ensures Normalized(r.form) && Normalized(r.dosage)
  {
    var parts := Split(text, ',');
    if |parts| >= 2 then
      MedicalInfo(NormalizeSpaces(Strip(parts[0])), NormalizeSpaces(Strip(parts[1])))
    else
      match DosagePosition(text)
      case Some(p) =>
        var e := DosageEnd(text, p).value;
        MedicalInfo(NormalizeSpaces(Strip(text[..p])), NormalizeSpaces(text[p..e]))
      case None =>
        MedicalInfo(NormalizeSpaces(text), NormalizeSpaces([]))
  }

  /**
   * With a comma the form is the text before the first comma and the dosage the text up to the
   * next comma (or the end); both are stripped and normalised, and later parts are ignored.
   */
  lemma CommaSplitsFormAndDosage(text: string, k: nat, e: nat)
    requires k < e <= |text| && text[k] == ',' && ',' !in text[..k]
    requires ',' !in text[k + 1..e] && (e == |text| || text[e] == ',')
    ensures ParseMedicalInfo(text) ==
      MedicalInfo(NormalizeSpaces(Strip(text[..k])), NormalizeSpaces(Strip(text[k + 1..e])))
  {
    CommaPieces(text, k, e);
    MedicalInfoFromPieces(text);
  }

  /** The first two pieces of the split at commas, when the commas are at `k` and (if any) `e`. */
  lemma CommaPieces(text: string, k: nat, e: nat)
    requires k < e <= |text| && text[k] == ',' && ',' !in text[..k]
    requires ',' !in text[k + 1..e] && (e == |text| || text[e] == ',')
    ensures var parts := Split(text, ',');
      |parts| >= 2 && parts[0] == text[..k] && parts[1] == text[k + 1..e]
  {
    var parts := Split(text, ',');
    var rest := text[k + 1..];
    assert |parts| >= 2 && parts[0] == text[..k] && parts[1..] == Split(rest, ',') by {
      SplitHead(text, ',', k);
    }
    assert parts[1] == text[k + 1..e] by {
      assert rest[..e - k - 1] == text[k + 1..e];
      SplitHead(rest, ',', e - k - 1);
      assert parts[1] == parts[1..][0];
    }
  }

  /** With a comma in the text, form and dosage are the first two comma-separated pieces. */
  lemma MedicalInfoFromPieces(text: string)
    requires |Split(text, ',')| >= 2
    ensures var parts := Split(text, ',');
      ParseMedicalInfo(text) == MedicalInfo(NormalizeSpaces(Strip(parts[0])), NormalizeSpaces(Strip(parts[1])))
  {
  }

  /** Without a comma, the dosage is the leftmost match and the form is the text before it. */
  lemma NoCommaTakesLeftmostDosage(text: string, p: nat, e: nat, m: DosageParse)
    requires ',' !in text && IsDosageParse(text, p, e, m)
    ensures var q := DosagePosition(text);
      && q.Some? && q.value <= p
      && ParseMedicalInfo(text).form == NormalizeSpaces(Strip(text[..q.value]))
      && ParseMedicalInfo(text).dosage == NormalizeSpaces(text[q.value..DosageEnd(text, q.value).value])
  {
    SplitOnePiece(text, ',');
  }

  /** Without a comma and without a dosage, the form is the whole text, normalised. */
  lemma NoDosageKeepsForm(text: string)
    requires ',' !in text && forall q, e, m :: !IsDosageParse(text, q, e, m)
    ensures ParseMedicalInfo(text) == MedicalInfo(NormalizeSpaces(text), [])
  {
    SplitOnePiece(text, ',');
    assert DosagePosition(text).None?;
    NoSpaceNormalized([]);
    NormalizeFixesNormalized([]);
  }
}
