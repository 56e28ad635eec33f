/**
 * `clean_text` (app/utils/validator.py): entity and control-character replacement followed by
 * whitespace normalisation.
 */
module Validator {
  import opened Wrappers
  import opened Text

  const Nbsp: string := "&nbsp;"

  /** The five `str.replace` calls, in the order the source applies them. */
  function ReplaceSpecials(s: string): string {
    var a := ReplaceAll(s, "\U{A0}", " ");
    var b := ReplaceAll(a, Nbsp, " ");
    var c := ReplaceAll(b, "\n", " ");
    var d := ReplaceAll(c, "\r", " ");
    ReplaceAll(d, "\t", " ")
  }

  /** `clean_text(text)`; `None` stands for a missing text. */
  function CleanText(text: Option<string>): (r: string)
    ensures text.None? || text == Some([]) ==> r == []
    ensures Normalized(r)
  {
    if text.None? || text.value == [] then []
    else NormalizeSpaces(ReplaceSpecials(text.value))
  }

  /**
   * The shape of every cleaned text: no leading or trailing whitespace, none of the replaced
   * control characters, and never two whitespace characters in a row.
   */
  lemma CleanTextShape(text: Option<string>)
    ensures var r := CleanText(text);
      && (r == [] || (!IsSpace(r[0]) && !IsSpace(r[|r| - 1])))
      && (forall k | 0 <= k < |r| :: r[k] != '\U{A0}' && r[k] != '\n' && r[k] != '\r' && r[k] != '\t')
      && (forall k | 0 <= k < |r| - 1 :: !IsSpace(r[k]) || !IsSpace(r[k + 1]))
  {
    SingleSpacedMeans(CleanText(text));
  }

  lemma NbspHasNoSpace()
    ensures NoSpace(Nbsp) && ' ' !in Nbsp
  {
    NoSpaceMeans(Nbsp);
  }

  /** No `&nbsp;` entity survives cleaning. */
  lemma CleanTextNoNbsp(text: Option<string>, i: nat)
    ensures !OccursAt(CleanText(text), Nbsp, i)
  {
    if text.Some? && text.value != [] && OccursAt(CleanText(text), Nbsp, i) {
      NbspHasNoSpace();
      var a := ReplaceAll(text.value, "\U{A0}", " ");
      var b := ReplaceAll(a, Nbsp, " ");
      var c := ReplaceAll(b, "\n", " ");
      var d := ReplaceAll(c, "\r", " ");
      var j4 := NormalizeKeepsWords(ReplaceSpecials(text.value), Nbsp, i);
      var j3 := ReplaceKeepsWords(d, "\t", Nbsp, j4);
      var j2 := ReplaceKeepsWords(c, "\r", Nbsp, j3);
      var j1 := ReplaceKeepsWords(b, "\n", Nbsp, j2);
      ReplaceRemovesPattern(a, Nbsp, j1);
    }
  }

  /** Replacing by a space changes nothing in a cleaned text. */
  lemma ReplaceSpecialsFixesCleaned(text: Option<string>)
    ensures ReplaceSpecials(CleanText(text)) == CleanText(text)
  {
    var r := CleanText(text);
    CleanTextShape(text);
    AbsentChar(r, '\U{A0}');
    ReplaceAbsent(r, "\U{A0}", " ");
    assert !Contains(r, Nbsp) by {
      forall i: nat | i <= |r| ensures !OccursAt(r, Nbsp, i) {
        CleanTextNoNbsp(text, i);
      }
    }
    ReplaceAbsent(r, Nbsp, " ");
    AbsentChar(r, '\n');
    ReplaceAbsent(r, "\n", " ");
    AbsentChar(r, '\r');
    ReplaceAbsent(r, "\r", " ");
    AbsentChar(r, '\t');
    ReplaceAbsent(r, "\t", " ");
  }

  /** Cleaning is idempotent. */
  lemma CleanTextIdempotent(text: Option<string>)
    ensures CleanText(Some(CleanText(text))) == CleanText(text)
  {
    var r := CleanText(text);
    if r != [] {
      ReplaceSpecialsFixesCleaned(text);
      NormalizeFixesNormalized(r);
    }
  }

  /** A text with no whitespace and no `&nbsp;` entity comes back unchanged. */
  lemma CleanTextKeepsPlainText(s: string)
    requires NoSpace(s) && !Contains(s, Nbsp)
    ensures CleanText(Some(s)) == s
  {
    if s != [] {
      NoSpaceMeans(s);
      AbsentChar(s, '\U{A0}');
      ReplaceAbsent(s, "\U{A0}", " ");
      ReplaceAbsent(s, Nbsp, " ");
      AbsentChar(s, '\n');
      ReplaceAbsent(s, "\n", " ");
      AbsentChar(s, '\r');
      ReplaceAbsent(s, "\r", " ");
      AbsentChar(s, '\t');
      ReplaceAbsent(s, "\t", " ");
      NoSpaceNormalized(s);
      NormalizeFixesNormalized(s);
    }
  }
}
