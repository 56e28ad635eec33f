/**
 * The table logic of app/parsers/tender_feature_parsers/items_features/medicine/parsers.py:
 * reading the delivery-variant table of a medicine item (`parse_variant_table`), describing one
 * alternative variant (`parse_alternative_variant`) and folding the alternatives into the item's
 * characteristics (`add_alternatives_to_characteristics`).
 *
 * A table row is given by what the page queries return for it: its whole text and the texts of
 * its `td.tableBlock__col` cells.
 */
module MedicineParsers {
  import opened Wrappers
  import opened Text
  import opened Codes
  import opened Characteristics

  /** The name of the single characteristic that lists the alternative variants. */
  const AlternativesName: string := "Альтернативные варианты поставки"
  const AlternativesSeparator: string := "; "
  /** A row whose text contains this switches to the main variant. */
  const MainHeader: string := "Основной вариант поставки"
  /** A row whose text contains this (and not the main header) switches to the alternatives. */
  const AlternativeHeader: string := "Альтернативный вариант"

  // ---------------------------------------------------------------------------------------------
  // add_alternatives_to_characteristics

  /** The characteristics that are not an alternatives entry, in their original order. */
  function Kept(chars: seq<Characteristic>): (r: seq<Characteristic>)
    ensures |r| <= |chars|
    ensures forall k | 0 <= k < |r| :: r[k].name != AlternativesName
  {
    if chars == [] then []
    else (if chars[0].name != AlternativesName then [chars[0]] else []) + Kept(chars[1..])
  }

  /** The entry listing the alternatives, numbered `id`. */
  function AlternativesEntry(id: int, alternatives: seq<string>): Characteristic {
    Characteristic(id, AlternativesName, Join(alternatives, AlternativesSeparator), None,
      Qualitative, false, true, None)
  }

  /** What `add_alternatives_to_characteristics` returns. */
  function WithAlternatives(chars: seq<Characteristic>, alternatives: seq<string>): seq<Characteristic> {
    var kept := Kept(chars);
    if alternatives != [] then kept + [AlternativesEntry(|kept| + 1, alternatives)] else kept
  }

  /** `add_alternatives_to_characteristics`: drop any alternatives entry, then append a new one. */
  method AddAlternativesToCharacteristics(chars: seq<Characteristic>, alternatives: seq<string>)
    returns (updated: seq<Characteristic>)
    ensures updated == WithAlternatives(chars, alternatives)
  {
    updated := [];
    for k := 0 to |chars|
      invariant updated + Kept(chars[k..]) == Kept(chars)
    {
      KeptStep(chars, k, updated);
      if chars[k].name != AlternativesName {
        updated := updated + [chars[k]];
      }
    }
    if alternatives != [] {
      updated := updated + [AlternativesEntry(|updated| + 1, alternatives)];
    }
  }

  /** One pass of the filter: the kept prefix grows by `chars[k]` when it is kept. */
  lemma KeptStep(chars: seq<Characteristic>, k: nat, updated: seq<Characteristic>)
    requires k < |chars| && updated + Kept(chars[k..]) == Kept(chars)
    ensures (if chars[k].name != AlternativesName then updated + [chars[k]] else updated) + Kept(chars[k + 1..]) == Kept(chars)
  {
    var rest := Kept(chars[k + 1..]);
    assert chars[k..][1..] == chars[k + 1..];
    if chars[k].name != AlternativesName {
      assert Kept(chars[k..]) == [chars[k]] + rest;
      AppendAssoc(updated, [chars[k]], rest);
    } else {
      assert Kept(chars[k..]) == rest;
    }
  }

  /** `Kept` over a concatenation is the concatenation of the kept parts: order is preserved. */

  lemma {:induction false} KeptAppend(a: seq<Characteristic>, b: seq<Characteristic>)
    ensures Kept(a + b) == Kept(a) + Kept(b)
  {
    if a == [] {
      assert a + b == b;
    } else {
      assert (a + b)[1..] == a[1..] + b;
      KeptAppend(a[1..], b);
    }
  }

  /** A characteristic survives the filter exactly when it is not an alternatives entry. */
  lemma {:induction false} KeptMembers(chars: seq<Characteristic>, c: Characteristic)
    ensures c in Kept(chars) <==> c in chars && c.name != AlternativesName
  {
    if chars != [] {
      KeptMembers(chars[1..], c);
      assert chars == [chars[0]] + chars[1..];
    }
  }

  /** The number of entries named `name`. */
  function CountNamed(chars: seq<Characteristic>, name: string): (n: nat)
    ensures n <= |chars|
  {
    if chars == [] then 0 else (if chars[0].name == name then 1 else 0) + CountNamed(chars[1..], name)
  }

  lemma {:induction false} CountNamedAppend(a: seq<Characteristic>, b: seq<Characteristic>, name: string)
    ensures CountNamed(a + b, name) == CountNamed(a, name) + CountNamed(b, name)
  {
    if a == [] {
      assert a + b == b;
    } else {
      assert (a + b)[1..] == a[1..] + b;
      CountNamedAppend(a[1..], b, name);
    }
  }

  lemma {:induction false} NoneNamed(chars: seq<Characteristic>, name: string)
    requires forall k | 0 <= k < |chars| :: chars[k].name != name
    ensures CountNamed(chars, name) == 0
  {
    if chars != [] {
      NoneNamed(chars[1..], name);
    }
  }

  /**
   * The result keeps every other characteristic in order and holds exactly one alternatives entry
   * when there are alternatives (the last one, numbered after the kept ones, optional and
   * changeable, listing the alternatives joined by "; ") and none when there are none.
   */
  lemma WithAlternativesShape(chars: seq<Characteristic>, alternatives: seq<string>)
    ensures var r := WithAlternatives(chars, alternatives);
      && r[..|Kept(chars)|] == Kept(chars)
      && CountNamed(r, AlternativesName) == (if alternatives != [] then 1 else 0)
      && (alternatives != [] ==>
        && |r| == |Kept(chars)| + 1
        && r[|r| - 1].id == |r|
        && r[|r| - 1].value == Join(alternatives, AlternativesSeparator)
        && !r[|r| - 1].required && r[|r| - 1].changeable
        && r[|r| - 1].charType == Qualitative && r[|r| - 1].unit.None?)
      && (alternatives == [] ==> r == Kept(chars))
  {
    var kept := Kept(chars);
    NoneNamed(kept, AlternativesName);
    if alternatives != [] {
      CountNamedAppend(kept, [AlternativesEntry(|kept| + 1, alternatives)], AlternativesName);
      assert CountNamed([AlternativesEntry(|kept| + 1, alternatives)], AlternativesName) == 1;
    }
  }

  /** Adding the same alternatives a second time changes nothing: the old entry is replaced. */
  lemma {:induction false} WithAlternativesIdempotent(chars: seq<Characteristic>, alternatives: seq<string>)
    ensures WithAlternatives(WithAlternatives(chars, alternatives), alternatives) == WithAlternatives(chars, alternatives)
  {
    var kept := Kept(chars);
    if alternatives != [] {
      KeptDropsEntry(kept, AlternativesEntry(|kept| + 1, alternatives));
    } else {
      KeptFixed(kept);
    }
  }

  /** Filtering an already filtered list with one alternatives entry appended gives the list back. */
  lemma KeptDropsEntry(kept: seq<Characteristic>, entry: Characteristic)
    requires forall k | 0 <= k < |kept| :: kept[k].name != AlternativesName
    requires entry.name == AlternativesName
    ensures Kept(kept + [entry]) == kept
  {
    KeptFixed(kept);
    KeptAppend(kept, [entry]);
    assert Kept([entry]) == [];
  }

  /** Filtering a list without alternatives entries changes nothing. */
  lemma {:induction false} KeptFixed(chars: seq<Characteristic>)
    requires forall k | 0 <= k < |chars| :: chars[k].name != AlternativesName
    ensures Kept(chars) == chars
  {
    if chars != [] {
      KeptFixed(chars[1..]);
      assert chars == [chars[0]] + chars[1..];
    }
  }

  // ---------------------------------------------------------------------------------------------
  // parse_alternative_variant

  /** `[line.strip() for line in text.split('\n') if line.strip()]`. */
  function NonBlankLines(text: string): (r: seq<string>)
    ensures forall k | 0 <= k < |r| :: r[k] != [] && !IsSpace(r[k][0]) && !IsSpace(r[k][|r[k]| - 1])
  {
    StrippedNonEmpty(Split(text, '\n'))
  }

  /** A form argument that Python treats as false: absent or empty. */
  predicate NoForm(form: Option<string>) {
    form.None? || form.value == []
  }

  /**
   * `parse_alternative_variant` over the cell texts: "<form> <dosage> - <quantity> <unit>" from
   * the second and third cells, or `None` when those cells or lines are missing.
   */
  function AlternativeVariant(cells: seq<string>, unit: string, form: Option<string>): (r: Option<string>)
    ensures r.Some? <==> |cells| >= 3 && |NonBlankLines(cells[1])| >= 3 && NonBlankLines(cells[2]) != []
    ensures r.Some? ==>
      var med := NonBlankLines(cells[1]);
      var qty := NonBlankLines(cells[2]);
      var altForm := if NoForm(form) then med[1] else form.value;
      r.value == altForm + " " + med[2] + " - " + qty[0] + " " + unit
  {
    if |cells| < 2 then None
    else
      var med := NonBlankLines(cells[1]);
      if |med| < 3 || |cells| < 3 then None
      else
        var altForm := if NoForm(form) then med[1] else form.value;
        var qty := NonBlankLines(cells[2]);
        if qty == [] then None
        else Some(altForm + " " + med[2] + " - " + qty[0] + " " + unit)
  }

  /** A variant description is never empty, so every one found is appended. */
  lemma AlternativeVariantNonEmpty(cells: seq<string>, unit: string, form: Option<string>)
    requires AlternativeVariant(cells, unit, form).Some?
    ensures |AlternativeVariant(cells, unit, form).value| >= 3 + |unit|
  {
  }

  // ---------------------------------------------------------------------------------------------
  // parse_variant_table

  /** `(\d{2}\.\d{2}\.\d{2}\.\d{3}):` matches at `i`: an OKPD2 code followed by a colon. */
  predicate Okpd2ColonAt(s: string, i: nat) {
    Okpd2At(s, i) && i + Okpd2Length < |s| && s[i + Okpd2Length] == ':'
  }

  /** The code captured by the leftmost OKPD2-and-colon match, if any. */
  function ExtractOkpd2BeforeColon(s: string): (r: Option<string>)
    ensures r.None? <==> forall q | 0 <= q <= |s| :: !Okpd2ColonAt(s, q)
    ensures r.Some? ==>
      && Okpd2Shape(r.value)
      && exists p: nat | p <= |s| ::
        && Okpd2ColonAt(s, p) && s[p..p + Okpd2Length] == r.value
        && forall q | 0 <= q < p :: !Okpd2ColonAt(s, q)
  {
    var at := (q: nat) => Okpd2ColonAt(s, q);
    assert forall q: nat :: at(q) == Okpd2ColonAt(s, q);
    match FirstWhere(at, 0, |s|)
    case None => None
    case Some(p) => Some(s[p..p + Okpd2Length])
  }

  /** A row of the variant table: its whole text and the texts of its data cells. */
  datatype VariantRow = VariantRow(text: string, cells: seq<string>)

  predicate IsMainHeader(row: VariantRow) {
    Contains(row.text, MainHeader)
  }

  predicate IsAlternativeHeader(row: VariantRow) {
    !IsMainHeader(row) && Contains(row.text, AlternativeHeader)
  }

  /** What the loop over the rows carries from one row to the next. */
  datatype Scan = Scan(alternative: bool, okpd2: Option<string>, ktru: Option<string>, alternatives: seq<string>)

  const ScanStart: Scan := Scan(false, None, None, [])

  /** The codes a main-variant code cell supplies: each one found replaces the one held. */
  function ReadCodes(st: Scan, codeText: string): Scan {
    var okpd2 := ExtractOkpd2BeforeColon(codeText);
    var ktru := ExtractKtru(codeText);
    st.(okpd2 := if okpd2.Some? then okpd2 else st.okpd2, ktru := if ktru.Some? then ktru else st.ktru)
  }

  /** One iteration of the row loop. */
  function ScanRow(st: Scan, row: VariantRow, unit: string, form: Option<string>): Scan {
    if IsMainHeader(row) then st.(alternative := false)
    else if IsAlternativeHeader(row) then st.(alternative := true)
    else if |row.cells| < 3 then st
    else if !st.alternative then
      if st.okpd2.None? then ReadCodes(st, row.cells[0]) else st
    else
      match AlternativeVariant(row.cells, unit, form)
      case Some(a) => st.(alternatives := st.alternatives + [a])
      case None => st
  }

  /** The loop over `rows`, from the start state. */
  function ScanRows(rows: seq<VariantRow>, unit: string, form: Option<string>): Scan
    decreases |rows|
  {
    if rows == [] then ScanStart
    else ScanRow(ScanRows(rows[..|rows| - 1], unit, form), rows[|rows| - 1], unit, form)
  }

  lemma ScanRowsStep(rows: seq<VariantRow>, i: nat, unit: string, form: Option<string>)
    requires i < |rows|
    ensures ScanRows(rows[..i + 1], unit, form) == ScanRow(ScanRows(rows[..i], unit, form), rows[i], unit, form)
  {
    assert rows[..i + 1][..i] == rows[..i];
  }

  /** The result of `parse_variant_table`. */
  datatype VariantTable = VariantTable(okpd2: Option<string>, ktru: Option<string>, characteristics: seq<Characteristic>)

  /** `parse_variant_table` over the rows of the table. */
  method ParseVariantTable(rows: seq<VariantRow>, unit: string, chars: seq<Characteristic>, form: Option<string>)
    returns (result: VariantTable)
    ensures var st := ScanRows(rows, unit, form);
      result == VariantTable(st.okpd2, st.ktru,
        if st.alternatives != [] then WithAlternatives(chars, st.alternatives) else chars)
  {
    var okpd2: Option<string> := None;
    var ktru: Option<string> := None;
    var alternatives: seq<string> := [];
    var updated := chars;
    var isAlternative := false;
    for i := 0 to |rows|
      invariant Scan(isAlternative, okpd2, ktru, alternatives) == ScanRows(rows[..i], unit, form)
    {
      ScanRowsStep(rows, i, unit, form);
      var row := rows[i];
      if Contains(row.text, MainHeader) {
        isAlternative := false;
        continue;
      } else if Contains(row.text, AlternativeHeader) {
        isAlternative := true;
        continue;
      }
      var cells := row.cells;
      if |cells| >= 3 {
        var codeText := cells[0];
        if !isAlternative && okpd2.None? {
          var okpd2Match := ExtractOkpd2BeforeColon(codeText);
          if okpd2Match.Some? {
            okpd2 := okpd2Match;
          }
          var ktruMatch := ExtractKtru(codeText);
          if ktruMatch.Some? {
            ktru := ktruMatch;
          }
        }
        if isAlternative {
          var altInfo := AlternativeVariant(cells, unit, form);
          if altInfo.Some? {
            alternatives := alternatives + [altInfo.value];
          }
        }
      }
    }
    assert rows[..|rows|] == rows;
    if alternatives != [] {
      updated := AddAlternativesToCharacteristics(updated, alternatives);
    }
    result := VariantTable(okpd2, ktru, updated);
  }

  /** Once an OKPD2 code is held, no later row changes either code. */
  lemma {:induction false} CodesFrozen(rows: seq<VariantRow>, i: nat, unit: string, form: Option<string>)
    requires i <= |rows| && ScanRows(rows[..i], unit, form).okpd2.Some?
    ensures ScanRows(rows, unit, form).okpd2 == ScanRows(rows[..i], unit, form).okpd2
    ensures ScanRows(rows, unit, form).ktru == ScanRows(rows[..i], unit, form).ktru
    decreases |rows| - i
  {
    if i == |rows| {
      assert rows[..i] == rows;
    } else {
      ScanRowsStep(rows, i, unit, form);
      CodesFrozen(rows, i + 1, unit, form);
    }
  }

  /**
   * A row changes a code only as a main-variant data row read while no OKPD2 code is held, and
   * then to what its code cell supplies.
   */
  lemma CodesOnlyFromMainRows(st: Scan, row: VariantRow, unit: string, form: Option<string>)
    requires ScanRow(st, row, unit, form).okpd2 != st.okpd2 || ScanRow(st, row, unit, form).ktru != st.ktru
    ensures !IsMainHeader(row) && !IsAlternativeHeader(row) && |row.cells| >= 3
    ensures !st.alternative && st.okpd2.None?
    ensures ScanRow(st, row, unit, form) == ReadCodes(st, row.cells[0])
  {
  }

  /**
   * A row adds to the alternatives only while the alternatives header is in force, and then adds
   * exactly its own description; header rows add nothing and set the mode.
   */
  lemma AlternativesOnlyFromAlternativeRows(st: Scan, row: VariantRow, unit: string, form: Option<string>)
    ensures var next := ScanRow(st, row, unit, form);
      && (next.alternatives == st.alternatives
          || (next.alternatives == st.alternatives + [AlternativeVariant(row.cells, unit, form).value]
              && st.alternative && !IsMainHeader(row) && !IsAlternativeHeader(row)
              && AlternativeVariant(row.cells, unit, form).Some?))
      && (IsMainHeader(row) ==> next == st.(alternative := false))
      && (IsAlternativeHeader(row) ==> next == st.(alternative := true))
  {
  }

  /** The mode after some rows: set by the last header row among them, the main variant if none. */
  function LastHeaderIsAlternative(rows: seq<VariantRow>): bool
    decreases |rows|
  {
    if rows == [] then false
    else if IsMainHeader(rows[|rows| - 1]) then false
    else if IsAlternativeHeader(rows[|rows| - 1]) then true
    else LastHeaderIsAlternative(rows[..|rows| - 1])
  }

  /** The loop is in alternatives mode exactly when the last header row seen was an alternatives header. */
  lemma {:induction false} ScanMode(rows: seq<VariantRow>, unit: string, form: Option<string>)
    ensures ScanRows(rows, unit, form).alternative == LastHeaderIsAlternative(rows)
    decreases |rows|
  {
    if rows != [] {
      ScanMode(rows[..|rows| - 1], unit, form);
    }
  }

  /** There are never more alternatives than rows read. */
  lemma {:induction false} AlternativesBounded(rows: seq<VariantRow>, unit: string, form: Option<string>)
    ensures |ScanRows(rows, unit, form).alternatives| <= |rows|
    decreases |rows|
  {
    if rows != [] {
      AlternativesBounded(rows[..|rows| - 1], unit, form);
    }
  }

  /** Without an alternatives header, the characteristics come back unchanged. */
  lemma {:induction false} NoAlternativeHeaderNoAlternatives(rows: seq<VariantRow>, unit: string, form: Option<string>)
    requires forall k | 0 <= k < |rows| :: !IsAlternativeHeader(rows[k])
    ensures !ScanRows(rows, unit, form).alternative
    ensures ScanRows(rows, unit, form).alternatives == []
    decreases |rows|
  {
    if rows != [] {
      NoAlternativeHeaderNoAlternatives(rows[..|rows| - 1], unit, form);
    }
  }

  /**
   * The alternatives a row contributes, given the mode the header rows before it set: its
   * description when it is a data row under the alternatives header.
   */
  function RowAlternative(before: seq<VariantRow>, row: VariantRow, unit: string, form: Option<string>): seq<string> {
    if LastHeaderIsAlternative(before) && !IsMainHeader(row) && !IsAlternativeHeader(row)
      && |row.cells| >= 3 && AlternativeVariant(row.cells, unit, form).Some?
    then [AlternativeVariant(row.cells, unit, form).value]
    else []
  }

  /** The descriptions of the data rows under an alternatives header, in row order. */
  function AlternativeDescriptions(rows: seq<VariantRow>, unit: string, form: Option<string>): seq<string>
    decreases |rows|
  {
    if rows == [] then []
    else
      var before := rows[..|rows| - 1];
      AlternativeDescriptions(before, unit, form) + RowAlternative(before, rows[|rows| - 1], unit, form)
  }

  /** The loop collects exactly the descriptions of the rows under an alternatives header. */
  lemma {:induction false} ScanCollectsAlternativeRows(rows: seq<VariantRow>, unit: string, form: Option<string>)
    ensures ScanRows(rows, unit, form).alternatives == AlternativeDescriptions(rows, unit, form)
    decreases |rows|
  {
    if rows != [] {
      var before := rows[..|rows| - 1];
      ScanCollectsAlternativeRows(before, unit, form);
      ScanMode(before, unit, form);
    }
  }
}
