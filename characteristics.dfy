/**
 * The characteristics table of a purchase item
 * (app/parsers/tender_feature_parsers/items_features/characteristics.py).
 *
 * A table row is the list of its cells; a cell is its rendered text and its `rowspan` attribute
 * (`None` when the attribute is absent). A first cell with a `rowspan` of n >= 1 opens a group
 * whose values are its second cell and the first cells of the n - 1 rows below it; the group is
 * emitted when the next group opens or when the table ends. Rows without a spanning first cell
 * are emitted on their own, at once.
 *
 * `ParseTable` is the loop read as a recursion over the row index; the method
 * `ParseCharacteristicsFromTable` is the loop itself and is proved to compute `ParseTable`.
 */
module Characteristics {
  import opened Wrappers
  import opened Text

  const Quantitative: string := "Количественная"
  const Qualitative: string := "Качественная"
  const ConcreteValue: string := "конкретное значение"
  const CannotChange: string := "не может изменяться"
  const StatesInBid: string := "указывает в заявке"

  /** `parse_characteristic_type`. */
  function CharacteristicType(instruction: string): (r: string)
    ensures r == Quantitative <==> Contains(Lower(instruction), ConcreteValue)
    ensures r == Qualitative <==> !Contains(Lower(instruction), ConcreteValue)
  {
    if Contains(Lower(instruction), ConcreteValue) then Quantitative else Qualitative
  }

  /** `parse_characteristic_changeable`: the prohibition wins over the permission. */
  function Changeable(instruction: string): (r: bool)
    ensures Contains(Lower(instruction), CannotChange) ==> !r
    ensures r <==> !Contains(Lower(instruction), CannotChange) && Contains(Lower(instruction), StatesInBid)
  {
    if Contains(Lower(instruction), CannotChange) then false
    else Contains(Lower(instruction), StatesInBid)
  }

  // ---------------------------------------------------------------------------------------------
  // Table rows and the emitted records

  datatype Cell = Cell(text: string, rowspan: Option<string>)
  type Row = seq<Cell>

  /** `ItemCharacteristic`; `charType` is the schema's `type` field. */
  datatype Characteristic = Characteristic(
    id: int, name: string, value: string, unit: Option<string>,
    charType: string, required: bool, changeable: bool, fillInstruction: Option<string>)

  /** An attribute value Python treats as true: present and not empty. */
  predicate Truthy(attribute: Option<string>) {
    attribute.Some? && attribute.value != []
  }

  /** `t if t else None`. */
  function NonEmpty(t: string): (r: Option<string>)
    ensures r.None? <==> t == []
    ensures r.Some? ==> r.value == t
  {
    if t != [] then Some(t) else None
  }

  // ---------------------------------------------------------------------------------------------
  // `int(rowspan)`

  /** The value of a string of decimal digits. */
  function DigitsValue(ds: string): int
    decreases |ds|
  {
    if ds == [] then 0 else 10 * DigitsValue(ds[..|ds| - 1]) + (ds[|ds| - 1] as int - '0' as int)
  }

  /** `int(s)`: surrounding whitespace, an optional sign and decimal digits; anything else fails. */
  function ParseInt(s: string): Option<int> {
    var t := Strip(s);
    if t != [] && (t[0] == '+' || t[0] == '-') then
      var ds := t[1..];
      if ds != [] && AllDigits(ds) then Some(if t[0] == '-' then -DigitsValue(ds) else DigitsValue(ds))
      else None
    else if t != [] && AllDigits(t) then Some(DigitsValue(t))
    else None
  }

  /** `str(n)` for a natural number. */
  function Decimal(n: nat): (r: string)
    ensures r != [] && AllDigits(r)
  {
    var d := ('0' as int + n % 10) as char;
    if n < 10 then [d] else Decimal(n / 10) + [d]
  }

  lemma {:induction false} DecimalValue(n: nat)
    ensures DigitsValue(Decimal(n)) == n
  {
    if n >= 10 {
      DecimalValue(n / 10);
      assert Decimal(n)[..|Decimal(n)| - 1] == Decimal(n / 10);
    }
  }

  /** `int` reads back what `str` writes. */
  lemma ParseIntDecimal(n: nat)
    ensures ParseInt(Decimal(n)) == Some(n)
  {
    DecimalValue(n);
    var d := Decimal(n);
    assert IsDigit(d[0]) && IsDigit(d[|d| - 1]);
  }

  /** `int` also takes a leading sign. */
  lemma ParseIntSigned(n: nat, sign: char)
    requires sign == '+' || sign == '-'
    ensures ParseInt([sign] + Decimal(n)) == Some(if sign == '-' then -(n as int) else n)
  {
    var d := Decimal(n);
    var t := [sign] + d;
    SignedDecimalStripped(d, sign);
    assert t[1..] == d;
    DecimalValue(n);
  }

  /** A sign followed by digits has no surrounding space to strip. */
  lemma SignedDecimalStripped(d: string, sign: char)
    requires sign == '+' || sign == '-'
    requires d != [] && AllDigits(d)
    ensures Strip([sign] + d) == [sign] + d
  {
    var t := [sign] + d;
    assert t[|t| - 1] == d[|d| - 1];
  }

  /** An empty or blank attribute, or one with a non-digit in it, is not a number. */
  lemma ParseIntRejects(s: string, k: nat)
    requires k < |Strip(s)| && !IsDigit(Strip(s)[k]) && (k > 0 || (Strip(s)[0] != '+' && Strip(s)[0] != '-'))
    ensures ParseInt(s) == None
  {
    var t := Strip(s);
    if t[0] == '+' || t[0] == '-' {
      assert t[1..][k - 1] == t[k];
    }
  }

  // ---------------------------------------------------------------------------------------------
  // What one row is to the loop

  const NameWord: string := "НАИМЕНОВАНИЕ"
  const CharacteristicWord: string := "ХАРАКТЕРИСТИК"
  /** The header name the plain-row branch tests for. */
  const PlainHeader: string := NameWord + " " + CharacteristicWord + "И"

  /** A header row: its stripped, upper-cased first cell names both header words. */
  predicate IsHeaderText(text: string) {
    Contains(Upper(Strip(text)), NameWord) && Contains(Upper(Strip(text)), CharacteristicWord)
  }

  datatype RowKind =
    | Skip            // fewer than two cells, or a header row
    | Invalid         // a `rowspan` that `int` rejects: the `ValueError` ends the parse
    | Plain           // no spanning first cell
    | Group(span: nat) // a first cell spanning `span` >= 1 rows

  /** The tests of the loop body, in their order: row length, header text, then `rowspan`. */
  function Classify(row: Row): (k: RowKind)
    ensures k.Group? ==> |row| >= 2 && k.span >= 1
  {
    if |row| < 2 || IsHeaderText(row[0].text) then Skip
    else if !Truthy(row[0].rowspan) then Plain
    else match ParseInt(row[0].rowspan.value)
      case None => Invalid
      case Some(n) => if n >= 1 then Group(n) else Plain
  }

  /** The loop's variables other than the row index. */
  datatype State = State(
    out: seq<Characteristic>, nextId: int,
    name: Option<string>, unit: Option<string>, instruction: Option<string>, values: seq<string>)

  const Start: State := State([], 1, None, None, None, [])

  /** The record a finished group becomes. */
  function GroupCharacteristic(id: int, name: string, values: seq<string>, unit: Option<string>, instruction: Option<string>): Characteristic {
    Characteristic(id, name, Join(values, ", "), unit,
      CharacteristicType(instruction.GetOr([])), true, Changeable(instruction.GetOr([])), instruction)
  }

  /** The record a plain row of four cells or more becomes. */
  function PlainCharacteristic(id: int, row: Row): Characteristic
    requires |row| >= 4
  {
    var instruction := Strip(row[3].text);
    Characteristic(id, Strip(row[0].text), Strip(row[1].text), NonEmpty(Strip(row[2].text)),
      CharacteristicType(instruction), true, Changeable(instruction), NonEmpty(instruction))
  }

  /** There is a group to emit: a non-empty name and at least one value. */
  predicate Pending(st: State) {
    st.name.Some? && st.name.value != [] && st.values != []
  }

  /** Emitting the pending group, if any. */
  function Flush(st: State): State {
    if Pending(st) then
      st.(out := st.out + [GroupCharacteristic(st.nextId, st.name.value, st.values, st.unit, st.instruction)],
          nextId := st.nextId + 1)
    else st
  }

  /** A plain row: one record, unless the row is short or is the header. */
  function EmitPlain(st: State, row: Row): State {
    if |row| >= 4 && Upper(Strip(row[0].text)) != PlainHeader then
      st.(out := st.out + [PlainCharacteristic(st.nextId, row)], nextId := st.nextId + 1)
    else st
  }

  /** What a row spanned by a group adds to it: its stripped first cell, when there is one and it is not empty. */
  function FirstCellValue(row: Row): seq<string> {
    if row != [] && Strip(row[0].text) != [] then [Strip(row[0].text)] else []
  }

  /** `[r[0].text.strip() for r in rs if r and r[0].text.strip()]`. */
  function FirstCellValues(rs: seq<Row>): (r: seq<string>)
    ensures |r| <= |rs|
    ensures forall k | 0 <= k < |r| :: r[k] != []
  {
    if rs == [] then [] else FirstCellValue(rs[0]) + FirstCellValues(rs[1..])
  }

  /** The end of the rows below row `i` that a span of `n` covers: the table may end first. */
  function SpanEnd(rows: seq<Row>, i: nat, n: nat): nat {
    if i + n < |rows| then i + n else |rows|
  }

  /** The values the rows below row `i` add to the group it opens with a span of `n`. */
  function SpannedValues(rows: seq<Row>, i: nat, n: nat): seq<string>
    requires i < |rows| && n >= 1
  {
    FirstCellValues(rows[i + 1..SpanEnd(rows, i, n)])
  }

  /** A group's unit: its own unit cell when that cell carries `rowspan`, else the previous group's. */
  function GroupUnit(row: Row, previous: Option<string>): Option<string> {
    if |row| > 2 && Truthy(row[2].rowspan) then NonEmpty(Strip(row[2].text)) else previous
  }

  /** A group's instruction: its own instruction cell when that cell carries `rowspan`, else the previous group's. */
  function GroupInstruction(row: Row, previous: Option<string>): Option<string> {
    if |row| > 3 && Truthy(row[3].rowspan) then Some(Strip(row[3].text)) else previous
  }

  /** Opening the group of `row`, after the previous one was flushed. */
  function OpenGroup(st: State, row: Row, more: seq<string>): State
    requires |row| >= 2
  {
    State(st.out, st.nextId, Some(Strip(row[0].text)), GroupUnit(row, st.unit), GroupInstruction(row, st.instruction),
      [Strip(row[1].text)] + more)
  }

  /** The loop from row `i` on, in state `st`, and the final flush. */
  function Run(rows: seq<Row>, i: nat, st: State): seq<Characteristic>
    decreases |rows| - i, 1
  {
    if i >= |rows| then Flush(st).out
    else match Classify(rows[i])
      case Skip => Run(rows, i + 1, st)
      case Invalid => st.out
      case Plain => Run(rows, i + 1, EmitPlain(st, rows[i]))
      case Group(n) => RunAfterGroup(rows, i, n, st)
  }

  /** The loop after the group that row `i` opens, `n` rows high: it goes on below the span. */
  function RunAfterGroup(rows: seq<Row>, i: nat, n: nat, st: State): seq<Characteristic>
    requires i < |rows| && |rows[i]| >= 2 && n >= 1
    decreases |rows| - i, 0
  {
    Run(rows, i + n, OpenGroup(Flush(st), rows[i], SpannedValues(rows, i, n)))
  }

  /** `parse_characteristics_from_table`, as a function of the rows. */
  function ParseTable(rows: seq<Row>): seq<Characteristic> {
    Run(rows, 0, Start)
  }

  /** One more row of the span adds its first-cell value, if it exists. */
  lemma SpannedValuesStep(rows: seq<Row>, i: nat, j: nat)
    requires i < |rows| && j >= 1
    ensures SpannedValues(rows, i, j + 1) ==
      SpannedValues(rows, i, j) + (if i + j < |rows| then FirstCellValue(rows[i + j]) else [])
  {
    if i + j < |rows| {
      assert rows[i + 1..i + j + 1] == rows[i + 1..i + j] + [rows[i + j]];
      FirstCellValuesAppend(rows[i + 1..i + j], rows[i + j]);
    }
  }

  // One step of the loop, for each kind of row: `Run` before the row and after it agree.

  lemma RunSkip(rows: seq<Row>, i: nat, st: State)
    requires i < |rows| && Classify(rows[i]) == Skip
    ensures Run(rows, i + 1, st) == Run(rows, i, st)
  {
  }

  lemma RunPlain(rows: seq<Row>, i: nat, st: State, next: State)
    requires i < |rows| && Classify(rows[i]) == Plain && next == EmitPlain(st, rows[i])
    ensures Run(rows, i + 1, next) == Run(rows, i, st)
  {
  }

  lemma RunGroup(rows: seq<Row>, i: nat, st: State, n: nat, next: State)
    requires i < |rows| && Classify(rows[i]) == Group(n)
    requires next == OpenGroup(Flush(st), rows[i], SpannedValues(rows, i, n))
    ensures Run(rows, i + n, next) == Run(rows, i, st)
  {
    assert Run(rows, i, st) == RunAfterGroup(rows, i, n, st);
  }

  /** Concatenation regroups freely. */
  lemma AppendAssoc<T>(a: seq<T>, b: seq<T>, c: seq<T>)
    ensures a + b + c == a + (b + c)
  {
  }

  /**
   * The inner `for j in range(1, rowspan_count)` loop: appends to `values` the non-empty first cells
   * of the rows the group spans below row `i`.
   */
  method CollectGroupValues(rows: seq<Row>, i: nat, rowspanCount: nat, values: seq<string>) returns (r: seq<string>)
    requires i < |rows| && rowspanCount >= 1
    ensures r == values + SpannedValues(rows, i, rowspanCount)
  {
    r := values;
    assert SpannedValues(rows, i, 1) == [];
    for j := 1 to rowspanCount
      invariant r == values + SpannedValues(rows, i, j)
    {
      ghost var before := r;
      if i + j < |rows| {
        var nextCells := rows[i + j];
        if nextCells != [] {
          var valueText := Strip(nextCells[0].text);
          if valueText != [] {
            r := r + [valueText];
          }
        }
      }
      assert r == before + (if i + j < |rows| then FirstCellValue(rows[i + j]) else []);
      SpannedValuesGrow(rows, i, j, values, before);
    }
  }

  /** The values collected so far, and the next row's first cell: the values of a span one row longer. */
  lemma SpannedValuesGrow(rows: seq<Row>, i: nat, j: nat, values: seq<string>, r: seq<string>)
    requires i < |rows| && j >= 1 && r == values + SpannedValues(rows, i, j)
    ensures r + (if i + j < |rows| then FirstCellValue(rows[i + j]) else []) == values + SpannedValues(rows, i, j + 1)
  {
    SpannedValuesStep(rows, i, j);
    AppendAssoc(values, SpannedValues(rows, i, j), if i + j < |rows| then FirstCellValue(rows[i + j]) else []);
  }

  /** Emitting the pending group (the same code closes a group in the loop and after it). */
  method SavePending(
    characteristics: seq<Characteristic>, charId: int,
    currentName: Option<string>, currentUnit: Option<string>, currentInstruction: Option<string>, currentValues: seq<string>)
    returns (newCharacteristics: seq<Characteristic>, newCharId: int)
    ensures State(newCharacteristics, newCharId, currentName, currentUnit, currentInstruction, currentValues)
      == Flush(State(characteristics, charId, currentName, currentUnit, currentInstruction, currentValues))
  {
    newCharacteristics, newCharId := characteristics, charId;
    if currentName.Some? && currentName.value != [] && currentValues != [] {
      var combinedValue := Join(currentValues, ", ");
      var instruction := currentInstruction.GetOr([]);
      newCharacteristics := characteristics + [Characteristic(newCharId, currentName.value, combinedValue,
        currentUnit, CharacteristicType(instruction), true, Changeable(instruction), currentInstruction)];
      newCharId := charId + 1;
    }
  }

  /** A row without a spanning first cell: one record when it has four cells and is not the header. */
  method AddPlainRow(ghost st: State, cells: Row, characteristics: seq<Characteristic>, charId: int)
    returns (newCharacteristics: seq<Characteristic>, newCharId: int)
    requires st.out == characteristics && st.nextId == charId
    ensures State(newCharacteristics, newCharId, st.name, st.unit, st.instruction, st.values) == EmitPlain(st, cells)
  {
    newCharacteristics, newCharId := characteristics, charId;
    if |cells| >= 4 {
      var name := Strip(cells[0].text);
      var value := Strip(cells[1].text);
      var unit := NonEmpty(Strip(cells[2].text));
      var instruction := Strip(cells[3].text);
      if Upper(name) == PlainHeader {
        return;
      }
      newCharacteristics := characteristics + [Characteristic(charId, name, value, unit,
        CharacteristicType(instruction), true, Changeable(instruction), NonEmpty(instruction))];
      newCharId := charId + 1;
    }
  }

  /**
   * A row whose first cell spans `rowspanCount` >= 1 rows: the pending group is emitted, the
   * row's group becomes the pending one, with the values of the rows it spans, and `next` is the
   * row after the span.
   */
  method OpenGroupRow(
    rows: seq<Row>, i: nat, rowspanCount: nat,
    characteristics: seq<Characteristic>, charId: int,
    currentName: Option<string>, currentUnit: Option<string>, currentInstruction: Option<string>, currentValues: seq<string>)
    returns (
      newCharacteristics: seq<Characteristic>, newCharId: int,
      name: Option<string>, unit: Option<string>, instruction: Option<string>, values: seq<string>,
      next: nat)
    requires i < |rows| && |rows[i]| >= 2 && rowspanCount >= 1
    ensures next == i + rowspanCount
    ensures State(newCharacteristics, newCharId, name, unit, instruction, values)
      == OpenGroup(Flush(State(characteristics, charId, currentName, currentUnit, currentInstruction, currentValues)),
                   rows[i], SpannedValues(rows, i, rowspanCount))
  {
    newCharacteristics, newCharId :=
      SavePending(characteristics, charId, currentName, currentUnit, currentInstruction, currentValues);
    ghost var flushed := Flush(State(characteristics, charId, currentName, currentUnit, currentInstruction, currentValues));
    assert flushed.out == newCharacteristics && flushed.nextId == newCharId;
    assert flushed.unit == currentUnit && flushed.instruction == currentInstruction;
    var cells := rows[i];
    name := Some(Strip(cells[0].text));
    values := [Strip(cells[1].text)];
    unit, instruction := currentUnit, currentInstruction;
    if |cells| > 2 {
      if Truthy(cells[2].rowspan) {
        unit := NonEmpty(Strip(cells[2].text));
      }
      if |cells| > 3 && Truthy(cells[3].rowspan) {
        instruction := Some(Strip(cells[3].text));
      }
    }
    if rowspanCount > 1 {
      values := CollectGroupValues(rows, i, rowspanCount, values);
      next := i + rowspanCount;
    } else {
      assert SpannedValues(rows, i, rowspanCount) == [];
      next := i + 1;
    }
    assert unit == GroupUnit(cells, currentUnit) && instruction == GroupInstruction(cells, currentInstruction);
    assert values == [Strip(cells[1].text)] + SpannedValues(rows, i, rowspanCount);
  }

  /** `parse_characteristics_from_table`. */
  method ParseCharacteristicsFromTable(rows: seq<Row>) returns (characteristics: seq<Characteristic>)
    ensures characteristics == ParseTable(rows)
  {
    characteristics := [];
    var charId := 1;
    var currentName: Option<string> := None;
    var currentUnit: Option<string> := None;
    var currentInstruction: Option<string> := None;
    var currentValues: seq<string> := [];
    var i: nat := 0;
    while i < |rows|
      invariant Run(rows, i, State(characteristics, charId, currentName, currentUnit, currentInstruction, currentValues))
        == ParseTable(rows)
      decreases |rows| - i
    {
      ghost var st := State(characteristics, charId, currentName, currentUnit, currentInstruction, currentValues);
      var cells := rows[i];
      match Classify(cells)
      case Skip =>
        RunSkip(rows, i, st);
        i := i + 1;
      case Invalid =>
        // `int(rowspan)` raises; the handler returns what was emitted so far
        return;
      case Plain =>
        characteristics, charId := AddPlainRow(st, cells, characteristics, charId);
        RunPlain(rows, i, st, State(characteristics, charId, currentName, currentUnit, currentInstruction, currentValues));
        i := i + 1;
      case Group(rowspanCount) =>
        var next;
        characteristics, charId, currentName, currentUnit, currentInstruction, currentValues, next :=
          OpenGroupRow(rows, i, rowspanCount,
            characteristics, charId, currentName, currentUnit, currentInstruction, currentValues);
        RunGroup(rows, i, st, rowspanCount,
          State(characteristics, charId, currentName, currentUnit, currentInstruction, currentValues));
        i := next;
    }
    characteristics, charId :=
      SavePending(characteristics, charId, currentName, currentUnit, currentInstruction, currentValues);
  }

  // ---------------------------------------------------------------------------------------------
  // Properties of the table parse

  /** The tests of the loop body, stated case by case. */
  lemma ClassifyMeans(row: Row)
    ensures Classify(row) == Skip <==> |row| < 2 || IsHeaderText(row[0].text)
    ensures Classify(row) == Invalid <==>
      |row| >= 2 && !IsHeaderText(row[0].text) && Truthy(row[0].rowspan) && ParseInt(row[0].rowspan.value).None?
    ensures Classify(row).Group? <==>
      && |row| >= 2 && !IsHeaderText(row[0].text) && Truthy(row[0].rowspan)
      && ParseInt(row[0].rowspan.value).Some? && ParseInt(row[0].rowspan.value).value >= 1
    ensures Classify(row).Group? ==> ParseInt(row[0].rowspan.value) == Some(Classify(row).span as int)
  {
  }

  /** The header test of the plain-row branch never fires: such a row is already skipped as a header. */
  lemma PlainHeaderCheckRedundant(row: Row)
    requires |row| >= 2 && Upper(Strip(row[0].text)) == PlainHeader
    ensures Classify(row) == Skip
  {
    assert PlainHeader[..|NameWord|] == NameWord;
    assert OccursAt(PlainHeader, NameWord, 0);
    assert PlainHeader[|NameWord| + 1..|NameWord| + 1 + |CharacteristicWord|] == CharacteristicWord;
    assert OccursAt(PlainHeader, CharacteristicWord, |NameWord| + 1);
  }

  lemma {:induction false} FirstCellValuesAppend(rs: seq<Row>, row: Row)
    ensures FirstCellValues(rs + [row]) == FirstCellValues(rs) + FirstCellValue(row)
  {
    if rs != [] {
      assert (rs + [row])[1..] == rs[1..] + [row];
      FirstCellValuesAppend(rs[1..], row);
    }
  }

  /** Each record is in line with its instruction: required, and typed and flagged from it. */
  predicate Consistent(c: Characteristic) {
    && c.required
    && c.charType == CharacteristicType(c.fillInstruction.GetOr([]))
    && c.changeable == Changeable(c.fillInstruction.GetOr([]))
  }

  /** Records numbered 1, 2, 3, ... in order, each consistent. */
  predicate Numbered(out: seq<Characteristic>) {
    forall k | 0 <= k < |out| :: out[k].id == k + 1 && Consistent(out[k])
  }

  predicate NumberedState(st: State) {
    st.nextId == |st.out| + 1 && Numbered(st.out)
  }

  lemma FlushNumbered(st: State)
    requires NumberedState(st)
    ensures NumberedState(Flush(st))
  {
    if Pending(st) {
      var c := GroupCharacteristic(st.nextId, st.name.value, st.values, st.unit, st.instruction);
      assert Flush(st).out == st.out + [c];
    }
  }

  lemma EmitPlainNumbered(st: State, row: Row)
    requires NumberedState(st)
    ensures NumberedState(EmitPlain(st, row))
  {
    if |row| >= 4 && Upper(Strip(row[0].text)) != PlainHeader {
      var c := PlainCharacteristic(st.nextId, row);
      assert c.fillInstruction.GetOr([]) == Strip(row[3].text);
      assert EmitPlain(st, row).out == st.out + [c];
    }
  }

  lemma {:induction false} RunNumbered(rows: seq<Row>, i: nat, st: State)
    requires NumberedState(st)
    ensures Numbered(Run(rows, i, st))
    decreases |rows| - i
  {
    if i >= |rows| {
      FlushNumbered(st);
    } else {
      match Classify(rows[i])
      case Skip => RunNumbered(rows, i + 1, st);
      case Invalid =>
      case Plain =>
        EmitPlainNumbered(st, rows[i]);
        RunNumbered(rows, i + 1, EmitPlain(st, rows[i]));
      case Group(n) =>
        FlushNumbered(st);
        RunNumbered(rows, i + n, OpenGroup(Flush(st), rows[i], SpannedValues(rows, i, n)));
    }
  }

  /**
   * The ids of the parsed characteristics are 1, 2, 3, ... in output order; every one is
   * required, and its type and changeability are those its fill instruction gives.
   */
  lemma ParseTableNumbered(rows: seq<Row>)
    ensures var r := ParseTable(rows);
      forall k | 0 <= k < |r| ::
        && r[k].id == k + 1 && r[k].required
        && r[k].charType == CharacteristicType(r[k].fillInstruction.GetOr([]))
        && r[k].changeable == Changeable(r[k].fillInstruction.GetOr([]))
  {
    RunNumbered(rows, 0, Start);
  }

  /**
   * A group whose first cell spans the rest of the table: one characteristic, valued by its
   * second cell and the non-empty first cells of the rows below, joined by ", ".
   */
  lemma GroupSpanningTable(rows: seq<Row>)
    requires rows != [] && Classify(rows[0]).Group? && Classify(rows[0]).span >= |rows|
    requires Strip(rows[0][0].text) != []
    ensures ParseTable(rows) == [GroupCharacteristic(1, Strip(rows[0][0].text),
      [Strip(rows[0][1].text)] + FirstCellValues(rows[1..]), GroupUnit(rows[0], None), GroupInstruction(rows[0], None))]
  {
    var n := Classify(rows[0]).span;
    assert rows[1..SpanEnd(rows, 0, n)] == rows[1..];
    var values := [Strip(rows[0][1].text)] + FirstCellValues(rows[1..]);
    var groupOpen := OpenGroup(Flush(Start), rows[0], SpannedValues(rows, 0, n));
    assert groupOpen == State([], 1, Some(Strip(rows[0][0].text)), GroupUnit(rows[0], None), GroupInstruction(rows[0], None), values);
    RunGroup(rows, 0, Start, n, groupOpen);
    assert Run(rows, n, groupOpen) == Flush(groupOpen).out;
  }

  /**
   * A plain row after a group is emitted before it: the group waits for the next group or the
   * end of the table.
   */
  lemma PlainRowPrecedesPendingGroup(g: Row, p: Row)
    requires Classify(g) == Group(1) && Strip(g[0].text) != []
    requires Classify(p) == Plain && |p| >= 4 && Upper(Strip(p[0].text)) != PlainHeader
    ensures ParseTable([g, p]) == [
      PlainCharacteristic(1, p),
      GroupCharacteristic(2, Strip(g[0].text), [Strip(g[1].text)], GroupUnit(g, None), GroupInstruction(g, None))]
  {
    var rows := [g, p];
    var groupOpen := OpenGroup(Start, g, []);
    LeadingSingleGroup(rows);
    var emitted := EmitPlain(groupOpen, p);
    assert rows[1] == p;
    RunPlain(rows, 1, groupOpen, emitted);
    RunEnd(rows, emitted);
    GroupFlushedAfterPlain(g, p);
  }

  /** The records once the plain row is emitted and the group flushed at the end. */
  lemma GroupFlushedAfterPlain(g: Row, p: Row)
    requires |g| >= 2 && Strip(g[0].text) != []
    requires |p| >= 4 && Upper(Strip(p[0].text)) != PlainHeader
    ensures Flush(EmitPlain(OpenGroup(Start, g, []), p)).out == [
      PlainCharacteristic(1, p),
      GroupCharacteristic(2, Strip(g[0].text), [Strip(g[1].text)], GroupUnit(g, None), GroupInstruction(g, None))]
  {
    var pc := PlainCharacteristic(1, p);
    var gc := GroupCharacteristic(2, Strip(g[0].text), [Strip(g[1].text)], GroupUnit(g, None), GroupInstruction(g, None));
    var open := OpenGroup(Start, g, []);
    EmitPlainAppends(open, p);
    var emitted := EmitPlain(open, p);
    assert emitted.out == [] + [pc] == [pc];
    assert Flush(emitted).out == [pc] + [gc];
  }

  /** A plain row that is neither short nor the header adds its record and nothing else. */
  lemma EmitPlainAppends(st: State, p: Row)
    requires |p| >= 4 && Upper(Strip(p[0].text)) != PlainHeader
    ensures EmitPlain(st, p) == st.(out := st.out + [PlainCharacteristic(st.nextId, p)], nextId := st.nextId + 1)
  {
  }

  lemma RunEnd(rows: seq<Row>, st: State)
    ensures Run(rows, |rows|, st) == Flush(st).out
  {
  }

  /** A table opening with a one-row group continues after it with that group open. */
  lemma LeadingSingleGroup(rows: seq<Row>)
    requires |rows| >= 1 && Classify(rows[0]) == Group(1)
    ensures ParseTable(rows) == Run(rows, 1, OpenGroup(Start, rows[0], []))
  {
    assert SpannedValues(rows, 0, 1) == [];
    assert Flush(Start) == Start;
    RunGroup(rows, 0, Start, 1, OpenGroup(Start, rows[0], []));
  }

  /**
   * A group without its own `rowspan` unit or instruction cell takes them from the group before;
   * with one, it takes its own.
   */
  lemma UnitAndInstructionCarryOver(g1: Row, g2: Row)
    requires Classify(g1) == Group(1) && Strip(g1[0].text) != []
    requires Classify(g2) == Group(1) && Strip(g2[0].text) != []
    ensures var r := ParseTable([g1, g2]);
      && |r| == 2
      && (if |g2| > 2 && Truthy(g2[2].rowspan) then r[1].unit == NonEmpty(Strip(g2[2].text)) else r[1].unit == r[0].unit)
      && (if |g2| > 3 && Truthy(g2[3].rowspan) then r[1].fillInstruction == Some(Strip(g2[3].text))
          else r[1].fillInstruction == r[0].fillInstruction)
  {
    var rows := [g1, g2];
    LeadingSingleGroup(rows);
    var first := OpenGroup(Start, g1, []);
    assert rows[1] == g2;
    assert SpannedValues(rows, 1, 1) == [];
    var second := OpenGroup(Flush(first), g2, []);
    RunGroup(rows, 1, first, 1, second);
    RunEnd(rows, second);
    TwoGroupsFlushed(g1, g2);
  }

  /** The records of two one-row groups, each flushed in turn. */
  lemma TwoGroupsFlushed(g1: Row, g2: Row)
    requires |g1| >= 2 && Strip(g1[0].text) != []
    requires |g2| >= 2 && Strip(g2[0].text) != []
    ensures var first := OpenGroup(Start, g1, []);
      var r := Flush(OpenGroup(Flush(first), g2, [])).out;
      && |r| == 2
      && r[0] == GroupCharacteristic(1, Strip(g1[0].text), [Strip(g1[1].text)], first.unit, first.instruction)
      && r[1] == GroupCharacteristic(2, Strip(g2[0].text), [Strip(g2[1].text)], GroupUnit(g2, first.unit), GroupInstruction(g2, first.instruction))
  {
    var first := OpenGroup(Start, g1, []);
    var c1 := GroupCharacteristic(1, Strip(g1[0].text), [Strip(g1[1].text)], first.unit, first.instruction);
    assert Flush(first).out == [] + [c1] == [c1];
    var second := OpenGroup(Flush(first), g2, []);
    assert second.out == [c1] && second.nextId == 2;
  }

  /**
   * A `rowspan` that is not a number ends the parse: the group still pending is lost, and so is
   * everything after the row.
   */
  lemma InvalidRowspanDropsPendingGroup(g: Row, b: Row, rest: seq<Row>)
    requires Classify(g) == Group(1) && Strip(g[0].text) != []
    requires Classify(b) == Invalid
    ensures ParseTable([g, b] + rest) == []
  {
    var rows := [g, b] + rest;
    assert rows[0] == g && rows[1] == b;
    var groupOpen := OpenGroup(Flush(Start), g, SpannedValues(rows, 0, 1));
    RunGroup(rows, 0, Start, 1, groupOpen);
    assert Run(rows, 1, groupOpen) == groupOpen.out;
  }

  /** A row that emits nothing by itself: too short, a header, or a plain row of two or three cells. */
  predicate Silent(row: Row) {
    Classify(row) == Skip || (Classify(row) == Plain && |row| < 4)
  }

  lemma {:induction false} RunSilent(rows: seq<Row>, i: nat)
    requires forall k | i <= k < |rows| :: Silent(rows[k])
    ensures Run(rows, i, Start) == []
    decreases |rows| - i
  {
    if i < |rows| {
      RunSilent(rows, i + 1);
    }
  }

  /** A table of silent rows gives no characteristics. */
  lemma SilentRowsEmitNothing(rows: seq<Row>)
    requires forall k | 0 <= k < |rows| :: Silent(rows[k])
    ensures ParseTable(rows) == []
  {
    RunSilent(rows, 0);
  }

  /** A plain row that is emitted: four cells or more, and not the header name. */
  predicate Emitting(row: Row) {
    Classify(row) == Plain && |row| >= 4 && Upper(Strip(row[0].text)) != PlainHeader
  }

  /** The records of the first `i` rows, each a plain record numbered by its row. */
  predicate PlainPrefix(out: seq<Characteristic>, rows: seq<Row>, i: nat) {
    && |out| == i <= |rows|
    && forall k | 0 <= k < i :: |rows[k]| >= 4 && out[k] == PlainCharacteristic(k + 1, rows[k])
  }

  lemma PlainPrefixStep(st: State, rows: seq<Row>, i: nat)
    requires i < |rows| && |rows[i]| >= 4 && Emitting(rows[i])
    requires st.nextId == i + 1 && PlainPrefix(st.out, rows, i)
    ensures EmitPlain(st, rows[i]) == st.(out := st.out + [PlainCharacteristic(i + 1, rows[i])], nextId := i + 2)
    ensures PlainPrefix(EmitPlain(st, rows[i]).out, rows, i + 1)
  {
  }

  lemma {:induction false} RunEmitting(rows: seq<Row>, i: nat, st: State)
    requires forall k | 0 <= k < |rows| :: |rows[k]| >= 4 && Emitting(rows[k])
    requires st.name.None? && st.nextId == i + 1 && PlainPrefix(st.out, rows, i)
    ensures PlainPrefix(Run(rows, i, st), rows, |rows|)
    decreases |rows| - i
  {
    if i < |rows| {
      PlainPrefixStep(st, rows, i);
      var next := EmitPlain(st, rows[i]);
      RunPlain(rows, i, st, next);
      RunEmitting(rows, i + 1, next);
    } else {
      assert Run(rows, i, st) == st.out;
    }
  }

  /** A table of plain rows gives one characteristic per row, in row order. */
  lemma PlainRowsOnePerRow(rows: seq<Row>)
    requires forall k | 0 <= k < |rows| :: |rows[k]| >= 4 && Emitting(rows[k])
    ensures var r := ParseTable(rows);
      |r| == |rows| && forall k | 0 <= k < |rows| :: r[k] == PlainCharacteristic(k + 1, rows[k])
  {
    RunEmitting(rows, 0, Start);
  }
}
