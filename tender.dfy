/**
 * The tender record (app/schemas/tender.py) as the stores see it: `model_dump()` turns it into a
 * document, a map from field names to JSON-like values.
 */
module Tender {
  import opened Wrappers

  datatype Json =
    | JNull
    | JStr(s: string)
    | JNum(n: int)
    | JBool(b: bool)
    | JArr(elems: seq<Json>)
    | JObj(fields: map<string, Json>)

  /** A stored document: its top-level fields. */
  type Doc = map<string, Json>

  const TenderInfoField: string := "tenderInfo"
  const TenderNumberField: string := "tenderNumber"

  /**
   * `TenderData`: the tender information (whose number is kept apart from its other fields),
   * the items (which the schema lets be `None`), the general requirements and the attachments.
   */
  datatype TenderData = TenderData(
    info: Doc,
    tenderNumber: string,
    items: Option<seq<Json>>,
    generalRequirements: Json,
    attachments: seq<Json>)

  /** `TenderData.model_dump()`. */
  function ModelDump(d: TenderData): (doc: Doc)
    ensures TenderInfoField in doc && doc[TenderInfoField].JObj?
  {
    map[
      TenderInfoField := JObj(d.info[TenderNumberField := JStr(d.tenderNumber)]),
      "items" := (match d.items case Some(items) => JArr(items) case None => JNull),
      "generalRequirements" := d.generalRequirements,
      "attachments" := JArr(d.attachments)]
  }

  /**
   * The value at `tenderInfo.tenderNumber`, or `None` when `data["tenderInfo"]["tenderNumber"]`
   * would raise.
   */
  function TenderKey(doc: Doc): (r: Option<Json>)
    ensures r.Some? <==>
      TenderInfoField in doc && doc[TenderInfoField].JObj? && TenderNumberField in doc[TenderInfoField].fields
  {
    if TenderInfoField in doc && doc[TenderInfoField].JObj? && TenderNumberField in doc[TenderInfoField].fields
    then Some(doc[TenderInfoField].fields[TenderNumberField])
    else None
  }

  /** A dumped tender is keyed by its own number. */
  lemma ModelDumpKey(d: TenderData)
    ensures TenderKey(ModelDump(d)) == Some(JStr(d.tenderNumber))
  {
  }
}
