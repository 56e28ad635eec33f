# Tender parser API: a Dafny model of its core

The service takes the address of a tender notice on the Russian public procurement portal and
extracts the tender as structured data: line items with their characteristics, classifier
codes, payment terms and attachments. It runs each extraction as a background task, saves the
result in a document store, and lets clients poll the task.

This project models the parts of the service that hold logic of their own, and proves
properties of that model.

- **Task life cycle** (`task_manager.dfy`, module `TaskManagement`). The in-memory task table
  of `TaskManager` is a class over a `map`. Its operations are: creating a pending task; a run
  in three steps (the processing mark, then the completion with a summary or the failure with
  the error, with other operations free to run in between); the status and result views;
  eviction of old finished tasks; deletion by the API endpoint.
- **Task store** (`task_repository.dfy`, module `TaskStore`). `TaskRepository` is a class over
  the sequence of stored task documents. Its updates are `$set` on the first document with the
  task id. Its loops cover the active-task query, deletion of old tasks, and per-status counts.
- **Tender store** (`repository.dfy`, module `Repository`). `TenderRepository` is a class over
  the sequence of stored tender documents. `save` is an upsert keyed by the tender number,
  alongside the lookup by number and deletion by id. `tender.dfy` (module `Tender`) gives the
  tender record and its `model_dump()` document. `api.dfy` (module `Api`) gives the task
  status enumeration and the two task views.
- **Characteristics table** (`characteristics.dfy`, module `Characteristics`). The `while` loop
  of `parse_characteristics_from_table` turns table rows into characteristics: rowspan groups,
  plain rows, header rows and `int(rowspan)`. The loop method is proved equal to a recursive
  definition, `ParseTable`. The properties are proved about that definition: numbering,
  grouping, the order of emission, and carry-over of unit and instruction.
- **Medicine variant table** (`medicine_parsers.dfy`, module `MedicineParsers`). It covers the
  row loop of `parse_variant_table`, `parse_alternative_variant`, and the filter loop of
  `add_alternatives_to_characteristics`.
- **Form and dosage** (`medicine_utils.dfy`, module `MedicineUtils`): `parse_medical_info`. The
  dosage regular expression is a deterministic matcher, proved to agree with the pattern read
  as a grammar.
- **Classifier codes** (`codes.dfy`, module `Codes`): OKPD2 and KTRU extraction as leftmost
  matches.
- **Text cleaning** (`validator.dfy`, module `Validator`): `clean_text`.
- **Documents address and attachment name** (`documents_info.dfy`, module `DocumentsInfo`).
- **Tender number** (`tender_number.dfy`, module `TenderNumber`): the text after the last `№`.
- **Payment method** (`payment_method.dfy`, module `PaymentMethod`): the keyword rule shared by
  the paste and html parsers.
- **Shared pieces.** `text.dfy` (module `Text`) defines the Python string operations the core
  uses: `strip`, `split`, `join`, `lower`/`upper`, `replace`, `' '.join(s.split())`, `\s+`
  collapsing, and leftmost search. `wrappers.dfy` (module `Wrappers`) defines `Option` and
  `Result`.

Modelling conventions:

- Times are whole seconds, and the current time is a parameter.
- Fresh task ids and fresh store ids are parameters that must be unused. They stand in for
  `uuid4` and the database's ObjectId.
- A store collection is a sequence in insertion order. `find_one` and `update_one` act on the
  first matching document.
- Page elements are plain values. A table row is its cells, and a cell is its text and its
  `rowspan` attribute.

## Model

| member | source | states |
|---|---|---|
| Api.StatusValue | app/schemas/api.py:7-11 | every status is stored as a non-empty string |
| Api.StatusValueInjective | app/schemas/api.py:7-11 | two statuses have the same stored string exactly when they are the same status |
| Tender.ModelDump | app/schemas/tender.py:10-18 | the dumped tender has a `tenderInfo` object |
| Tender.TenderKey | app/repository/repository.py:59 | a tender number is found exactly when `data["tenderInfo"]["tenderNumber"]` exists, i.e. when the lookup would not raise |
| Tender.ModelDumpKey | app/repository/repository.py:59 | a dumped tender is keyed by its own tender number |
| TaskManagement.RunOutcome | app/services/task_manager.py:75-87 | the run succeeds exactly when the parse succeeded and items are present. The summary then carries the store id, the tender number, `items_count` = number of items, `documents_count` = number of attachments, and the dump. A parse error is passed through unchanged |
| TaskManagement.NewTaskInvariant | app/services/task_manager.py:39-49 | a new task is pending and has no result, completion time or processing time |
| TaskManagement.ProcessedMovesForward | app/services/task_manager.py:60-113 | a run takes a pending task to completed exactly when there is a summary, which it stores. Otherwise the task goes to failed with the error and its result untouched. Either way the task is finished at `now` with processing time `now - start`, and url, creation time and metadata are kept |
| TaskManagement.CleanedKeepsUnexpired | app/services/task_manager.py:166-180 | a task survives cleanup exactly when it is not older than `hours` since completion. Survivors are unchanged, and every pending or processing task survives |
| TaskManagement.MarkShowsProcessing | app/services/task_manager.py:66 | after the mark a pending task shows processing, with no result, completion time or processing time yet; no other entry changes and the table stays well-formed |
| TaskManagement.FinalizedIsTerminal | app/services/task_manager.py:89-113 | the final record, from whatever state the task is in, is finished at `now` and well-formed: completed with the summary exactly on success, otherwise failed with the message and the result kept |
| TaskManagement.RunRecordsProcessed | app/services/task_manager.py:60-113 | with nothing in between, the mark followed by the final record is the whole run `Processed` |
| TaskManagement.DeletedMidRunLeavesNoRecord | app/services/task_manager.py:89-113 | a task deleted between the mark and the final update gets no record: the table is the one before the run, without the task |
| TaskManagement.ReplaceTwice | app/services/task_manager.py:89-97 | the finishing update overrides the processing mark, and it keeps every task in the table well-formed |
| TaskManagement.TaskManager.constructor | app/services/task_manager.py:29-32 | the table starts empty |
| TaskManagement.TaskManager.CreateTask | app/services/task_manager.py:34-58 | exactly one new entry, pending, under the fresh id; all other entries unchanged; the id is returned |
| TaskManagement.TaskManager.UpdateTaskStatus | app/services/task_manager.py:115-120 | a present task gets only a new status and update time; for an absent id nothing changes |
| TaskManagement.TaskManager.StartProcessing | app/services/task_manager.py:62-70 | the run goes on exactly when the task is present, and then only its status (processing) and update time change. For an absent task nothing changes. A pending task leaves the table well-formed |
| TaskManagement.TaskManager.FailRun | app/services/task_manager.py:102-113 | a present task becomes failed with the message, finished at `now`; an absent one stays absent and nothing changes |
| TaskManagement.TaskManager.CompleteRun | app/services/task_manager.py:74-113 | a parsed tender is upserted into the store whether or not the task is still present. A present task then gets the summary of the saved tender, or fails with the parse error or the `len(None)` error; an absent task gets nothing. The table stays well-formed |
| TaskManagement.TaskManager.ProcessTask | app/services/task_manager.py:60-113 | a run with nothing in between: the task ends completed with the summary of the saved tender, or failed with the parse error. The tender store changes exactly by the upsert of the dump. A task that is absent stays absent and the store is untouched |
| TaskManagement.TaskManager.GetTaskStatus | app/services/task_manager.py:122-137 | `None` exactly for an unknown id; otherwise the task's fields, with `result_available` true exactly when the task is completed |
| TaskManagement.TaskManager.GetTaskResult | app/services/task_manager.py:139-164 | `None` exactly for an unknown id. An unfinished task gives no data, completion time or processing time. Data is given only for a completed task, and is then its result's data |
| TaskManagement.TaskManager.CleanupOldTasks | app/services/task_manager.py:166-183 | the loop collects and removes exactly the expired tasks (see `Cleaned`) |
| TaskManagement.TaskManager.DeleteTask | app/api/v1/endpoints/parser.py:65-75 | reports success exactly when the id was present; afterwards it is absent and nothing else changed |
| TaskStore.FirstTask | app/repository/task_repository.py:83-86 | the first document with the task id, or none when no document has it |
| TaskStore.UpdateFirstTouchesOne | app/repository/task_repository.py:41-44 | an update by task id changes the first matching document and no other document or id |
| TaskStore.StatusUpdateStamps | app/repository/task_repository.py:26-44 | `started_at` is set only for processing and `completed_at` only for completed/failed. The error is written only when a non-empty one is given, and the result is untouched |
| TaskStore.FinishingKeepsTheOtherOutcome | app/repository/task_repository.py:51-79 | failing keeps the result, completing keeps the error, and the two store different statuses |
| TaskStore.Active | app/repository/task_repository.py:88-97 | every listed document is pending or processing |
| TaskStore.ActiveMembers | app/repository/task_repository.py:88-97 | a document is listed exactly when it is stored and pending or processing |
| TaskStore.Retained | app/repository/task_repository.py:99-113 | no kept document is old |
| TaskStore.RetainedMembers | app/repository/task_repository.py:103-108 | a stored document survives exactly when it is not finished before the cutoff |
| TaskStore.UnfinishedNotOld | app/repository/task_repository.py:105-108 | pending, processing and recently finished documents are never deleted |
| TaskStore.RetainedOrder | app/repository/task_repository.py:103-108 | documents that survive deletion keep their relative order |
| TaskStore.RetainedDistinct | app/repository/task_repository.py:105-108 | deleting documents keeps store ids distinct |
| TaskStore.CountStatus | app/repository/task_repository.py:115-130 | a status count never exceeds the number of documents |
| TaskStore.TallyCounts | app/repository/task_repository.py:115-130 | a status appears in the statistics exactly when some document has it, with its document count |
| TaskStore.TotalRemove | app/repository/task_repository.py:115-130 | the sum of the counts is one status's count plus the sum of the rest |
| TaskStore.TallyTotal | app/repository/task_repository.py:115-130 | the per-status counts sum to the number of documents |
| TaskStore.TaskRepository.constructor | app/repository/task_repository.py:13-15 | the collection starts empty |
| TaskStore.TaskRepository.CreateTask | app/repository/task_repository.py:17-24 | appends exactly one document, with both times stamped, under the fresh id, which it returns |
| TaskStore.TaskRepository.UpdateTaskStatus | app/repository/task_repository.py:26-49 | the first document with the task id receives the status update; the rest are unchanged |
| TaskStore.TaskRepository.CompleteTask | app/repository/task_repository.py:51-65 | the first document with the task id becomes completed with the result, completion time and processing time |
| TaskStore.TaskRepository.FailTask | app/repository/task_repository.py:67-81 | the first document with the task id becomes failed with the error, completion time and processing time |
| TaskStore.TaskRepository.FindByTaskId | app/repository/task_repository.py:83-86 | finds a document exactly when one has the task id, and returns one with that id |
| TaskStore.TaskRepository.FindActiveTasks | app/repository/task_repository.py:88-97 | the loop returns the active documents in collection order |
| TaskStore.TaskRepository.DeleteOldTasks | app/repository/task_repository.py:99-113 | removes exactly the old documents, keeps the rest in order, and returns how many went |
| TaskStore.TaskRepository.GetTaskStats | app/repository/task_repository.py:115-130 | the loop returns the per-status counts |
| Repository.FirstWithKey | app/repository/repository.py:62 | the first document with the tender number, or none when there is none |
| Repository.FirstWithKeyAt | app/repository/repository.py:62 | the first match is at `i` when `i` matches and no earlier document does |
| Repository.IndexOfId | app/repository/repository.py:120 | the first document with the store id, or none when the id is unused |
| Repository.MergeKeepsKey | app/repository/repository.py:66-69 | `$set` with the dump gives the document the dump's tender number |
| Repository.SaveExisting | app/repository/repository.py:59-71 | with the number stored, that document gets every field of `data` and keeps its other fields. Its id is returned and the count is unchanged |
| Repository.SaveNew | app/repository/repository.py:72-75 | with an unseen number, exactly one document is appended under the fresh id, which is returned |
| Repository.SaveKeepsOthers | app/repository/repository.py:62-69 | documents with another tender number are unchanged |
| Repository.SaveKeepsUniqueNumbers | app/repository/repository.py:54-75 | at most one document per tender number before a save implies at most one after |
| Repository.SaveKeepsDistinctIds | app/repository/repository.py:54-75 | store ids stay distinct; the fresh id is added only when it is returned |
| Repository.RenewKeepsIds | app/repository/repository.py:66-69 | updating a document in place keeps every id |
| Repository.AppendFreshIds | app/repository/repository.py:73 | inserting under an unused id adds exactly that id |
| Repository.Lookup | app/repository/repository.py:86-94 | finds a document exactly when one has the number, and the one found has it |
| Repository.FindAfterSave | app/repository/repository.py:54-94 | after saving a tender, looking up its number finds a document carrying every field of its dump |
| Repository.DeleteRemovesId | app/repository/repository.py:117-124 | deletion removes exactly the given id and at most one document, keeping ids distinct |
| Repository.RemoveAtKeepsOthers | app/repository/repository.py:120 | dropping one document removes its id and no other |
| Repository.TenderRepository.constructor | app/repository/repository.py:50-52 | the collection starts empty |
| Repository.TenderRepository.Save | app/repository/repository.py:54-75 | the collection and the returned id are those of the upsert; store ids stay distinct |
| Repository.TenderRepository.FindByTenderNumber | app/repository/repository.py:92-94 | finds a document exactly when one has the number, and the one found has it |
| Repository.TenderRepository.Delete | app/repository/repository.py:117-124 | true exactly when the id was stored; afterwards it is not, and only that document went |
| Characteristics.CharacteristicType | app/parsers/tender_feature_parsers/items_features/characteristics.py:8-12 | quantitative exactly when the lower-cased instruction contains "конкретное значение", qualitative otherwise |
| Characteristics.Changeable | app/parsers/tender_feature_parsers/items_features/characteristics.py:15-21 | "не может изменяться" forces false; true exactly when only "указывает в заявке" occurs |
| Characteristics.Decimal | app/parsers/tender_feature_parsers/items_features/characteristics.py:54 | the decimal form of a number is a non-empty digit string |
| Characteristics.DecimalValue | app/parsers/tender_feature_parsers/items_features/characteristics.py:54 | the digits read back as the number |
| Characteristics.ParseIntDecimal | app/parsers/tender_feature_parsers/items_features/characteristics.py:95 | `int` reads back any decimal rowspan |
| Characteristics.ParseIntSigned | app/parsers/tender_feature_parsers/items_features/characteristics.py:95 | `int` accepts a leading `+` or `-` |
| Characteristics.SignedDecimalStripped | app/parsers/tender_feature_parsers/items_features/characteristics.py:54 | a signed digit string has nothing to strip |
| Characteristics.ParseIntRejects | app/parsers/tender_feature_parsers/items_features/characteristics.py:54 | a blank rowspan, or one with a non-digit after the optional sign, is rejected |
| Characteristics.Classify | app/parsers/tender_feature_parsers/items_features/characteristics.py:41-54 | a group row has at least two cells and a span of at least one |
| Characteristics.ClassifyMeans | app/parsers/tender_feature_parsers/items_features/characteristics.py:41-54 | skipped exactly when shorter than two cells or a header row. Invalid exactly when the rowspan is set but not a number. A group exactly when it is a number of at least one, which is then the span |
| Characteristics.PlainHeaderCheckRedundant | app/parsers/tender_feature_parsers/items_features/characteristics.py:120-122 | a row named "НАИМЕНОВАНИЕ ХАРАКТЕРИСТИКИ" is already skipped as a header, so this test never fires |
| Characteristics.FirstCellValues | app/parsers/tender_feature_parsers/items_features/characteristics.py:98-106 | at most one value per spanned row, none empty |
| Characteristics.FirstCellValuesAppend | app/parsers/tender_feature_parsers/items_features/characteristics.py:98-106 | one more row adds its own value after the others |
| Characteristics.SpannedValuesStep | app/parsers/tender_feature_parsers/items_features/characteristics.py:98-106 | one more step of the inner loop adds the next row's first cell, when that row exists |
| Characteristics.SpannedValuesGrow | app/parsers/tender_feature_parsers/items_features/characteristics.py:98-106 | the inner loop's value list after a step is the value list of a span one row longer |
| Characteristics.RunSkip | app/parsers/tender_feature_parsers/items_features/characteristics.py:41-48 | a skipped row moves the index by one and changes nothing |
| Characteristics.RunPlain | app/parsers/tender_feature_parsers/items_features/characteristics.py:112-140 | a plain row emits at once and moves the index by one |
| Characteristics.RunGroup | app/parsers/tender_feature_parsers/items_features/characteristics.py:54-111 | a group row flushes the pending group, opens its own, and moves the index past the span |
| Characteristics.RunEnd | app/parsers/tender_feature_parsers/items_features/characteristics.py:142-159 | at the end of the table the pending group is flushed |
| Characteristics.AppendAssoc | app/parsers/tender_feature_parsers/items_features/characteristics.py:106 | appending values regroups freely |
| Characteristics.CollectGroupValues | app/parsers/tender_feature_parsers/items_features/characteristics.py:96-106 | the inner loop appends the non-empty first cells of the spanned rows that exist |
| Characteristics.SavePending | app/parsers/tender_feature_parsers/items_features/characteristics.py:56-74 | emits the pending group with the next id exactly when it has a name and values |
| Characteristics.AddPlainRow | app/parsers/tender_feature_parsers/items_features/characteristics.py:113-140 | a plain row of four cells or more that is not the header emits one record with the next id |
| Characteristics.OpenGroupRow | app/parsers/tender_feature_parsers/items_features/characteristics.py:54-111 | flushes, opens the row's group with the spanned values, takes unit and instruction only from rowspan cells, and continues at the row after the span |
| Characteristics.ParseCharacteristicsFromTable | app/parsers/tender_feature_parsers/items_features/characteristics.py:23-164 | the `while` loop computes `ParseTable` |
| Characteristics.FlushNumbered | app/parsers/tender_feature_parsers/items_features/characteristics.py:63-74 | flushing keeps the records numbered 1, 2, 3, ... and consistent |
| Characteristics.EmitPlainNumbered | app/parsers/tender_feature_parsers/items_features/characteristics.py:127-138 | a plain record keeps the numbering and consistency |
| Characteristics.RunNumbered | app/parsers/tender_feature_parsers/items_features/characteristics.py:37-159 | the rest of the loop keeps the numbering and consistency |
| Characteristics.ParseTableNumbered | app/parsers/tender_feature_parsers/items_features/characteristics.py:30-159 | the output ids are 1, 2, 3, ... in order. Every record is required, and its type and changeability are those of its instruction |
| Characteristics.GroupSpanningTable | app/parsers/tender_feature_parsers/items_features/characteristics.py:77-111 | a group spanning the table gives one record: its second cell and the non-empty first cells below, joined by ", " |
| Characteristics.PlainRowPrecedesPendingGroup | app/parsers/tender_feature_parsers/items_features/characteristics.py:112-159 | a plain row after a group is output before the group, which waits for the end of the table |
| Characteristics.GroupFlushedAfterPlain | app/parsers/tender_feature_parsers/items_features/characteristics.py:127-159 | a plain record, then the group flushed at the end, numbered 1 and 2 |
| Characteristics.EmitPlainAppends | app/parsers/tender_feature_parsers/items_features/characteristics.py:113-138 | an emitting plain row appends exactly its record and advances the id |
| Characteristics.LeadingSingleGroup | app/parsers/tender_feature_parsers/items_features/characteristics.py:54-111 | a one-row group at the top leaves that group pending at the next row |
| Characteristics.UnitAndInstructionCarryOver | app/parsers/tender_feature_parsers/items_features/characteristics.py:81-92 | a group's unit and instruction come from its own cells only when those carry rowspan. Otherwise they are the previous group's |
| Characteristics.TwoGroupsFlushed | app/parsers/tender_feature_parsers/items_features/characteristics.py:56-92 | two one-row groups give two records, the second inheriting unit and instruction as above |
| Characteristics.InvalidRowspanDropsPendingGroup | app/parsers/tender_feature_parsers/items_features/characteristics.py:161-164 | a rowspan that is not a number ends the parse, losing the pending group and the rest of the table |
| Characteristics.RunSilent | app/parsers/tender_feature_parsers/items_features/characteristics.py:41-48 | rows that emit nothing leave the output empty |
| Characteristics.SilentRowsEmitNothing | app/parsers/tender_feature_parsers/items_features/characteristics.py:41-48 | short rows, header rows and plain rows of two or three cells emit nothing |
| Characteristics.PlainPrefixStep | app/parsers/tender_feature_parsers/items_features/characteristics.py:113-140 | an emitting plain row appends the record numbered by its row |
| Characteristics.RunEmitting | app/parsers/tender_feature_parsers/items_features/characteristics.py:112-140 | a run over emitting plain rows gives one record per row |
| Characteristics.PlainRowsOnePerRow | app/parsers/tender_feature_parsers/items_features/characteristics.py:112-140 | a table of plain rows gives one characteristic per row, in row order, numbered from 1 |
| MedicineParsers.Kept | app/parsers/tender_feature_parsers/items_features/medicine/parsers.py:206-211 | no kept characteristic is an alternatives entry |
| MedicineParsers.AddAlternativesToCharacteristics | app/parsers/tender_feature_parsers/items_features/medicine/parsers.py:200-228 | the filter loop and the append compute `WithAlternatives` |
| MedicineParsers.KeptStep | app/parsers/tender_feature_parsers/items_features/medicine/parsers.py:209-211 | one step of the filter loop keeps its invariant |
| MedicineParsers.KeptAppend | app/parsers/tender_feature_parsers/items_features/medicine/parsers.py:209-211 | filtering distributes over concatenation |
| MedicineParsers.KeptMembers | app/parsers/tender_feature_parsers/items_features/medicine/parsers.py:209-211 | a characteristic is kept exactly when it is present and not an alternatives entry |
| MedicineParsers.KeptFixed | app/parsers/tender_feature_parsers/items_features/medicine/parsers.py:209-211 | a list without alternatives entries passes the filter unchanged |
| MedicineParsers.KeptDropsEntry | app/parsers/tender_feature_parsers/items_features/medicine/parsers.py:209-226 | filtering a filtered list plus its alternatives entry gives the list back |
| MedicineParsers.CountNamed | app/parsers/tender_feature_parsers/items_features/medicine/parsers.py:210 | a count of entries never exceeds the length |
| MedicineParsers.CountNamedAppend | app/parsers/tender_feature_parsers/items_features/medicine/parsers.py:210 | counts add over concatenation |
| MedicineParsers.NoneNamed | app/parsers/tender_feature_parsers/items_features/medicine/parsers.py:210 | a list without the name counts zero |
| MedicineParsers.WithAlternativesShape | app/parsers/tender_feature_parsers/items_features/medicine/parsers.py:200-228 | the kept characteristics come first, in order. With alternatives there is exactly one alternatives entry, at the end: id = count + 1, value = the alternatives joined by "; ", not required, changeable, qualitative, no unit. Without alternatives the result is the filtered list |
| MedicineParsers.WithAlternativesIdempotent | app/parsers/tender_feature_parsers/items_features/medicine/parsers.py:200-228 | adding the same alternatives twice gives what adding them once does |
| MedicineParsers.NonBlankLines | app/parsers/tender_feature_parsers/items_features/medicine/parsers.py:152 | the lines are non-empty and stripped |
| MedicineParsers.AlternativeVariant | app/parsers/tender_feature_parsers/items_features/medicine/parsers.py:147-169 | a description exists exactly when there are three cells, three non-blank medicine lines and a quantity line. It reads "<form> <dosage> - <qty> <unit>", with the given form when one is given and the second line otherwise |
| MedicineParsers.AlternativeVariantNonEmpty | app/parsers/tender_feature_parsers/items_features/medicine/parsers.py:126-128 | a description is never empty, so every one found is appended |
| MedicineParsers.ExtractOkpd2BeforeColon | app/parsers/tender_feature_parsers/items_features/medicine/parsers.py:116-118 | the leftmost OKPD2 code followed by a colon, or none exactly when there is none |
| MedicineParsers.ScanRowsStep | app/parsers/tender_feature_parsers/items_features/medicine/parsers.py:97-128 | the scan of one more row is one more loop step |
| MedicineParsers.ParseVariantTable | app/parsers/tender_feature_parsers/items_features/medicine/parsers.py:85-144 | the row loop returns the codes found. The characteristics get the alternatives folded in when there are any, and are otherwise returned unchanged |
| MedicineParsers.CodesFrozen | app/parsers/tender_feature_parsers/items_features/medicine/parsers.py:115-122 | once the OKPD2 code is set, neither code changes again |
| MedicineParsers.CodesOnlyFromMainRows | app/parsers/tender_feature_parsers/items_features/medicine/parsers.py:109-122 | a code changes only on a main-mode data row of three cells or more while no OKPD2 code is held |
| MedicineParsers.AlternativesOnlyFromAlternativeRows | app/parsers/tender_feature_parsers/items_features/medicine/parsers.py:100-128 | only alternative-mode data rows add, each its own description. Header rows only switch mode |
| MedicineParsers.ScanMode | app/parsers/tender_feature_parsers/items_features/medicine/parsers.py:95-106 | the mode is set by the last header row seen, main if none |
| MedicineParsers.AlternativesBounded | app/parsers/tender_feature_parsers/items_features/medicine/parsers.py:97-128 | no more alternatives than rows |
| MedicineParsers.NoAlternativeHeaderNoAlternatives | app/parsers/tender_feature_parsers/items_features/medicine/parsers.py:95-135 | without an alternatives header nothing is collected |
| MedicineParsers.ScanCollectsAlternativeRows | app/parsers/tender_feature_parsers/items_features/medicine/parsers.py:97-128 | the alternatives are exactly the descriptions of the data rows under an alternatives header, in row order |
| MedicineUtils.FirstUnitFrom | app/parsers/tender_feature_parsers/items_features/medicine/utils.py:44 | the first unit alternative that matches, ignoring case, or none when none does |
| MedicineUtils.UnitStartsWithLetter | app/parsers/tender_feature_parsers/items_features/medicine/utils.py:44 | no unit starts with a digit, whitespace, `.` or `,` |
| MedicineUtils.DosageEndSound | app/parsers/tender_feature_parsers/items_features/medicine/utils.py:44 | every match the matcher reports is a reading of the pattern |
| MedicineUtils.ParseAfterDigits | app/parsers/tender_feature_parsers/items_features/medicine/utils.py:44 | in a reading, the digit run is followed by a non-digit |
| MedicineUtils.ParseDigitsMaximal | app/parsers/tender_feature_parsers/items_features/medicine/utils.py:44 | a reading takes the whole digit run |
| MedicineUtils.ParseFractionMaximal | app/parsers/tender_feature_parsers/items_features/medicine/utils.py:44 | a reading takes the fraction the matcher takes |
| MedicineUtils.ParseSpacesMaximal | app/parsers/tender_feature_parsers/items_features/medicine/utils.py:44 | a reading takes the whole whitespace run |
| MedicineUtils.DosageEndComplete | app/parsers/tender_feature_parsers/items_features/medicine/utils.py:44 | wherever the pattern can be read, the matcher finds a match |
| MedicineUtils.DosagePosition | app/parsers/tender_feature_parsers/items_features/medicine/utils.py:44-48 | the leftmost start of a match, or none exactly when the pattern occurs nowhere |
| MedicineUtils.ParseMedicalInfo | app/parsers/tender_feature_parsers/items_features/medicine/utils.py:29-57 | form and dosage never have leading, trailing or doubled whitespace |
| MedicineUtils.CommaSplitsFormAndDosage | app/parsers/tender_feature_parsers/items_features/medicine/utils.py:36-41 | with a comma, the form is the text before it and the dosage the text up to the next comma, both normalised. Later parts are ignored |
| MedicineUtils.CommaPieces | app/parsers/tender_feature_parsers/items_features/medicine/utils.py:36 | the first two comma pieces lie between the commas |
| MedicineUtils.MedicalInfoFromPieces | app/parsers/tender_feature_parsers/items_features/medicine/utils.py:38-41 | with two pieces or more, form and dosage are the first two |
| MedicineUtils.NoCommaTakesLeftmostDosage | app/parsers/tender_feature_parsers/items_features/medicine/utils.py:43-50 | without a comma, when the pattern occurs, the dosage is the leftmost match and the form the stripped text before it |
| MedicineUtils.NoDosageKeepsForm | app/parsers/tender_feature_parsers/items_features/medicine/utils.py:51-57 | without comma and match, the form is the whole text normalised and the dosage empty |
| Codes.Okpd2Position | app/parsers/tender_feature_parsers/items_features/codes.py:8 | the leftmost OKPD2 match, or none exactly when none exists |
| Codes.KtruPosition | app/parsers/tender_feature_parsers/items_features/codes.py:17 | the leftmost KTRU match, or none exactly when none exists |
| Codes.ExtractOkpd2 | app/parsers/tender_feature_parsers/items_features/codes.py:5-11 | `None` exactly when no DD.DD.DD.DDD substring exists. Otherwise the code has that 12-character shape and is the leftmost such substring |
| Codes.ExtractKtru | app/parsers/tender_feature_parsers/items_features/codes.py:14-20 | `None` exactly when no DD.DD.DD.DDD-DDDDDDDD substring exists. Otherwise the code has that 21-character shape and is the leftmost such substring |
| Codes.KtruStartsWithOkpd2 | app/parsers/tender_feature_parsers/items_features/codes.py:8-17 | every KTRU match starts with an OKPD2 match |
| Codes.KtruImpliesOkpd2 | app/parsers/tender_feature_parsers/items_features/codes.py:5-20 | a KTRU code found implies an OKPD2 code found no later in the text |
| Validator.CleanText | app/utils/validator.py:48-64 | an empty or missing text gives ""; the result is stripped and single-spaced |
| Validator.CleanTextShape | app/utils/validator.py:53-64 | no leading or trailing whitespace, no `\xa0`, `\n`, `\r` or `\t`, and no two whitespace characters in a row |
| Validator.NbspHasNoSpace | app/utils/validator.py:55 | the entity holds no whitespace |
| Validator.CleanTextNoNbsp | app/utils/validator.py:55-61 | no "&nbsp;" survives cleaning |
| Validator.ReplaceSpecialsFixesCleaned | app/utils/validator.py:54-58 | the replacements change nothing in a cleaned text |
| Validator.CleanTextIdempotent | app/utils/validator.py:48-64 | cleaning twice is cleaning once |
| Validator.CleanTextKeepsPlainText | app/utils/validator.py:48-64 | a text with no whitespace and no "&nbsp;" comes back unchanged |
| DocumentsInfo.RegNumberPosition | app/parsers/tender_feature_parsers/documents_info.py:17 | the leftmost `regNumber=` followed by a digit, or none exactly when there is none |
| DocumentsInfo.RegNumber | app/parsers/tender_feature_parsers/documents_info.py:17-21 | the captured number is the whole non-empty digit run after that `regNumber=` |
| DocumentsInfo.GetDocumentsUrl | app/parsers/tender_feature_parsers/documents_info.py:14-22 | fails, with the message, exactly when no `regNumber=` is followed by a digit. Otherwise the result is the fixed documents prefix followed by the captured number |
| DocumentsInfo.NoCapitalNInBase | app/parsers/tender_feature_parsers/documents_info.py:22 | the fixed part of the documents address holds no `N` |
| DocumentsInfo.NoRegNumberInBase | app/parsers/tender_feature_parsers/documents_info.py:22 | no `regNumber=` starts inside the fixed part of a documents address |
| DocumentsInfo.DigitsToEnd | app/parsers/tender_feature_parsers/documents_info.py:17 | a digit run reaching the end of the text ends there |
| DocumentsInfo.DocumentsUrlRegNumber | app/parsers/tender_feature_parsers/documents_info.py:17-22 | in a documents address the only match is after the prefix, and it captures the whole number |
| DocumentsInfo.GetDocumentsUrlIdempotent | app/parsers/tender_feature_parsers/documents_info.py:14-22 | deriving again from a documents address gives the same address and number |
| DocumentsInfo.ExtensionUnique | app/parsers/tender_feature_parsers/documents_info.py:60 | `\.\w+$` matches at one position at most |
| DocumentsInfo.StripExtension | app/parsers/tender_feature_parsers/documents_info.py:60 | the trailing `.<word characters>` is removed (a final newline kept); without one the title is unchanged |
| DocumentsInfo.AttachmentName | app/parsers/tender_feature_parsers/documents_info.py:55-60 | the stripped link text when non-empty; otherwise the title without its extension, empty when there is no title |
| TenderNumber.TenderNumberText | app/parsers/tender_feature_parsers/tender_features/tender_number.py:4-17 | a missing element gives ""; a text without `№` is returned unchanged and unstripped |
| TenderNumber.NumberHasNoSign | app/parsers/tender_feature_parsers/tender_features/tender_number.py:12-14 | the number never holds `№` |
| TenderNumber.NumberAfterLastSign | app/parsers/tender_feature_parsers/tender_features/tender_number.py:12-13 | with a `№`, the number is the text after the last one, stripped |
| TenderNumber.LastPieceIsTail | app/parsers/tender_feature_parsers/tender_features/tender_number.py:13 | the last piece of `split("№")` is everything after the last sign |
| TenderNumber.LastSignUnique | app/parsers/tender_feature_parsers/tender_features/tender_number.py:13 | the last sign is at one position only |
| TenderNumber.TenderNumberIsSubstring | app/parsers/tender_feature_parsers/tender_features/tender_number.py:12-14 | the number is a contiguous piece of the link text |
| PaymentMethod.ClassifyConditions | app/parsers/tender_feature_parsers/payment_features/method.py:45-52 | the keywords are tried in order "аванс", "предоплат", "по факту"/"после поставки", "безналичн". Each label is chosen exactly when its keyword is the first present, and the result is none exactly when none is present |
| PaymentMethod.ParsePaymentMethod | app/parsers/tender_feature_parsers/payment_features/method.py:23-59 | a direct field gives its stripped text whatever the conditions say. Otherwise one of the four labels is returned: the one the lower-cased conditions select, else "Безналичный расчет" |
| PaymentMethod.UpperCaseAdvance | app/parsers/tender_feature_parsers/payment_features/method.py:43-46 | the keyword test ignores case: "АВАНС" selects the advance label |
| Text.NoSpaceMeans | app/utils/validator.py:61 | no whitespace, stated position by position |
| Text.Lower | app/parsers/tender_feature_parsers/items_features/characteristics.py:10 | lower-casing keeps the length |
| Text.Upper | app/parsers/tender_feature_parsers/items_features/characteristics.py:45 | upper-casing keeps the length |
| Text.LowerSlice | app/parsers/tender_feature_parsers/payment_features/method.py:43 | lower-casing commutes with slicing |
| Text.AbsentChar | app/utils/validator.py:54-58 | an absent character does not occur |
| Text.OccursInSuffix | app/parsers/tender_feature_parsers/tender_features/tender_number.py:13 | an occurrence in a suffix is one in the whole text |
| Text.FirstWhere | app/parsers/tender_feature_parsers/items_features/codes.py:8 | the least position satisfying the test, or none exactly when none does (the leftmost search of `re.search`) |
| Text.DigitRunEnd | app/parsers/tender_feature_parsers/documents_info.py:17 | the end of the greedy `\d+` run: digits up to it, a non-digit or the end at it |
| Text.DigitRunEndUnique | app/parsers/tender_feature_parsers/documents_info.py:17 | the run end is the first non-digit position |
| Text.DigitsSlice | app/parsers/tender_feature_parsers/documents_info.py:17 | a slice of digits is all digits |
| Text.SkipSpaces | app/utils/validator.py:64 | the first non-whitespace position at or after `i` |
| Text.TrimEnd | app/utils/validator.py:64 | the end after dropping trailing whitespace |
| Text.LStrip | app/utils/validator.py:64 | the result does not start with whitespace |
| Text.Strip | app/utils/validator.py:64 | `str.strip()`: no leading or trailing whitespace, and a text without any is unchanged |
| Text.SkipSpacesSkipsSpaces | app/utils/validator.py:64 | everything skipped is whitespace |
| Text.TrimEndTrimsSpaces | app/utils/validator.py:64 | everything trimmed is whitespace |
| Text.StripKeepsNonSpace | app/utils/validator.py:64 | strip is a slice that keeps every non-whitespace character |
| Text.StripDropsNoChar | app/parsers/tender_feature_parsers/tender_features/tender_number.py:13 | stripping adds no character |
| Text.StripOccurs | app/parsers/tender_feature_parsers/tender_features/tender_number.py:13 | the stripped text occurs in the text |
| Text.StripSlice | app/utils/validator.py:64 | what occurs in the stripped text occurs in the text |
| Text.SingleSpacedMeans | app/utils/validator.py:61 | single spacing, stated position by position |
| Text.Collapse | app/utils/validator.py:61 | `re.sub(r'\s+', ' ', s)` never lengthens the text, is empty exactly for empty input, and keeps whether it starts with whitespace |
| Text.NormalizeSpaces | app/parsers/tender_feature_parsers/items_features/medicine/utils.py:56-57 | `' '.join(s.split())` is stripped and single-spaced |
| Text.StripNormalizes | app/utils/validator.py:61-64 | stripping a single-spaced text normalises it |
| Text.CollapseSingleSpaced | app/utils/validator.py:61 | collapsing leaves only isolated plain spaces |
| Text.SingleSpacedDrop | app/utils/validator.py:61 | a suffix of a single-spaced text is single-spaced |
| Text.SingleSpacedTake | app/utils/validator.py:61 | a prefix of a single-spaced text is single-spaced |
| Text.SliceSingleSpaced | app/utils/validator.py:61 | a slice of a single-spaced text is single-spaced |
| Text.CollapseFixesSingleSpaced | app/utils/validator.py:61 | collapsing a single-spaced text changes nothing |
| Text.NoSpaceNormalized | app/utils/validator.py:61-64 | a text without whitespace is normalised |
| Text.NormalizeFixesNormalized | app/parsers/tender_feature_parsers/items_features/medicine/utils.py:56-57 | normalising a normalised text changes nothing |
| Text.CollapsePrefix | app/utils/validator.py:61 | a whitespace-free start of the collapsed text starts the text |
| Text.CollapseKeepsWords | app/utils/validator.py:61 | collapsing creates no new whitespace-free word |
| Text.CollapseKeepsWordsAfterChar | app/utils/validator.py:61 | the same, past a leading non-whitespace character |
| Text.CollapseKeepsWordsAfterSpace | app/utils/validator.py:61 | the same, past a leading whitespace run |
| Text.CollapseKeepsFirstWord | app/utils/validator.py:61 | a word at the start of the collapsed text starts the text |
| Text.NormalizeKeepsWords | app/utils/validator.py:61-64 | normalising creates no new whitespace-free word |
| Text.ReplaceAbsent | app/utils/validator.py:54-58 | replacing an absent pattern changes nothing |
| Text.ReplacePrefix | app/utils/validator.py:54-58 | a space-free start of the replaced text starts the text |
| Text.ReplaceKeepsWords | app/utils/validator.py:54-58 | replacing by a space creates no new space-free word |
| Text.ReplaceKeepsWordsAfterPattern | app/utils/validator.py:54-58 | the same, past a leading occurrence of the pattern |
| Text.ReplaceKeepsWordsAfterChar | app/utils/validator.py:54-58 | the same, past a leading kept character |
| Text.ReplaceKeepsFirstWord | app/utils/validator.py:54-58 | a word at the start of the replaced text starts the text |
| Text.ReplaceRemovesPattern | app/utils/validator.py:55 | after replacing a space-free pattern by a space, none is left |
| Text.ReplaceRemovesAfterPattern | app/utils/validator.py:55 | an occurrence after a replaced leading pattern is one in the rest's replacement |
| Text.ReplaceRemovesAfterChar | app/utils/validator.py:55 | an occurrence after a kept leading character is one in the rest's replacement |
| Text.ReplaceKeepsHead | app/utils/validator.py:54-58 | a first character that does not start the pattern is kept |
| Text.Split | app/parsers/tender_feature_parsers/items_features/medicine/utils.py:36 | `s.split(c)` gives at least one piece, none holding `c` |
| Text.SplitJoin | app/parsers/tender_feature_parsers/items_features/medicine/utils.py:36 | joining the pieces with `c` gives the text back |
| Text.SplitHead | app/parsers/tender_feature_parsers/items_features/medicine/utils.py:36-41 | the first piece runs to the first `c`; the remaining pieces split the rest |
| Text.SplitOnePiece | app/parsers/tender_feature_parsers/items_features/medicine/utils.py:38 | one piece exactly when `c` does not occur |
| Text.SplitLast | app/parsers/tender_feature_parsers/tender_features/tender_number.py:13 | the last piece is what follows the last `c`, or the whole text when there is none |
| Text.JoinEndsWithSepAndLast | app/parsers/tender_feature_parsers/items_features/medicine/utils.py:36 | a join of two pieces or more ends with the separator and the last piece |
| Text.StrippedNonEmpty | app/parsers/tender_feature_parsers/items_features/medicine/parsers.py:152 | the kept pieces are non-empty and stripped |

## Left out

- Browser and network I/O: the page queries, clicks and waits. Rows, cells and element texts are given as values. A failed page query inside `get_tender_number` is folded into the missing element, which gives "".
- Database I/O: the Mongo driver, cursors and the aggregation pipeline. Collections are in-memory sequences, and ObjectIds are fresh-id parameters.
- Concurrency: the asyncio lock, the unused semaphore and `asyncio.create_task` are not modelled as such. Each critical section is one atomic step. The background run is the steps `StartProcessing` and `CompleteRun`, between which any other operation may be called. What happens inside the parse and the save while they are suspended is not modelled, because neither reads the task table.
- Clocks and randomness: `datetime.now()` and `uuid4()` are parameters, and times are whole seconds.
- TaskManagement.TaskManager.CleanupOldTasks: the age is compared on whole seconds (`now - completed_at > hours * 3600`), not on a float number of hours.
- TaskManagement.TaskManager.CompleteRun: `processing_time` is the whole-second difference `now - start`, not a float. The parse itself (`get_tender`) is a parameter holding its outcome. An exception message is that outcome's text, without the traceback.
- TaskManagement.TaskManager.ProcessTask: the uninterrupted run requires the task to be pending at the start, as it is when `create_task` schedules it. `StartProcessing` promises a well-formed table only in that case, and running a task a second time is not modelled.
- TaskManagement.TaskManager.GetTaskResult: the `AttributeError` a completed task without a result would raise is not modelled. Every task in the table keeps an invariant under which a completed task always has a result.
- TaskStore.TaskRepository.CreateTask: `insert_one` also writes `_id` into the caller's dictionary; the model keeps ids apart from documents. A document without `task_id` is not modelled, because every task document here has one.
- Repository.TenderRepository.Save: the dumped tender's field names are top-level keys, and `$set` is a merge of those keys. Dotted `$set` keys are not modelled, and neither is Mongo's matching of `null` against a missing field.
- Repository.TenderRepository.Delete: a store id is one value, both as the stored `_id` and as the string `save` returns. In the code `insert_one` stores an ObjectId, `save` returns its `str`, and `delete` filters `_id` by the string, which never equals an ObjectId. So deleting by an id that `save` returned removes nothing in the code. That mismatch is not modelled, and nothing in the code calls `delete`.
- `find_by_id`, `find_by_field`, `find_all`, `update` and `close` of `TenderRepository` are not part of this model. `find_by_field` enters only through `find_by_tender_number`.
- Characteristics.ParseInt: `int()` accepts ASCII digits with surrounding whitespace and an optional sign. Unicode digits and `_` separators are not accepted.
- Text.Lower, Text.Upper: lower- and upper-casing cover ASCII and the basic Cyrillic alphabet (with Ё/ё), not all of Unicode.
- Text.IsWordChar: `\w` covers ASCII letters, digits, `_` and the Cyrillic block, not all of Unicode.
- Text.IsDigit: `\d` is restricted to ASCII digits.
- `validate_tender_url` and `extract_reg_number` (app/utils/validator.py:6-45) depend on `urllib.parse`, and are not part of this model.
- `check_jnvlp` and the rest of `parse_medicine_additional_info` in medicine/parsers.py are DOM walking, and are not part of this model.
- Price, quantity and maximum-price parsing use floats, and are not part of this model.

## Notes on the code

- The header test at characteristics.py:120 cannot fire (`Characteristics.PlainHeaderCheckRedundant`). Such a row already contains both header words, so the test at line 46 skips it first.
- A `rowspan` that `int()` rejects raises inside the `try` of `parse_characteristics_from_table`. The handler returns what was emitted so far, so the group still pending is lost, together with every later row (`Characteristics.InvalidRowspanDropsPendingGroup`).
- In `parse_variant_table` an OKPD2 code is taken only when it is followed by `:` (`MedicineParsers.ExtractOkpd2BeforeColon`). The stand-alone `extract_okpd2_code` has no such condition.
- When a parsed tender has no items (`items` is `None`), the run fails on `len(None)` after the tender has already been saved (`TaskManagement.RunOutcome`, `TaskManagement.TaskManager.CompleteRun`).
- The task manager keeps its tasks in a dictionary in memory and never uses the task store. Its semaphore is never acquired, and an interrupted run is not recovered.
- When a task is deleted while it is running, the parsed tender is still saved. The final update then raises `KeyError` (task_manager.py:91), and so does the handler's update (line 107), so no record of the run is left (`TaskManagement.TaskManager.CompleteRun`, `TaskManagement.DeletedMidRunLeavesNoRecord`).
