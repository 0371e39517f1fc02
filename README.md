# Notos registrations core, in Dafny

Notos is the Django application a philatelic exhibition uses to take registrations. A
participant enters their personal data. They may then record an appointment as national
commissioner or juror, submit entry forms for the exhibits they want to show (each with the
exhibitions it took part in before), and give travel details. Staff export the registrations
as CSV tables or as a spreadsheet workbook. Notifications go by mail to the national
federations and to the commissioner of the exhibitor's country. A participant can print a
summary of everything they registered.

This project models the core of that application and proves properties about it:

- `text.dfy` (module `Text`): the parts of Python's string library the core relies on:
  `splitlines`, `join`, `split(',')`, `strip`, `str(int)`, `startswith` and `os.path.basename`.
- `records.dfy` (module `Records`): the records of `registrations/models.py` as values. It also
  holds the Python field values the exports and printouts observe (truthiness and `str()`),
  the choice tables with `dict(choices)[key]`, the export field lists and the settings read.
- `export.dfy` (module `Export`): the export behaviour of `ExportMixin` and of `Participant`.
  A table is a sequence of rows of cell strings. The loops are methods. The worksheet and the
  workbook are classes whose methods update their fields.
- `printout.dfy` (module `Printouts`): every model's `printout()` as an ordered list of
  caption/value lines, plus `Federation.full_name` and `Federation.email_list`.
- `query.dfy` (module `Query`): the record-store queries the views use. `.first()` is the
  first match in key order, as the record store orders an unordered query by primary key.
  `.all()` is given the same order, which the record store leaves open (see "## Left out").
- `store.dfy` (module `Store`): the database as a class `Registry`, with one sequence of
  records per table and one key counter. It keeps the integrity the schema and the views
  maintain between the tables. Each write is an update of a stored record or an insert under
  a new key, and each keeps that integrity.
- `views.dfy` (module `Views`): the decisions of `registrations/views.py`:
  - which branch `register` takes, both as written and as meant;
  - the page it renders and the step list;
  - the notification mails and their recipients;
  - what `remove_exhibit` deletes;
  - the sections of the printout page.
- `handlers.dfy` (module `Handlers`): the views carried out on a `Registry`: `register` with
  its four writes, `remove_exhibit` and `printout`.

Form validation, mail delivery, template rendering and file storage are outside the model.
Each form's validity is a boolean given with the request, except for its choice fields and the entry's introductory page. A mail
is a value the view returns (subject, recipients, title and sections). A file field is the
stored file's name.

Two notes on how the model reads the code:

- A cell is normalised as `'\n'.join(str(value).splitlines())`. This does not always remove a
  trailing line break, and applying it twice is not always the same as applying it once. The
  text "a\n\n" becomes "a\n", which becomes "a" on a second pass. The model follows the code.
  `Text.NormaliseIdempotentIff` states exactly when normalising twice equals normalising once.
- `Participant.user` is a plain foreign key, so nothing in the schema stops two records for
  one account; `Participant.objects.get(user=...)` would then fail. The views never create a
  second record (the personal step updates the account's record when there is one), so the model
  keeps one participant per user account as an integrity rule of the participant table and
  leaves that failure out (see "## Left out").

## Model

| member | source | states |
|---|---|---|
| Text.SplitLinesBreakFree | registrations/models.py:85 | no line returned by `splitlines` contains a line boundary |
| Text.SplitJoin | registrations/models.py:85 | joining boundary-free lines with '\n' and splitting again gives the same lines, unless the last line is empty |
| Text.JoinNewlineBreaks | registrations/models.py:85 | a '\n'-join of boundary-free lines has no line boundary other than '\n' |
| Text.JoinLastChar | registrations/models.py:85 | a join whose last part is non-empty and boundary-free does not end with '\n' |
| Text.NormaliseBreaks | registrations/models.py:85 | a normalised cell holds no line boundary but '\n', and no '\r' |
| Text.NormaliseKeepsLines | registrations/models.py:85 | normalising keeps the text of every line when the last line is not empty |
| Text.NormaliseIdempotentIff | registrations/models.py:85 | normalising twice equals normalising once exactly when the first result does not end with '\n' |
| Text.NormaliseKeepsOneTrailingBreak | registrations/models.py:85 | "a\n\n" normalises to "a\n", and that normalises to "a" |
| Text.SplitOnFacts | registrations/models.py:194 | `split(',')` gives one piece more than there are commas, no piece holds a comma, and joining the pieces with ',' gives the text back |
| Text.Strip | registrations/models.py:194 | `strip()` returns the part between the leading and the trailing whitespace; that part neither starts nor ends with whitespace |
| Text.StripIdempotent | registrations/models.py:194 | stripping twice is stripping once |
| Text.NatToString | registrations/models.py:85 | `str(n)` of a natural number is a non-empty string of digits without a leading zero |
| Text.IntToString | registrations/models.py:85 | `str(n)` is non-empty and starts with '-' exactly for a negative number |
| Text.ParseNatToString | registrations/models.py:85 | reading the digits of `str(n)` gives back n |
| Text.NatToStringInjective | registrations/views.py:275 | two numbers print alike only if they are equal |
| Text.BaseNameFacts | registrations/models.py:159 | `basename` is the slash-free tail of the path, preceded by '/' unless it is the whole path, and non-empty when the path does not end with '/' |
| Records.AttributesMatchFields | registrations/models.py:78-87 | a record has exactly one attribute value per entry of its class's `_export_fields` |
| Records.LastKeyIndex | registrations/models.py:156 | finds the last pair with a key among the first n, or reports that none has it |
| Records.ChoiceLabel | registrations/models.py:156 | `dict(choices)[key]` is the caption of the last pair with that key |
| Export.CellShape | registrations/models.py:81-85 | a falsy value exports as ''; a cell holds no line boundary but '\n' and no '\r'; a non-empty one-line value exports as printed |
| Export.ExportValues | registrations/models.py:78-87 | `export_values()` returns the record's row |
| Export.RowCells | registrations/models.py:78-87 | a row has one cell per export key, and cell j is the exported form of the attribute that key j names |
| Export.ExportCells | registrations/models.py:79-87 | the loop appends the cell of each attribute value in turn, giving exactly the cells of the values |
| Export.ExportTableShape | registrations/models.py:35-41 | the table is the header of export keys, then exactly one row per stored record in store order; row i + 1 holds record i's cells |
| Export.ExportTableRectangular | registrations/models.py:38-40 | every row of an exported table has one cell per header key |
| Export.ExportRows | registrations/models.py:39-40 | the loop yields the rows of all stored records, in store order |
| Export.ExportToCsv | registrations/models.py:35-41 | `export_to_csv()` yields the class's export table |
| Export.ChoicesTable | registrations/models.py:44-50 | the choice table is the header ['id', 'value'], then one [key, value] row per choice, in the given order |
| Export.ExportChoicesToCsv | registrations/models.py:44-50 | `export_choices_to_csv(choices)` yields that choice table |
| Export.ExportParticipantRows | registrations/models.py:132-135 | the loop yields one joined row per participant, in store order |
| Export.ExportJoinedValues | registrations/models.py:133-135 | the participant's values, then those of its first appointments or a blank record, then those of its first travel details or a blank record |
| Export.ParticipantExportToCsv | registrations/models.py:128-136 | the participant export is the joined header, then the joined rows |
| Export.BlankRowsEmpty | registrations/models.py:133-134 | the blank appointments and travel records export as all-empty cells |
| Export.JoinedAppointmentsIsFirst | registrations/models.py:133 | the joined appointments are the participant's first appointments in store order, or the blank record when there are none |
| Export.JoinedTravelIsFirst | registrations/models.py:134 | the joined travel details are the participant's first ones in store order, or the blank record when there are none |
| Export.JoinedRowLayout | registrations/models.py:131-135 | a joined row is as wide as the header (30): 11 participant cells, then 8 appointments cells, then 11 travel cells |
| Export.ParticipantRowBlanks | registrations/models.py:133-135 | a participant without appointments (travel details) gets empty cells in exactly those columns |
| Export.ZeroExportsEmpty | registrations/models.py:82-83 | an entry with no frames exports '' in its frames column, and a participation with 0 points '' in its points column |
| Export.Worksheet.constructor | registrations/models.py:59 | a new worksheet has its name and no rows |
| Export.Worksheet.WriteRow | registrations/models.py:60 | `write_row(row, 0, values)` sets row `row` to the values and leaves every other row as it was |
| Export.Workbook.AddWorksheet | registrations/models.py:59 | `add_worksheet(name)` appends a new, empty sheet of that name to the workbook |
| Export.Grid | registrations/models.py:58-63 | a table laid out on a sheet has row numbers 0 to its length minus one, and row number i holds table row i |
| Export.WriteRecordRows | registrations/models.py:61-63 | below the header at row 0, the loop writes record i's values at row i + 1 |
| Export.ExportToXlsx | registrations/models.py:57-63 | `export_to_xlsx` adds one sheet holding the CSV export's table, row by row |
| Export.ExportChoicesToXlsx | registrations/models.py:66-72 | `export_choices_to_xlsx` adds one sheet holding the choice table, row by row |
| Export.WriteParticipantRows | registrations/models.py:143-147 | the loop writes participant i's joined values at row i + 1 |
| Export.ParticipantExportToXlsx | registrations/models.py:139-147 | the participant sheet holds the participant export's table, row by row |
| Printouts.Lines | registrations/models.py:156-166 | a printout pairs each caption with its value, in order |
| Printouts.LinesAppend | registrations/models.py:324-342 | adding lines to an ordered mapping under new captions is concatenation |
| Printouts.FileNameFacts | registrations/models.py:159 | a file line is '' without a file, and otherwise the non-empty slash-free tail of the file name |
| Printouts.FederationFullName | registrations/models.py:186-188 | "FED ", the country, " - ", the name, each at its fixed place |
| Printouts.EmailList | registrations/models.py:191-194 | no address for an empty field; otherwise one address per comma-separated piece (commas + 1) |
| Printouts.EmailListAddresses | registrations/models.py:194 | for a non-empty field there are as many addresses as comma-separated pieces, and address i is piece i with its surrounding whitespace stripped, in order; every address is comma-free and has no surrounding whitespace |
| Printouts.EmailListJoin | registrations/models.py:191-194 | when no piece carries surrounding whitespace, joining the addresses with ',' gives the field back |
| Printouts.ParticipantPrintoutCaptions | registrations/models.py:155-167 | the eleven captions in the source's order, none repeated |
| Printouts.ParticipantCaptionsDistinct | registrations/models.py:156-166 | no participant caption repeats |
| Printouts.ParticipantPrintoutValues | registrations/models.py:156-162 | title and language show the caption their key maps to; the photo shows its file name |
| Printouts.AppointmentsPrintoutCaptions | registrations/models.py:231-240 | the eight captions in the source's order, none repeated |
| Printouts.AppointmentsCaptionsDistinct | registrations/models.py:232-239 | no appointments caption repeats |
| Printouts.AppointmentsPrintoutValues | registrations/models.py:232-236 | the federation line is '' exactly without a federation, else its full name; the juror line is '' exactly when no key is set, else the key's caption |
| Printouts.ExhibitCaptionsDistinct | registrations/models.py:319-343 | whatever the class and the flag, no caption of an entry printout repeats |
| Printouts.ExhibitCaptionsSelect | registrations/models.py:324-341 | date of birth shown iff all fields or a 'Y' class; literature block iff all fields or an 'L' class; introductory page and synopsis otherwise |
| Printouts.ExhibitCaptionsShape | registrations/models.py:320-342 | the captions start with the four head captions, end with Remarks, and number 4 + (1 if date of birth) + (12 or 2) + 1 |
| Printouts.ExhibitPrintoutLayout | registrations/models.py:319-343 | the entry printout has that shape: head lines first, the remarks line last, the optional blocks as selected, no repeated caption |
| Printouts.ParticipationPrintoutCaptions | registrations/models.py:394-401 | the six captions in the source's order, none repeated |
| Printouts.ParticipationCaptionsDistinct | registrations/models.py:395-400 | no participation caption repeats |
| Printouts.ParticipationPrintoutValues | registrations/models.py:397-398 | the award line is '' exactly when no medal is set; the points line shows the points |
| Printouts.TravelCaptionsFacts | registrations/models.py:437-450 | 9 captions, or 11 with the spouse's names, which appear iff all fields or a travelling spouse; none repeated |
| Printouts.TravelPrintoutLayout | registrations/models.py:437-450 | the travel printout has that shape; the arrival and departure lines are '' exactly when those times are unset |
| Query.FirstIndex | registrations/views.py:134 | the position of the first match, or none exactly when nothing matches |
| Query.First | registrations/views.py:94 | `.first()` is a matching record with no match before it, or none exactly when nothing matches |
| Query.Filter | registrations/views.py:274 | `.all()` of a related set holds exactly the matching records, no more than the table |
| Query.FilterHeadIsFirst | registrations/views.py:270-272 | a related set is non-empty exactly when `.first()` finds a record, and its head is that record |
| Query.FilterKeepsAscendingKeys | registrations/views.py:274 | a filtered table keeps its keys in ascending order |
| Query.FirstIndexUpdate | registrations/views.py:94-100 | saving over the first match with another match keeps it the first match |
| Query.FirstIndexSnoc | registrations/views.py:94-100 | with no match yet, a saved new match becomes the first |
| Query.FilterAppend | registrations/views.py:274 | filtering distributes over concatenation |
| Store.UserParticipantUnique | registrations/views.py:46-49 | with one participant per account, the lookup finds none exactly when the account has no record, and otherwise its only record |
| Store.UserIndex | registrations/views.py:47 | where the user's record is stored, or none exactly when there is none |
| Store.AppointmentsIndex | registrations/views.py:94 | where the participant's first appointments are stored, or none exactly when there are none |
| Store.TravelIndex | registrations/views.py:169 | where the participant's first travel details are stored, or none exactly when there are none |
| Store.ExhibitIndex | registrations/views.py:60 | where the entry with a key is stored, or none exactly when no entry has it |
| Store.ExhibitIndexFinds | registrations/views.py:60 | with ascending keys, the entry stored under a key is the one found by it |
| Store.UserParticipantSaved | registrations/views.py:88-91 | after the personal form is saved, the lookup finds the saved record |
| Store.AppointmentsSaved | registrations/views.py:98-100 | after the appointments form is saved, `.first()` finds the saved record |
| Store.TravelSaved | registrations/views.py:173-175 | after the travel form is saved, `.first()` finds the saved record |
| Store.ParticipantUpdateKeepsValid | registrations/views.py:88-91 | saving a participant over its record, with key and account kept, keeps the database's integrity |
| Store.ParticipantAddKeepsValid | registrations/views.py:88-91 | adding a participant under the next key, for an account without one, keeps the integrity |
| Store.AppointmentsUpdateKeepsValid | registrations/views.py:98-100 | saving appointments over their record keeps the integrity |
| Store.AppointmentsAddKeepsValid | registrations/views.py:98-100 | adding appointments under the next key keeps the integrity |
| Store.TravelUpdateKeepsValid | registrations/views.py:173-175 | saving travel details over their record keeps the integrity |
| Store.TravelAddKeepsValid | registrations/views.py:173-175 | adding travel details under the next key keeps the integrity |
| Store.ExhibitUpdateKeepsValid | registrations/views.py:125-130 | saving an entry over its record keeps the integrity |
| Store.ExhibitAddKeepsValid | registrations/views.py:125-130 | adding an entry under the next key keeps the integrity |
| Store.Renumbered | registrations/views.py:128-131 | the posted rows, attached to the entry, under consecutive new keys from a start key |
| Store.ReplacedParticipationsValid | registrations/views.py:131 | the participation table with an entry's rows replaced keeps its keys ascending, below the advanced counter, and refers to stored entries only |
| Store.ReplaceParticipationsKeepsValid | registrations/views.py:131 | replacing an entry's rows keeps the whole database's integrity |
| Store.ReplacedParticipationsOf | registrations/views.py:131 | afterwards the entry's participations are exactly the posted rows under their new keys, and every other entry keeps its own |
| Store.OtherExhibitsValid | registrations/views.py:253 | the entries left after a deletion keep their integrity |
| Store.OtherParticipationsValid | registrations/views.py:253 | the rows left after the cascade refer only to the entries left |
| Store.DeleteExhibitKeepsValid | registrations/views.py:253 | deleting an entry and, by cascade, its participations keeps the integrity |
| Store.Registry.UpdateParticipant | registrations/views.py:88-91 | the record at a position is replaced, nothing else changes, and the integrity holds |
| Store.Registry.InsertParticipant | registrations/views.py:88-91 | the record is appended under the next key, the counter advances, nothing else changes |
| Store.Registry.UpdateAppointments | registrations/views.py:98-100 | the record at a position is replaced, nothing else changes, and the integrity holds |
| Store.Registry.InsertAppointments | registrations/views.py:98-100 | the record is appended under the next key, the counter advances, nothing else changes |
| Store.Registry.UpdateTravel | registrations/views.py:173-175 | the record at a position is replaced, nothing else changes, and the integrity holds |
| Store.Registry.InsertTravel | registrations/views.py:173-175 | the record is appended under the next key, the counter advances, nothing else changes |
| Store.Registry.UpdateExhibit | registrations/views.py:130 | the entry at a position is replaced, nothing else changes, and the integrity holds |
| Store.Registry.InsertExhibit | registrations/views.py:130 | the entry is appended under the next key, the counter advances, nothing else changes |
| Store.Registry.ReplaceParticipations | registrations/views.py:128-131 | the entry's rows become the posted rows under new keys, the other rows stay in order, and the counter advances by the number of rows; the new tables are `ParticipationsWrite` of the old |
| Store.ParticipationsWrite | registrations/views.py:128-131 | replacing an entry's rows: its participations become the posted rows under keys from the counter on, every other entry keeps its own, and only that table and the counter change |
| Store.Registry.DeleteExhibit | registrations/views.py:252-253 | the entry and its participations are removed, nothing else changes |
| Views.DispatchSavesIff | registrations/views.py:78-176 | a request writes exactly when it is a POST to a known step with a valid form, a participant record past the personal step, and, for an entry, open entries, valid rows and an edited entry of the user's own; the write is that step's |
| Views.DispatchRoutes | registrations/views.py:43-76 | closed entries and unknown steps go to the personal step, another user's entry to the list of entries, a removal link names the user's own entry, and the corrected dispatch never fails |
| Views.FirstPersonalPostCrashes | registrations/views.py:82-84 | as written, a personal POST without a participant record fails; as meant, it saves a valid form and shows an invalid one again |
| Views.EntryLinkWithoutParticipantCrashes | registrations/views.py:58-62 | as written, an entry link followed without a participant record fails; as meant, it leads to the list of entries |
| Views.InvalidEditSaved | registrations/views.py:124-131 | as written, an edited entry whose main form fails is saved when its rows validate; as meant, the form is shown again |
| Views.DispatchDefectsExhibited | registrations/views.py:58-131 | one concrete request for each of the three defects, with the outcome as written and as meant |
| Views.DispatchAgreesElsewhere | registrations/views.py:41-176 | outside those three cases the code as written decides exactly as the corrected dispatch |
| Views.StepStatusesFacts | registrations/views.py:215-235 | four steps linked in order; exactly the requested known step is current; Personal is done iff a record exists, the others iff it exists and has a record of that kind |
| Views.InitialPersonalFacts | registrations/views.py:179-184 | the personal form starts from the account without a record; with one, every filled field is kept and only an empty one falls back on the account |
| Views.ExhibitLinks | registrations/views.py:208-212 | one link per entry of the user's, in order, with its title and its edit page |
| Views.RegisterPageFacts | registrations/views.py:206-246 | the entry list appears only on the entry step without an edited entry and links to exactly the user's entries; later steps are enabled iff a record exists; password change iff a local account; address read-only exactly then on the personal step |
| Views.NumberedInjective | registrations/views.py:160 | two numbered titles with the same prefix are equal only for equal numbers |
| Views.ParticipationSubsections | registrations/views.py:160-161 | one subsection per participation row, titled "Previous participation #j" from 1, with that row's printout |
| Views.EntryTitle | registrations/views.py:275 | an entry section title starts with "Entry #" |
| Views.EntrySections | registrations/views.py:274-278 | one section per entry, titled from "Entry #1" in order |
| Views.EntrySectionsSnoc | registrations/views.py:274-278 | the sections of one more entry are those before it followed by its own, numbered by its position |
| Views.EntryTitlesDistinct | registrations/views.py:275 | the entry titles differ from each other and from the fixed section titles |
| Views.AssembleLayout | registrations/views.py:266-282 | the personal section first, the appointments section next if present, the entry sections, the travel section last if present; no title repeated |
| Views.PrintoutSectionsLayout | registrations/views.py:266-282 | the printout page: personal first; appointments exactly when there are appointments; "Entry #1" onwards in table order; travel last exactly when there are travel details |
| Views.PrintoutTitlesDistinct | registrations/views.py:266-282 | no two sections of the printout page share a title |
| Views.Subject | registrations/views.py:115 | the subject is the exhibition name, then " - ", then the mail's title, each at its fixed place |
| Views.Recipients | registrations/views.py:104 | the given addresses unless only the additional recipients are configured, then the additional recipients |
| Views.AppointmentsMailRecipients | registrations/views.py:102-104 | the appointments mail is sent exactly when the chosen federation has an e-mail field, to its listed addresses (unless only additional) and the additional recipients |
| Views.AppointmentsMailContent | registrations/views.py:103-115 | the appointments mail carries the personal and the appointments printouts and names the exhibition's address for objections |
| Views.EntryAddressesEmptyIff | registrations/views.py:133-145 | no address is found exactly when the country has no commissioner appointment, its federation has no commissioner address and no e-mail field, and no fallback is set |
| Views.EntryAddressesCommissionerFirst | registrations/views.py:134-136 | a commissioner appointment for the country wins: the one address is that of its participant |
| Views.EntryAddressesProvenance | registrations/views.py:133-145 | every address comes from a commissioner appointment, a federation of the country, or the fallback |
| Views.EntryMailRecipients | registrations/views.py:147-149 | the entry mail is sent exactly when addresses are found, to them (unless only additional) and the additional recipients |
| Views.EntryMailContent | registrations/views.py:148-161 | the entry mail carries the personal and the entry printouts with numbered participation subsections, and names the general commissioner, else the exhibition, for objections |
| Views.RemoveDecisionFacts | registrations/views.py:249-257 | an entry is deleted exactly when it is the user's own; otherwise nothing is; without a participant record the code as written fails, and otherwise it agrees |
| Handlers.PersonalWrite | registrations/views.py:87-92 | after the personal form's write the lookup finds the posted data for the user, every other account's record is still stored, and no other table changes |
| Handlers.AppointmentsWrite | registrations/views.py:94-100 | after the appointments form's write `.first()` finds the posted data, every other participant's record is still stored, and no other table changes |
| Handlers.TravelWrite | registrations/views.py:169-175 | after the travel form's write `.first()` finds the posted data, every other participant's record is still stored, and no other table changes |
| Handlers.SavedExhibit | registrations/views.py:124-130 | the stored entry holds the posted data; an edit keeps the entry's key, ISBN and rejection mark; a new entry gets the next key, no ISBN and no rejection |
| Handlers.EntryWrite | registrations/views.py:124-130 | after the entry form's save the saved entry is stored, every entry under another key is still stored, and only the entry table and the counter change |
| Handlers.ExhibitWrite | registrations/views.py:124-131 | after the entry form's write the saved entry is stored, its participations are the posted rows under new keys, every other entry and its participations are kept, and the other tables do not change |
| Handlers.StepWrite | registrations/views.py:78-176 | a request that writes nothing leaves the tables as they are; no request changes the federations or moves the key counter back |
| Handlers.SavePersonal | registrations/views.py:87-92 | the user's record takes the posted data under its key, or a new one is added under the next key; the lookup then finds it; no other table changes; the new tables are `PersonalWrite` of the old |
| Handlers.SaveAppointments | registrations/views.py:94-100 | the first appointments record takes the posted data, or one is added; `.first()` then finds it; no other table changes; the new tables are `AppointmentsWrite` of the old |
| Handlers.SaveTravel | registrations/views.py:169-175 | the first travel record takes the posted data, or one is added; `.first()` then finds it; no other table changes; the new tables are `TravelWrite` of the old |
| Handlers.StoreExhibit | registrations/views.py:124-130 | an edited entry keeps its key, ISBN and rejection mark; a new one gets the next key, no ISBN and no rejection; the new tables are `EntryWrite` of the old |
| Handlers.SaveExhibit | registrations/views.py:124-131 | the entry is stored over the edited one or appended under the next key, and its participation rows are replaced by the posted ones under new keys from `first` on; the new tables are `ExhibitWrite` of the old |
| Handlers.RegisterPersonal | registrations/views.py:82-92 | the personal form is saved for the user, no mail is sent, and the step reloads; the new tables are `PersonalWrite` of the old |
| Handlers.RegisterAppointments | registrations/views.py:93-117 | the appointments are saved, the federation mail is composed from the stored records, and the step reloads; the new tables are `AppointmentsWrite` of the old |
| Handlers.RegisterEntry | registrations/views.py:118-167 | the entry is saved, the commissioner mail is composed from the stored records, and the saved entry's page follows; the new tables are `ExhibitWrite` of the old |
| Handlers.RegisterTravel | registrations/views.py:168-176 | the travel form is saved for the participant, no mail is sent, and the step reloads; the new tables are `TravelWrite` of the old |
| Handlers.SaveStep | registrations/views.py:78-176 | each step's write stores the posted form for the user, composes its mails, and redirects to the step or to the saved entry; the new tables are `StepWrite` of the old |
| Handlers.Register | registrations/views.py:41-246 | what the dispatch decides: no write, no mail and the redirect or the page, or the write of the request's step with its response and mails; either way the new tables are `StepWrite` of the old for the decided action |
| Handlers.RemoveExhibit | registrations/views.py:248-257 | the user's own entry is deleted with its participations, anything else changes nothing; the answer is the entry step; afterwards the user owns no entry under that key |
| Handlers.BuildEntrySections | registrations/views.py:274-278 | the loop over the user's entries builds the entry sections |
| Handlers.Printout | registrations/views.py:259-283 | a user without a record goes to the personal step; anyone else gets the printout page built from their stored records |

## Left out

- `export_countries_to_csv` and `export_countries_to_xlsx` (registrations/models.py:52-55, 74-76) are left out. Their table is the country list of an external library. Once the list is given, they are `export_choices_*`, which is modelled.
- CSV quoting and encoding, the xlsx file format and the zip archive of the `export` view (registrations/views.py:285-304) are left out: they are library I/O. A table is rows of cell strings.
- Mail delivery, the HTML message text and template rendering are left out. A mail is a returned value: subject, recipients, title, the contact named for objections, and sections.
- Form validation is left out except for choice fields and the entry's required introductory page, which every stored entry has. Other required fields, lengths, dates, uploads and the appointments form's key check are one boolean per form and one per formset.
- The re-rendered form's contents after a failed validation are left out. So are the `form_action` URLs and the edit heading's link markup.
- `textwrap.shorten` of entry descriptions in the list of entries (registrations/views.py:211) is left out: a library helper. The list keeps the full description.
- Country names are left out: a country is a code given with its name.
- File storage is left out: a file field is the stored file's name, and `photo.path` is that name.
- The debug `print` calls (registrations/views.py:84, 89) are left out as output. The failure at line 84 is kept (see Findings).
- The authentication views, the admin, the URL routing and the settings module are left out: they are not part of the registration core.
- `max_num=6` on the participation formset (registrations/views.py:127) is left out: it is a setting of the form library, and no model check enforces it.
- Keys are modelled with one counter for all tables, not one sequence per table. Within each table the keys are unique and ascend in table order, which is the order `.first()` uses.
- The order of `.all()` is left open by the source: no model sets `Meta.ordering`, so `objects.all()`, `participant.exhibits.all()` and `exhibit.participations.all()` come back in the database's order. The model fixes ascending key order for them. This order decides the export's row order, the "Entry #i" numbering and the participation numbering, so those are stated for that order only.
- The `MultipleObjectsReturned` failure of `Participant.objects.get(user=...)` (registrations/views.py:47, 251, 262) is left out. The model's integrity rule of one participant per account excludes it. The views keep that rule, because they only add a participant for an account that has none.
- A NULL `commissioner_email` is modelled as "". The code treats both alike.
- Store.Registry.ReplaceParticipations: the formset save is modelled as replacing all of the entry's rows with the posted rows under new keys. The library's finer behaviour is left out: it updates the rows it recognises in place and deletes only the rows marked for deletion.
- Handlers.SaveExhibit: inherits that simplification of the formset save.
- Handlers.StoreExhibit: the ISBN and the rejection mark are not on the entry form. The model keeps the stored values on an edit and gives a new entry an empty ISBN and no rejection. This follows the model defaults, since the form excludes those fields.

## Findings

| source | as written | input that shows it | evidently intended | confidence | as-written member | corrected member |
|---|---|---|---|---|---|---|
| registrations/views.py:84 | `participant.printout()` is called before the form is validated, while `participant` is still None | a first POST to the personal step by a user without a participant record | the user's first personal form is saved when valid and shown again when not | not executed | Views.FirstPersonalPostCrashes | Views.DispatchSavesIff |
| registrations/views.py:58-62 | `participant.exhibits.get(...)` is evaluated with `participant` None; only `Exhibit.DoesNotExist` is caught | a GET of an entry's edit page by a user without a participant record | the request is sent back to the list of entries, like any entry that is not the user's | not executed | Views.EntryLinkWithoutParticipantCrashes | Views.DispatchRoutes |
| registrations/views.py:124-131 | when the main form fails, `exhibit` still holds the looked-up entry, so the save needs only a valid formset | a POST editing one's own entry with an invalid main form and valid participation rows | nothing is saved unless both the entry form and the rows validate | not executed | Views.InvalidEditSaved | Views.DispatchSavesIff |
| registrations/views.py:250-255 | `Participant.DoesNotExist` is not among the caught exceptions | a removal request by a user without a participant record | nothing is deleted and the request is redirected to the entry step | not executed | Views.RemoveDecisionFacts | Handlers.RemoveExhibit |
