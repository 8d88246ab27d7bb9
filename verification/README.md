# SmartENGINEX core in Dafny

A functional model of the deterministic logic inside the ENGINEX
engineering-consultant chat application, with proofs of what that logic
promises. Five parts are modelled:

- **Reply parsers and exporters.** These turn a Markdown reply from the
  language model into:
  - a table (`MarkdownTable`);
  - the block list of the two Word exporters (`WordExport`);
  - the slide list of the PowerPoint exporter (`SlideDeck`);
  - the cell grid of the PUPR Excel exporter (`ExcelSheet`);
  - the Civil 3D PNEZD point list (`Civil3d`).
- **Session bookkeeping of the app** (`Session`):
  - the "pro first" model order;
  - the "first flash" default model;
  - the dispatch on file extension;
  - the set of upload names already sent in this session.
- **IKSI irrigation audit scores** (`Iksi`) and the handling-priority matrix
  (`Priority`). Both use exact `real` arithmetic.
- **The two chat-history stores**, modelled as sequences of records in
  insertion order: `ChatStore` for the ENGINEX back end and `IksiChat` for
  the irrigation back end.
- **The persona dictionary** and its lookup with fallback (`Persona`).

Shared pieces:

- `Strings` models the Python `str` operations the code relies on: `strip`,
  `lower`, `in`, `split`, `join`, `replace`, `startswith` and `endswith`.
- `Dedup` models pandas `drop_duplicates(subset=…)` with `keep='first'`.
- `Options` holds the `Option` type.

The model follows the code where the code and its own comments or
documentation disagree:

- **Table capture is global.** Every pipe line of the reply feeds one
  table, even across prose.
- **Header-only tables.** A reply with a header line and a separator, but
  no data line, yields no table.
- **Civil 3D coordinate columns.** The check wants columns whose lower-cased
  names are exactly `x`, `y` and `z`. Without them the export returns the
  plain CSV of the table, not nothing.
- **Slides.** A new slide starts on both `## ` and `### `. The indentation
  branch of the slide builder can never fire, because the line has already
  been stripped.
- **IKSI chat history.** The irrigation back end's `get_chat_history`
  reads the fifty OLDEST messages of a gem (`ORDER BY id ASC LIMIT 50`),
  although its doc comment speaks of the last fifty.
- **Persona count.** persona.py's header comment promises 29 experts; the
  dictionary defines 28.
- **Staff rows.** A facility row whose kind contains "Juru" but not
  "Personil" counts both as equipment and as staff.

## Model

| member | source | states |
|---|---|---|
| Strings.Strip | app_enginex.py:79 | `str.strip`: the result is no longer than the input, and neither of its ends is whitespace |
| Strings.StripSlice | app_enginex.py:79 | `str.strip` cuts whitespace from both ends and nothing else: the result is the slice of the input that starts after its leading whitespace, and every character outside that slice is whitespace |
| Strings.StripKeeps | app_enginex.py:79 | stripping removes only whitespace: a non-space character is in the result iff it is in the input |
| Strings.StripNeverIndented | export_enginex.py:248-265 | a stripped line never starts with two spaces, so the slide indentation branch is dead |
| Strings.StripEmptyIff | app_enginex.py:60 | a line strips to the empty string iff it is all whitespace |
| Strings.Lower | app_enginex.py:545 | `str.lower`: same length, each character lower-cased |
| Strings.ContainsIff | app_enginex.py:159 | Python's `sub in s` holds iff `sub` occurs at some position of `s` |
| Strings.Split | app_enginex.py:87 | `str.split(sep)`: at least one piece, and no piece holds the separator |
| Strings.SplitJoin | app_enginex.py:87 | joining the pieces of a split with the separator gives back the input |
| Strings.JoinSplit | app_enginex.py:87 | splitting a join of separator-free pieces gives the pieces back |
| Strings.CountSplit | app_enginex.py:87 | a split has one more piece than there are separators |
| Strings.RemoveCharContents | app_enginex.py:83 | `replace(c, '')` keeps exactly the characters other than `c` |
| Strings.ReplaceAbsent | export_enginex.py:200-202 | `replace` of a pattern that does not occur changes nothing |
| Strings.SplitLast | app_enginex.py:545 | the last piece of a split is what follows the last separator |
| Strings.StripAll | app_enginex.py:87 | the list comprehension of stripped pieces keeps order and strips each one |
| MarkdownTable.SeparatorAsWritten | app_enginex.py:83 | the replace-then-empty-set test holds exactly for lines of `|`, `-` and spaces only |
| MarkdownTable.CapturedRowRoundTrip | app_enginex.py:79-94 | a line written as `\| a \| b \|` from cells free of pipes, line breaks and surrounding whitespace (one holding a character other than `\|`, `-` and space) is captured as exactly those cells |
| MarkdownTable.RowCells | app_enginex.py:87-91 | after dropping the edge pieces, no cell holds a pipe or surrounding whitespace |
| MarkdownTable.RowCellsNonEmpty | app_enginex.py:87-94 | a non-separator line holding a pipe always yields at least one cell |
| MarkdownTable.CapturedRowIff | app_enginex.py:79-94 | a line adds a row iff, once stripped, it holds a pipe and is not a separator; so lines without a pipe and separator lines add nothing, and a pipe line with a character other than `\|`, `-` and whitespace adds exactly one row |
| MarkdownTable.CapturedRowsConcat | app_enginex.py:78-94 | one table is fed by all pipe lines: capturing a concatenation captures each part in turn |
| MarkdownTable.CapturedRowsAreTableLines | app_enginex.py:78-94 | the captured rows are the cells of the table lines (pipe lines that are not separators), one row per table line, in order: `if row_cells` never rejects a table line |
| MarkdownTable.CollectRows | app_enginex.py:74-94 | the capture loop yields one row per table line, in reply order, each row the cells of its line, non-empty and free of pipes and surrounding whitespace; never more rows than lines |
| MarkdownTable.ExtractTable | app_enginex.py:96-101 | no table iff fewer than two rows were captured; otherwise the header is the first row and the data are the rest, in order |
| MarkdownTable.CapturedRenderedTable | app_enginex.py:74-94 | the lines of a Markdown table (header line, separator line, data lines) are captured as the header followed by the data rows, in order |
| MarkdownTable.ExtractTableRoundTrip | app_enginex.py:74-101 | parsing a rendered header, separator and data rows gives back that header and those rows; with no data row there is no table |
| WordExport.BlankIffNoBlock | app_enginex.py:54-61 | both exporters skip exactly the blank stripped lines |
| WordExport.BodyFollowsNonBlank | export_enginex.py:194-214 | one block per non-blank stripped line, in order |
| WordExport.ChatDocumentShape | app_enginex.py:48-61 | the chat export is the title heading, then the block of each non-blank line in order |
| WordExport.PuprDocumentShape | export_enginex.py:192-214 | the PUPR report is the title "Laporan Analisis: project", then the block of each non-blank line in order |
| WordExport.HeadingLevelsDiffer | export_enginex.py:199-202 | the same heading is one level higher in the PUPR report than in the chat export, with the same text |
| WordExport.HeadingText | app_enginex.py:54-57 | a heading's text is the line without its marker (chat `##`→2, PUPR `##`→1, PUPR `###`→2) |
| WordExport.BulletText | export_enginex.py:205-206 | the chat export keeps a bullet's marker, the PUPR report drops its first two characters |
| WordExport.NumberedLine | export_enginex.py:209-210 | a `^\d+\.` line is a numbered item with its full text in the PUPR report and plain text in the chat export |
| WordExport.LeadingDigits | export_enginex.py:209 | the digits a line starts with, as the `\d+` of the pattern sees them |
| SlideDeck.SlideCount | export_enginex.py:246-257 | one content slide per stripped line starting with `## ` or `### ` |
| SlideDeck.TitlesAreHeadings | export_enginex.py:250-256 | slide k is titled by the k-th heading line with its `#` marks removed, and there are as many slides as heading lines |
| SlideDeck.SlideContents | export_enginex.py:246-265 | the slide of a heading line holds, in order, one paragraph per non-blank line between that heading and the next (or the end) |
| SlideDeck.LeadingTextDropped | export_enginex.py:259 | lines before the first heading do not reach any slide |
| SlideDeck.TitleHasNoHash | export_enginex.py:256 | a slide title holds no `#` |
| SlideDeck.BodyTextHasNoMarks | export_enginex.py:262 | a body paragraph holds no `*` and no `-` |
| SlideDeck.SlidesWellFormed | export_enginex.py:246-265 | every slide has a `#`-free title and only level-0 paragraphs free of `*` and `-` |
| ExcelSheet.WriteHeader | export_enginex.py:146-148 | header cell (0,c) is column name c in the header format, and each column has width 20 |
| ExcelSheet.WriteRow | export_enginex.py:151-157 | row r lands in sheet row r+1, numbers in the number format and the rest as text; other rows are unchanged |
| ExcelSheet.WorksheetName | export_enginex.py:122 | the sheet name the worksheet library gives: "Sheet1" for an empty name, the requested name iff it has 1 to 31 characters, none of `[]:*?/\\`, and no apostrophe at either end, and a raise otherwise |
| ExcelSheet.CreatePuprExcel | export_enginex.py:116-161 | raises on a rejected sheet name, and raises iff the name is accepted and some row holds a NaN or infinity; otherwise the sheet carries the accepted name, the header in row 0, data row r in row r+1 with its format chosen by type, no cell outside that grid, and width 20 for every column |
| ExcelSheet.DefaultNameAccepted | export_enginex.py:116 | the default name "Data Teknis" is accepted unchanged |
| ExcelSheet.WorksheetNameIdempotent | export_enginex.py:122 | an accepted name is accepted again unchanged |
| ExcelSheet.RejectedNames | export_enginex.py:122 | a name over 31 characters or holding a forbidden character always raises |
| Civil3d.FromRecords | export_enginex.py:37-38 | a list of dicts becomes a rectangular frame with a column per key, in first-appearance order |
| Civil3d.KeysOfSpec | export_enginex.py:38 | the frame's columns are exactly the keys of some record, each once |
| Civil3d.HasLowerLabelIff | export_enginex.py:44 | the lower-cased column check finds `x` iff a column is named `x` or `X` |
| Civil3d.ExportToCivil3d | export_enginex.py:35-59 | plain CSV of the unchanged table iff the x/y/z check fails; otherwise one point per row; an error starts with "Error BIM Export: " |
| Civil3d.CoordinateFallbackUnused | export_enginex.py:52-54 | once the check passes, N, E and Z never fall back to the constant 0 |
| Civil3d.PnezdMapping | export_enginex.py:50-57 | P is 1..n; N from y else Y, E from x else X, Z from z else Z; D from desc, else keterangan, else "Point" |
| Civil3d.ErrorIff | export_enginex.py:52-59 | the export fails exactly when the x/y/z check passes and, for one of the pairs y/Y, x/X, z/Z, desc/keterangan, the first label occurs more than once among the columns, or is absent while the second occurs more than once |
| Civil3d.RecordsErrorIffEmpty | export_enginex.py:37-59 | a list of dicts takes the error path iff it is empty: the empty list's integer column index makes the `.str` check raise, and a non-empty list never repeats a column label |
| Session.SortProFirstSpec | app_enginex.py:159 | the model order is a permutation with every "pro" name first and each group in its original order |
| Session.StableOrderUnique | app_enginex.py:159 | any order with those properties is exactly the one computed |
| Session.DefaultModelIndex | app_enginex.py:172-176 | on a non-empty list: the first name containing "flash", else 0, always a valid index |
| Session.FileTypeOfName | app_enginex.py:545 | the file type is the lower-cased text after the last dot |
| Session.ProcessUploadedFile | app_enginex.py:543-591 | an image or text outcome only for a known type whose reader succeeded, carrying what it read; an error iff the type is unknown or the reader raised, and a reader's exception becomes "Gagal baca: …" |
| Session.UnreadTypesIgnoreContent | app_enginex.py:585-591 | a type that is not read is refused whatever the file holds: DWG and SHP with the binary-format message, any other with "Format tidak didukung." |
| Session.DispatchByLowerExtension | app_enginex.py:545 | the dispatch depends only on the lower-cased extension: any stem with `PDF` is handled exactly like `x.pdf` |
| Session.ProcessUploads | app_enginex.py:620-646 | after the upload loop a name is processed iff it was before or some upload of it succeeded; uploads whose names are all processed leave the turn unchanged |
| Session.ProcessedIff | app_enginex.py:623-643 | a name ends up processed iff it was before or some upload of that name succeeded, so failed uploads are retried |
| Session.AlreadyProcessedIgnored | app_enginex.py:625 | uploads already processed change nothing |
| Session.ResetSpec | app_enginex.py:535-538 | reset empties the chat of that project and gem, and afterwards every upload is read again |
| Dedup.DropDuplicatesSpec | backend_iksi.py:169 | survivors have distinct keys, every key survives, and the survivors are exactly the first rows of their key |
| Dedup.DropDuplicatesOrder | backend_iksi.py:169 | the survivors are the rows at the first-occurrence positions, in increasing position order: `keep='first'` returns a subsequence of its input |
| Iksi.AssetWeight | backend_iksi.py:172-176 | the weight of an asset type lies between 1.0 and 1.5 |
| Iksi.AssetWeightIgnoresCase | backend_iksi.py:173 | the weight depends only on the lower-cased type |
| Iksi.DotBounds | backend_iksi.py:184-185 | a weighted sum with non-negative weights lies between the extreme values times the total weight |
| Iksi.WeightedMeanBounds | backend_iksi.py:184-190 | the weighted mean, or the plain mean when the weights sum to 0, lies between the least and greatest condition |
| Iksi.PhysicalScoreBounds | backend_iksi.py:157-190 | the physical score of the newest inspections lies between the least and greatest condition when areas are non-negative |
| Iksi.PlantingRowScore | backend_iksi.py:196-203 | a planting row scores between 68 and 100 |
| Iksi.PlantingRowExtremes | backend_iksi.py:196-203 | 100 iff faktor_k ≥ 1 and the area ratio ≥ 0.9; 68 iff faktor_k < 0.7 and ratio < 0.9; no planned area never scores 100 |
| Iksi.PlantingRowMonotone | backend_iksi.py:198-199 | more water availability never lowers the row score |
| Iksi.FacilityValue | backend_iksi.py:210-211 | each facility condition maps to a value between 40 and 100 |
| Iksi.FacilityRowsMembers | backend_iksi.py:207 | the facility query keeps exactly the rows whose kind is not like "Personil" |
| Iksi.JuruCountsTwice | backend_iksi.py:207-219 | a "Juru" row is counted as a facility and makes the staff score 100 |
| Iksi.SaranaScoreBounds | backend_iksi.py:206-212 | the facility score is 0 with no rows and between 40 and 100 otherwise |
| Iksi.DokScoreBounds | backend_iksi.py:222-225 | with 0/1 flags the documentation score lies between 0 and 100 |
| Iksi.P3aValue | backend_iksi.py:229-233 | a P3A activity value is 100, 75 or 50 |
| Iksi.P3aNegationWins | backend_iksi.py:231 | a text containing "tidak" never scores 100 |
| Iksi.P3aActiveFirst | backend_iksi.py:231 | a text containing "aktif" and no "tidak" scores 100 |
| Iksi.P3aScoreBounds | backend_iksi.py:228-236 | the P3A score is 0 with no rows and between 50 and 100 otherwise |
| Iksi.TotalIksiBounds | backend_iksi.py:239-244 | the weights sum to one: equal components give that value, and components in 0..100 give a total in 0..100 |
| Iksi.TotalIksiMonotone | backend_iksi.py:239-244 | raising any component never lowers the total |
| Iksi.AuditInRange | backend_iksi.py:149-244 | every component and the total lie in 0..100, and an empty source contributes 0 |
| Priority.Classify | backend_iksi.py:287-291 | the band of a score for each strict threshold interval (>150, >80, >40, else) |
| Priority.ClassifyMonotone | backend_iksi.py:287-291 | a higher score never lands in a less urgent band |
| Priority.LabelsDistinct | backend_iksi.py:287-291 | the four labels are distinct and start with the band's number |
| Priority.RiskBounds | backend_iksi.py:274-278 | with inputs on the 0..100 scale the risk value is on that scale too |
| Priority.RiskMonotone | backend_iksi.py:274-278 | a worse condition or function value never lowers the risk |
| Priority.NoAreaTenthOfRisk | backend_iksi.py:281-283 | without a positive affected area the score is a tenth of the risk |
| Priority.SortDescSpec | backend_iksi.py:294 | the sort yields a permutation of its input, highest score first |
| Priority.GetPrioritasSpec | backend_iksi.py:259-295 | the result is sorted by score, is a permutation of the rated newest rows, has one row per asset name, and each row carries its score's band |
| Priority.EmptyIffNoRows | backend_iksi.py:269-270 | the result is empty exactly when there are no inspections |
| ChatStore.SimpanChat | backend_enginex.py:51-56 | one record is appended with a fresh id, every existing record is kept, and id order is kept |
| ChatStore.HistoryIsMatchingRows | backend_enginex.py:58-63 | the history is exactly the records of that project and gem, in id order |
| ChatStore.HistoryAfterSave | backend_enginex.py:51-63 | saving appends the message to its own history and leaves every other history unchanged |
| ChatStore.ClearRemovesExactly | backend_enginex.py:65-67 | clearing removes exactly the matching records and keeps the rest in id order |
| ChatStore.HistoryAfterClear | backend_enginex.py:58-67 | after clearing, that history is empty and every other history is unchanged |
| ChatStore.DistinctSpec | backend_enginex.py:70-74 | the project list holds each project with a record, exactly once |
| ChatStore.ProjectDisappears | backend_enginex.py:65-74 | a project whose only chat is cleared leaves the list |
| ChatStore.ProjectListedWhileRowsRemain | backend_enginex.py:65-74 | a project stays listed while one of its records remains |
| ChatStore.ExportData | backend_enginex.py:77-81 | the export includes every stored record |
| IksiChat.SimpanChatAi | backend_iksi.py:298-304 | one record is appended with the next AUTOINCREMENT id and every existing record is kept; on a valid store (ids increasing with insertion and below the next id) the store stays valid and the new id exceeds every stored one |
| IksiChat.DeleteKeepsValid | backend_iksi.py:312-314 | deleting keeps exactly the records of other gems and keeps the store valid |
| IksiChat.GetChatHistory | backend_iksi.py:306-310 | at most fifty messages |
| IksiChat.HistoryIsOldest | backend_iksi.py:306-310 | the history is the messages of the first fifty records of that gem, or all of them when fewer; on a valid store those records are exactly the gem's, in increasing id order, and every record of the gem left out has a larger id than every one returned (`ORDER BY id ASC LIMIT 50`) |
| IksiChat.NewestNotReadBack | backend_iksi.py:306-310 | once a gem has fifty messages, saving another leaves its history unchanged |
| IksiChat.SaveShowsWhileRoom | backend_iksi.py:298-310 | below fifty messages, saving appends the message to that gem's history |
| IksiChat.SaveLeavesOtherGems | backend_iksi.py:298-310 | saving for one gem leaves every other gem's history unchanged |
| IksiChat.HistoryAfterDelete | backend_iksi.py:306-314 | deleting empties that gem's history and keeps every other gem's |
| Persona.TableKeysDistinct | persona.py:48-378 | no key of the persona dictionary is written twice |
| Persona.KeysSpec | persona.py:380-382 | the keys of a dictionary literal are its entries' names, each once |
| Persona.LookupSpec | persona.py:384-386 | a key is found iff some entry has it, with that entry's text |
| Persona.PersonaListSpec | persona.py:380-382 | the list holds the 28 names in definition order, each once, the Grandmaster first |
| Persona.SystemInstructionSpec | persona.py:384-386 | a listed name gets its own text; any other name gets the Grandmaster's, whose key is defined |
| Persona.InstructionEmbedsBase | persona.py:11-378 | every persona text contains the base instruction, and the analytic ones also contain the plotting instruction |
| Persona.SystemInstructionHasBase | persona.py:384-386 | whatever name is asked for, the instruction returned contains the base instruction |

## Left out

- The Streamlit interface, the secrets and API key handling, and the Gemini client with its streaming and safety settings: all UI and network I/O. This includes the mode indicator (app_enginex.py:185), which only chooses a banner.
- The file readers for PDF, DOCX, XLSX, PPTX, KML/GeoJSON, KMZ and ZIP. Their result is a parameter (`ReadResult`): content read, or an exception message. `process_uploaded_file(None)` is not modelled, since the upload loop never passes `None`.
- Session.ProcessUploadedFile: the displayed exception text is the model's message; Python's own exception wording is not modelled.
- The Office byte formats written by python-docx, xlsxwriter and python-pptx. Fonts, colours, borders, alignment and the letterhead table are also left out. The models stop at the structure: blocks, slides and cells.
- WordExport.ChatDocument: python-docx raises on text XML does not allow, such as a control character like U+0001. `create_docx_from_text` then shows an error and returns `None` (app_enginex.py:66-68), and `create_pupr_word` lets the exception through. The model always yields the block list; which characters the XML layer rejects is library behaviour outside this model.
- SlideDeck.CreatePuprPptx: the empty first paragraph of each slide's text frame (python-pptx places it there) is not modelled.
- The Excel-writing stage of `extract_table_to_excel` (app_enginex.py:104-117). This covers ragged rows against the header and the fixed column width. The parse stage is modelled.
- ExcelSheet.CreatePuprExcel: pandas and numpy scalar types (`numpy.int64`, `bool`) are not modelled. Numbers are `Num` or `NonFinite` and everything else is `Text`, following the source's `isinstance(v, (int, float))` test. The worksheet library's `write` dispatch on strings is not modelled either: with the default workbook options, a `str(cell)` that is empty becomes a blank cell, one starting with `=` becomes a formula, and one that looks like a URL (`http://`, `mailto:` and the like) becomes a hyperlink. The model records all of these as `Text`. Its truncation of strings over 32767 characters, and its checks for duplicate sheet names and out-of-range rows and columns, are not modelled.
- Civil3d.ExportToCivil3d: `to_csv` quoting, number formatting and index alignment are left out. The error string carries only the "Error BIM Export: " prefix, not pandas' exception message.
- Civil3d: a NaN from a missing dict key is the `Missing` value. pandas dtype inference is not modelled.
- Civil3d.RecordsErrorIffEmpty: pandas 2 is assumed. There `pd.DataFrame([])` has a `RangeIndex` for its columns, and the `.str` accessor raises on it. Under pandas 1 the empty list would give an empty plain CSV instead.
- `render_geospatial_map`: folium, XML parsing and floating-point coordinates.
- SQLite mechanics:
  - the schema DDL;
  - timestamps;
  - the JSON backup and restore;
  - the `sqlite_sequence` reset.

  The stores are record sequences. `ORDER BY tanggal_inspeksi DESC` is taken as given: the inspections arrive newest first.
- Persona.Text: only the base instruction, the role line and the plotting instruction are modelled. The focus and task lines of each persona are prompt wording with no behaviour.
- IksiChat.GetChatHistory: the SQL is built by string formatting. A gem name with a quote makes the query fail, and `[]` is returned; that path is not modelled.
- `math.log10` in the impact factor is a function parameter, and `round(…, 2)` on the reported scores is omitted. Arithmetic is exact `real`, not IEEE floating point.
- `update_dokumentasi` is not modelled. It deletes every documentation row, then inserts two values per dict item into the three-column documentation table. So it fails for any non-empty dict, and for an empty dict it just empties the table.
- Strings.Lower, WordExport.LeadingDigits: Python's `str.lower` is modelled for ASCII letters only, and the regex `\d` as the ASCII digits.
- Rows with a NULL type or condition (pandas `None`/NaN) are not modelled in the IKSI rules.
- `get_prioritas_matematis`: the exception path, which returns an empty frame, is not modelled.
- `get_chat_history` of the ENGINEX back end: its exception path, which returns `[]`, is not modelled.
