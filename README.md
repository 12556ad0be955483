# MNMS portal: a verified model of the form, scoring and import/export core

The MNMS portal is a single-page React application. Researchers fill in the
Minimum Necessary Metadata Standard (MNMS) for a set of experimental animals
("subjects"). This project models the logic of `src/App.js` behind that page:

- the form schema: five sections of labelled fields;
- the template table, which maps 30 CSV/XLSX column headers to record keys;
- the missing-value rule;
- the per-section completeness percentage and its list of missing labels;
- the global MNMS score and its Good/Average/Bad band;
- header normalisation and validation of an imported file's columns;
- the mapping of imported rows to records;
- the building of exported rows, and the export file name;
- the choice of parser by file extension;
- adding, deleting and editing subjects, and keeping the selected subject in step;
- the common and differing fields across subjects.

Modules:

- `Wrappers`: `Option` and `Result`.
- `Seqs`: sequences without repeats, subsequences, disjointness, `MapSeq`.
- `JsString`: the JavaScript string operations the code uses: `trim` with ECMAScript's whitespace set, `toLowerCase`, `endsWith`, and `split('.').pop()`.
- `Objects`: a JavaScript plain object with string values. It keeps its keys in insertion order (`Object.keys` order) and a map from key to value.
- `Schema`: the `sections` constant and the keys of the form.
- `HeaderMap`: the template table, `normalizeHeader`, `validateHeaders`, and the row mapping in both directions.
- `Completeness`: `isValueMissing`, the section and global scores, the score band.
- `Subjects`: the subjects list and the selected index. Covers `createEmptySubject`, `handleAddAnimal`, `handleDeleteAnimal` and `handleChange`.
- `Diff`: `getCommonFields` and `getDifferingFields`.
- `Transfer`: `handleFileImport` and the two export handlers. The file parser and the user's answer to the file-name prompt are parameters.

The loops that count or build a result step by step are methods with
`while` loops. These are:
- the scoring counters of `getSectionCompleteness` and `getGlobalCompleteness`;
- the nested loops of `createEmptySubject`;
- the import and export row builders, with their `rows.map`/`subjects.map`;
- the loop of `getCommonFields`.
Each such method is proved equal to a recursive specification function, and
the lemmas state the properties of those functions. The map/filter pipelines
that only compute a value are functions:
- `headers.map(normalizeHeader)` is `NormalizeAll`;
- `req.filter` is `MissingFrom`;
- `prev.filter` is `RemoveAt`;
- `prev.map` in `handleChange` is `HandleChange`;
- `keys.filter` with `subjects.every` is `DifferingKeys` with `IsCommon`. React state setters become functions or methods from the old
`AppState` (subjects and selected index) to the new one.

## Model

| member | source | states |
|---|---|---|
| Schema.FieldKeys | src/App.js:15-74 | the keys of a list of fields, one per field, in field order |
| Schema.Sections | src/App.js:15-74 | the five sections in source order (study design, outcome measures, experimental animals, experimental procedures, housing & husbandry), each with its key, title and fields as key/label pairs in declared order |
| Schema.AllFields | src/App.js:15-74 | a field is in the flattened list iff it belongs to one of the sections |
| Schema.FieldCount | src/App.js:109-111 | the number of fields in all sections is the length of the flattened field list |
| Schema.AllFieldsOfSchema | src/App.js:15-74 | the form's fields are the five sections' fields, one section after the other |
| Schema.SectionKeysAre | src/App.js:15-74 | the field keys of each of the five sections, in their declared order |
| Schema.SchemaKeysBySection | src/App.js:127-135 | the form's keys are the five sections' keys concatenated in section order |
| Schema.SchemaKeysDistinct | src/App.js:15-74 | no field key occurs twice in the form, so `createEmptySubject` never overwrites a key |
| HeaderMap.Headers | src/App.js:194 | `Object.keys(csvToFieldMap)`: the headers of the table, one per entry, in order |
| HeaderMap.Keys | src/App.js:161-192 | the record keys of the table, one per entry, in order |
| HeaderMap.HeaderTable | src/App.js:161-192 | `csvToFieldMap` as an ordered list of header/key entries: the 30 pairs of lines 162-191 in declaration order |
| HeaderMap.RequiredHeaders | src/App.js:194 | `Object.keys(csvToFieldMap)`: the headers of the table in entry order |
| HeaderMap.TableByRuns | src/App.js:161-192 | the table's headers and keys are those of its five runs of columns, in order |
| HeaderMap.AnimalColumnsAre | src/App.js:162-176 | the 15 headers and keys of the animal columns, in order |
| HeaderMap.SmallRunsAre | src/App.js:177-191 | the headers and keys of the study, procedure, housing and outcome columns |
| HeaderMap.TableWellFormed | src/App.js:161-194 | the 30 required headers are pairwise different, and so are the 30 keys; every header starts and ends with a letter |
| HeaderMap.FormKeysImported | src/App.js:161-192 | every field key of the form is a key of the table; "strainShortName" and "value" are table keys with no form field |
| HeaderMap.NormalizeHeader | src/App.js:196-198 | dropping a leading byte-order mark and trimming is exactly `trim` |
| HeaderMap.NormalizeHeaderIdempotent | src/App.js:196-198 | normalising a header twice is normalising it once |
| HeaderMap.NormalizeAll | src/App.js:201-202 | `headers.map(normalizeHeader)`: same length, each element normalised |
| HeaderMap.RequiredHeadersNormalized | src/App.js:202 | the required headers are already normalised, so the `req` list equals `requiredHeaders` |
| HeaderMap.MissingFrom | src/App.js:203 | `req.filter(h => !normHeaders.includes(h))`: the required headers not in the file's list, in required order; `MissingFromMembers` proves both directions of membership and the order |
| HeaderMap.MissingFromMembers | src/App.js:203 | the filter keeps exactly the required headers absent from the file, in required order |
| HeaderMap.Validate | src/App.js:200-205 | `ok` iff nothing is missing; a header is missing iff its normal form is required and absent from the file's normalised headers; missing headers come in template order |
| HeaderMap.ValidateHeaders | src/App.js:200-205 | `ok` iff the missing list is empty |
| HeaderMap.ValidateNormalized | src/App.js:200-205 | with already-normalised required headers, missing = required minus the file's normalised headers, in required order |
| HeaderMap.ValidateHeadersSpec | src/App.js:200-205 | for the template: ok iff nothing is missing; a header is missing iff it is a required header that no file header normalises to; missing is a subsequence of `requiredHeaders` |
| HeaderMap.ValidateIgnoresPadding | src/App.js:201 | padding and byte-order marks around the file's headers do not change the verdict |
| HeaderMap.ValidateAllHeaders | src/App.js:200-205 | a file with exactly the template's headers passes with nothing missing |
| HeaderMap.ValidateSelf | src/App.js:200-205 | any normalised required list validates against itself |
| HeaderMap.MissingFromAppend | src/App.js:203 | filtering a concatenation filters each part |
| HeaderMap.MissingOne | src/App.js:203 | dropping the i-th of distinct required headers leaves exactly that header missing |
| HeaderMap.ValidateDropOne | src/App.js:200-205 | a file lacking one distinct, normalised required header fails, naming exactly that header |
| HeaderMap.ValidateWithoutOne | src/App.js:249-253 | a template file lacking any one column is rejected with exactly that column reported |
| HeaderMap.ValidateWithoutSpecies | src/App.js:249-253 | a file lacking "Species" is rejected with missing = ["Species"] |
| HeaderMap.ImportEntriesSpec | src/App.js:256-262 | a mapped record holds each table key with the row's value under its header, nothing outside the table's keys, and keys in table order |
| HeaderMap.ImportMappingSpec | src/App.js:255-263 | for the template: key k gets `row[header]` when defined; no key outside `csvToFieldMap`'s values is set |
| HeaderMap.ImportRow | src/App.js:256-262 | the loop builds the mapped record of one row |
| HeaderMap.ImportAllIndex | src/App.js:255-263 | one record per row, the i-th record mapped from the i-th row |
| HeaderMap.ImportRows | src/App.js:255-263 | the loop maps every row, in order |
| HeaderMap.ImportAllPresent | src/App.js:256-262 | when every header is defined in the row, the record's keys are the table's keys in table order |
| HeaderMap.ImportEntries | src/App.js:256-262 | the forEach over the table: for each entry in order, when the row defines the entry's header, the entry's key is set to that value; characterised by `ImportEntriesSpec` |
| HeaderMap.ImportMapping | src/App.js:255-263 | the import of one row over `csvToFieldMap`; characterised by `ImportMappingSpec` |
| HeaderMap.ImportAll | src/App.js:255-263 | `(rows \|\| []).map(...)`: each row imported, in order; characterised by `ImportAllIndex` |
| HeaderMap.ValueOr | src/App.js:284 | `subject[fieldKey] \|\| ""`: the value when present, else the empty string |
| HeaderMap.ExportEntriesSpec | src/App.js:282-286 | an exported row's keys are the table's headers in order; the value under each header is the record's value for its key, or "" |
| HeaderMap.ExportMappingSpec | src/App.js:281-287 | for the template: the row's keys are the 30 required headers in order, each holding the record's value or "" |
| HeaderMap.ExportRow | src/App.js:282-286 | the loop builds the exported row of one record |
| HeaderMap.ExportAllIndex | src/App.js:281-287 | one exported row per subject, in order |
| HeaderMap.ExportRows | src/App.js:301-307 | the loop exports every subject, in order |
| HeaderMap.ExportEntries | src/App.js:282-286 | the forEach over the table: for each entry in order, the entry's header is set to the record's value for its key, or ""; characterised by `ExportEntriesSpec` |
| HeaderMap.ExportMapping | src/App.js:281-287 | the exported row of one record over `csvToFieldMap`; characterised by `ExportMappingSpec` |
| HeaderMap.ExportAll | src/App.js:281-287 | `subjects.map(...)`: each record exported, in order; characterised by `ExportAllIndex` |
| HeaderMap.RoundTripEntries | src/App.js:255-287 | importing an exported row gives back every table key, each with the record's value or "" |
| HeaderMap.RoundTrip | src/App.js:255-287 | for the template: import of export restores all 30 keys in order, with the record's values or "" |
| Completeness.MissingMarkLowered | src/App.js:80-81 | the character-level test agrees with comparing the lower-cased trimmed string against "", "na" and "-" |
| Completeness.IsValueMissing | src/App.js:78-82 | `isValueMissing`: an absent value is missing; a present one is missing when its trim is "", "-", or "na" in any letter case; characterised by `IsValueMissingIff` |
| Completeness.IsValueMissingIff | src/App.js:78-82 | a value is missing iff it is absent, or its trim is "", "-" or "na" in any letter case |
| Completeness.MissingAbsentAndNa | src/App.js:78-82 | an absent value and "NA" are missing |
| Completeness.MissingPaddedDash | src/App.js:78-82 | " - " is missing |
| Completeness.NotMissingZero | src/App.js:78-82 | "0" is not missing |
| Completeness.NotMissingFalse | src/App.js:78-82 | "false" is not missing |
| Completeness.Percent | src/App.js:99 | 100 when there is nothing to fill; at most 100 when filled ≤ total |
| Completeness.PercentIsNearest | src/App.js:99 | the percent is 100·filled/total rounded to the nearest integer, halves up |
| Completeness.PercentEnds | src/App.js:99 | nothing filled gives 0; everything filled gives 100 |
| Completeness.PercentMonotone | src/App.js:99 | more filled fields never lower the percent |
| Completeness.Lookup | src/App.js:92 | `data && data[f.key]`: absent when there is no data, else the record's value |
| Completeness.FilledCount | src/App.js:88-97 | the filled count never exceeds the number of fields |
| Completeness.Captions | src/App.js:95 | the labels of the fields, one per field, in order |
| Completeness.MissingCaptions | src/App.js:90-96 | the labels pushed by the forEach: the label of each field whose value is missing, in field order; characterised by `MissingCaptionsOrdered`, `MissingCaptionsComplete`, `MissingCaptionsSound` and `FilledPlusMissing` |
| Completeness.FilledPlusMissing | src/App.js:88-97 | filled fields plus missing labels make up all the fields |
| Completeness.MissingCaptionsOrdered | src/App.js:91-97 | the missing labels come in field order |
| Completeness.MissingCaptionsComplete | src/App.js:91-97 | the label of every missing field is listed |
| Completeness.MissingCaptionsSound | src/App.js:91-97 | every listed label belongs to a field whose value is missing |
| Completeness.SectionCompleteness | src/App.js:84-102 | the loop yields the rounded percent and the missing labels; percent ≤ 100 and the number of labels is total − filled |
| Completeness.FilledFor | src/App.js:113-117 | at most one filled cell per subject for a field |
| Completeness.FilledInBound | src/App.js:112-118 | filled cells of a section ≤ its fields × subjects |
| Completeness.TotalCellsIsProduct | src/App.js:111 | the summed `sec.fields.length * subjectsArr.length` is the field count times the subject count |
| Completeness.GlobalFilledBound | src/App.js:109-119 | filled cells never exceed total cells |
| Completeness.GlobalScore | src/App.js:105-121 | the score is at most 100, and 100 when there are no cells |
| Completeness.GlobalCompleteness | src/App.js:105-121 | the nested loops compute the global score over the form; ≤ 100; 100 with no subjects |
| Completeness.ScoreOver | src/App.js:106-120 | the section loop computes the global score of any list of sections |
| Completeness.FieldFilled | src/App.js:112-118 | the field loop counts the filled cells of one section |
| Completeness.KeyFilled | src/App.js:113-117 | the subject loop counts the subjects whose value for one key is filled |
| Completeness.FilledForAll | src/App.js:113-117 | when no subject misses the key, every subject counts |
| Completeness.FilledInAll | src/App.js:112-118 | when nothing is missing, a section's filled cells are fields × subjects |
| Completeness.GlobalFilledAll | src/App.js:109-119 | when nothing is missing, the filled cells are all the cells |
| Completeness.GlobalScoreFull | src/App.js:105-121 | when every cell is filled the global score is 100 |
| Completeness.FilledInOne | src/App.js:112-118 | with one subject, a section's filled cells are that subject's filled fields |
| Completeness.GlobalMatchesSection | src/App.js:84-121 | one section and one subject: the global score equals the section percent |
| Completeness.BandOf | src/App.js:416-417 | Good iff score ≥ 80, Average iff 50 ≤ score < 80, Bad iff score < 50 |
| Completeness.BandMonotone | src/App.js:416-417 | a higher score never gets a worse band |
| Subjects.CreateEmptySubject | src/App.js:127-135 | the loop builds the empty subject |
| Subjects.EmptySubject | src/App.js:127-135 | the object `createEmptySubject` returns: every field of every section, in order, set to ""; characterised by `EmptySubjectSpec` |
| Subjects.BlankFields | src/App.js:130-132 | the inner loop sets every field of a section to "" |
| Subjects.FillBlankAppend | src/App.js:129-133 | blanking two lists of fields one after the other is blanking their concatenation |
| Subjects.BlankFromAllFields | src/App.js:129-133 | blanking section by section is blanking the flattened field list |
| Subjects.FillBlankValues | src/App.js:129-133 | a blanked object holds "" for exactly the given field keys and nothing else |
| Subjects.FillBlankKeys | src/App.js:129-133 | with distinct field keys, the blanked object's keys are the field keys in order |
| Subjects.EmptySubjectSpec | src/App.js:127-135 | the empty subject's keys are the form's keys in order, each holding "", and no other key is set |
| Subjects.BlankFieldsMissing | src/App.js:92 | fields holding "" count as not filled |
| Subjects.EmptySubjectScoresZero | src/App.js:84-102 | every section of a new subject scores 0% |
| Subjects.SectionsHaveFields | src/App.js:15-74 | no section of the form is empty |
| Subjects.AddAnimal | src/App.js:137-143 | adding appends an empty subject and selects max(old selection, old length) |
| Subjects.Added | src/App.js:137-143 | the state after adding: the subjects with an empty subject appended, and the selection `Math.max(prev, subjects.length)` |
| Subjects.AddSelectsNewAnimal | src/App.js:137-143 | from an in-range selection, adding selects the new, empty subject and keeps the earlier subjects |
| Subjects.RemoveAtOutside | src/App.js:147 | filtering by an index no subject has keeps the list |
| Subjects.RemoveAtInside | src/App.js:147 | filtering by index i removes exactly the i-th subject and keeps the order of the rest |
| Subjects.RemoveAt | src/App.js:147 | `prev.filter((_, i) => i !== index)`: every subject except the one at `index`, in order; characterised by `RemoveAtInside` and `RemoveAtOutside` |
| Subjects.AdjustSelection | src/App.js:149-154 | the selection rule, tested in source order: after the deleted one, move back one; past the new end, go to `Math.max(0, length - 1)`; on the deleted one, go to `Math.max(0, sel - 1)`; otherwise stay; characterised by the three `Delete…` lemmas |
| Subjects.DeleteAnimal | src/App.js:145-157 | the subjects lose exactly the i-th one when i is in range, and are unchanged otherwise |
| Subjects.DeleteKeepsSelectionInRange | src/App.js:149-154 | after deleting, the selection is in range, or 0 when no subject is left |
| Subjects.DeleteFollowsSelectedAnimal | src/App.js:149-154 | deleting another subject keeps the same subject selected |
| Subjects.DeleteSelectedMovesBack | src/App.js:152 | deleting the selected subject selects the one before it, or 0 |
| Subjects.HandleChange | src/App.js:318-328 | same length; without an index every subject becomes `{ ...subj, [fieldKey]: value }`, with one only that subject does; other keys and other subjects are unchanged |
| Subjects.HandleChangeIdempotent | src/App.js:318-328 | applying the same edit twice is applying it once |
| Subjects.SetTwice | src/App.js:322 | spreading the same key and value twice is spreading it once |
| Subjects.HandleChangeOutOfRange | src/App.js:325 | an index that matches no subject changes nothing |
| Diff.GetCommonFields | src/App.js:331-342 | empty with no subjects; otherwise the loop builds the common entries over the first subject's keys |
| Diff.GetDifferingFields | src/App.js:344-351 | empty with no subjects; otherwise a key is listed iff it is one of the first subject's keys on which some subject differs from the first, in key order |
| Diff.IsCommon | src/App.js:337 | `subjects.every(subj => subj[key] === firstVal)` (again at line 349): every subject has the first subject's value for the key, absence included |
| Diff.CommonKeys | src/App.js:335-340 | the keys whose test at line 337 passes, in key order; characterised by `CommonKeysMembers` and `CommonKeysOrdered` |
| Diff.DifferingKeys | src/App.js:347-350 | `keys.filter(...)`: the keys on which some subject differs, in key order; characterised by `DifferingKeysMembers` and `DifferingKeysOrdered` |
| Diff.CommonEntries | src/App.js:334-340 | the object the loop builds: each common key, in key order, set to the first subject's value; characterised by `CommonEntriesSpec` |
| Diff.CommonKeysMembers | src/App.js:335-340 | a key is common iff it is one of the keys and every subject has the first subject's value |
| Diff.DifferingKeysMembers | src/App.js:347-350 | a key differs iff it is one of the keys and some subject disagrees with the first |
| Diff.CommonKeysOrdered | src/App.js:335-340 | the common keys keep the order of the first subject's keys |
| Diff.DifferingKeysOrdered | src/App.js:347-350 | the differing keys keep the order of the first subject's keys |
| Diff.SplitCounts | src/App.js:331-351 | the common and the differing keys together number the first subject's keys |
| Diff.CommonEntriesSpec | src/App.js:334-340 | the common object's keys are the common keys in order; each holds the first subject's value, and no other key is set |
| Diff.CommonFieldsSpec | src/App.js:331-342 | for a key of the first subject, the common object agrees with it iff the key is common; other keys are absent |
| Diff.CommonAndDifferingPartition | src/App.js:331-351 | common and differing keys are disjoint and together are exactly the first subject's keys |
| Diff.IdenticalRecords | src/App.js:331-351 | identical subjects differ nowhere and share all their entries |
| Diff.CommonKeysAll | src/App.js:335-340 | when every key is common, the common keys are all the keys |
| Diff.TwoRecordsDisagree | src/App.js:344-351 | two subjects with "x" = "1" and "x" = "2" differ on "x" |
| Diff.BroadcastMakesCommon | src/App.js:318-351 | after an edit without an index, the edited key is common and not differing |
| Objects.Get | src/App.js:258-259 | `o[k]` (also at lines 284 and 336): the value stored under `k`, or undefined (`None`) when `k` is not a key |
| Objects.Set | src/App.js:322 | `{ ...o, [k]: v }` (also at line 325) and `o[k] = v` (lines 259, 284): `k` now holds `v`; every other key keeps its value; an existing key keeps its place and a new key goes last |
| JsString.TrimStartSpec | src/App.js:198 | the leading trim drops a prefix of whitespace and stops at a non-whitespace character |
| JsString.TrimEndSpec | src/App.js:198 | the trailing trim drops a suffix of whitespace and stops at a non-whitespace character |
| JsString.TrimSpec | src/App.js:198 | a trimmed string neither starts nor ends with whitespace |
| JsString.TrimIdempotent | src/App.js:198 | trimming twice is trimming once |
| JsString.TrimSkipsLeadingWhitespace | src/App.js:197-198 | removing one leading whitespace character (such as a byte-order mark) does not change the trim |
| JsString.Trim | src/App.js:198 | `trim` (also at line 80): the result is never longer than the input; `TrimSpec`, `TrimStartSpec` and `TrimEndSpec` state that it removes exactly the whitespace at both ends |
| JsString.LowerChar | src/App.js:80 | upper-case ASCII letters map to their lower case; every other character is kept |
| JsString.ToLower | src/App.js:80 | `toLowerCase` keeps the length and lowers each character |
| JsString.AfterLast | src/App.js:208 | `split(sep).pop()`: the longest suffix without the separator, preceded by it or at the start |
| JsString.AfterLastOfSuffix | src/App.js:208 | the text after the last separator of `s + sep + tail` is `tail` when `tail` has no separator |
| JsString.EndsWith | src/App.js:277 | `endsWith` (also at line 299): the suffix is no longer than the string and equals its last characters |
| Transfer.FormatOf | src/App.js:208-241 | CSV iff the lower-cased extension is "csv"; XLSX iff it is "xlsx" or "xls"; unsupported otherwise |
| Transfer.Extension | src/App.js:208 | `file.name.toLowerCase().split('.').pop()`: the lower-cased text after the last dot, or the whole lower-cased name; `ExtensionOfName` gives the extension of a name ending in a dot and an extension |
| Transfer.WithExtension | src/App.js:277 | the file name ends with the extension; unchanged if it already does, else the extension is appended |
| Transfer.WithExtensionIdempotent | src/App.js:299 | suffixing a name twice is suffixing it once |
| Transfer.ToLowerAppend | src/App.js:208 | lower-casing distributes over concatenation |
| Transfer.ExtensionOfName | src/App.js:208 | a name ending in "." and a lower-case, dot-free extension has exactly that extension |
| Transfer.SuffixShape | src/App.js:277 | each export suffix is a dot followed by a lower-case, dot-free extension |
| Transfer.ExportedNameReimports | src/App.js:208-299 | a file named by an export is dispatched back to the parser of the same format |
| Transfer.HandleFileImport | src/App.js:244-271 | no file or a failed parse leaves the state unchanged; missing columns leave it unchanged and report exactly `validateHeaders`' list; otherwise the subjects are the mapped rows and the selection is 0 |
| Transfer.HandleExport | src/App.js:273-314 | a cancelled or empty name exports nothing; otherwise the suffixed name, the 30 headers and one row per subject |
| Transfer.ExportTableSpec | src/App.js:279-307 | one row per subject, each keyed by the 30 required headers in order, and each re-imports to all 30 keys |
| Transfer.ExportThenImport | src/App.js:244-307 | importing an export gives as many subjects, each holding every table key with its old value or "" |

## Left out

- Rendering, layout, the landing page, the open/closed toggle of each `Section` component (src/App.js:529-537) and every other part of the React tree are not modelled. Of the page, only the band at lines 416-417 is.
- `Papa.parse` and the XLSX reader are not modelled. `Transfer.HandleFileImport` takes the parser as a function parameter, which returns the headers and rows, or a failure.
- XLSX row keys are normalised at lines 232-238, and CSV headers inside `Papa.parse` at line 214. This happens inside that parser: the model assumes the parser already returned normalised row keys. The headers handed to validation are normalised again by `validateHeaders`, as in the source.
- `window.prompt`, `window.alert`, `console.error`, `Blob` and `saveAs` are I/O. The prompt's answer is a parameter of `Transfer.HandleExport`. The alert becomes the `ImportOutcome` value. The file write becomes the returned `ExportJob` (name, format, headers, rows). Serialisation by `Papa.unparse`/`XLSX.write` is not modelled.
- Transfer.HandleFileImport: the `async`/`try`/`catch` is modelled as the parser's `Result`. An unsupported extension and a parser error both give `Failed`, because the source sends both to the same `catch`.
- Completeness.Percent: `Math.round(filled / total * 100)` is modelled as exact rounding to nearest, halves up, on rationals. The floating-point division and multiplication are not modelled.
- Values are strings. XLSX cells can be numbers, which the source turns into strings with `String(val)` in `isValueMissing`. Falsy non-strings (`0 || ""` at line 284) are not modelled either.
- JsString.ToLower: lower-cases ASCII letters only, while the source's `toLowerCase` is full Unicode. After lower-casing, the source compares only against "", "na", "-", "csv", "xlsx" and "xls". No non-ASCII character lower-cases to one of their letters, so these comparisons agree.
- Completeness.IsValueMissing is written as a character-level test on the trimmed string. `Completeness.MissingMarkLowered` proves it equal to the source's lower-case comparison.
- HeaderMap.ValidateHeaders: its own contract states only `ok` iff nothing is missing. The full specification is proved by `HeaderMap.ValidateHeadersSpec` (for the template) and `HeaderMap.Validate` (for any required list).
- The defensive checks at lines 85-87, 108 and 110 are not modelled. They handle a section without a field array, and `sections` not being an array. The `sections` constant never triggers them, and the types of the model rule them out.
- `handleChange`'s `sectionKey` argument is not modelled: the source never uses it.
- Subjects.DeleteAnimal: the selection rule is modelled for any index, as written (`AdjustSelection`). Its lemmas assume an index and a selection that are in range, as the delete buttons supply. With a negative index the source can select −1, and so does the model, but no lemma describes that case.
- `subjects[0] || {}` and `subj && subj[f.key]` guard against holes in the subjects array. The model's subjects list has no holes.
- Records with keys that are not strings, prototype properties, and `undefined` stored as a value are not modelled. A key is either absent or holds a string.
- The loop methods `ScoreOver`, `FieldFilled`, `ImportRow`, `ImportRows`, `ExportRow`, `ExportRows` and `BlankFields` take the table or the sections as parameters. The methods that stand for the handlers pass the source's constants.
- The template table is written as five runs of columns, in source order, joined together. This lets the proofs about its 30 headers and keys go run by run.
- The selection after an import is set to 0 whatever the number of rows, as at line 265. An import of zero rows leaves a selection with no subject behind it, as in the source.
