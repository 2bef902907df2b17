# Certificate checker: a Dafny model

`scripts/check_certificates.py` sends a signing certificate (`.p12`) and its
provisioning profile (`.mobileprovision`) to an online checking service. It
reads the service's HTML answer, keeps the loosely formatted "alert" block
and turns that block into two records: the certificate (name, dates, issuer,
serial number, status, revocation time) and the provisioning profile (MP
name, app id, dates, binding certificates, matching status, permission
dictionary, devices limit). It then rewrites the status table and the
"Recommend Certificate" badge of the repository's own `README.md` from the
results.

This project models the text-processing core of that script in Dafny and
proves what it does:

- `text.dfy` (`Text`) holds the parts of Python's `str` the script relies on:
  `strip` with Python's whitespace set, ASCII `lower`, `startswith`, the `in`
  substring test, `split` and `join` on one character, and `replace(' ', 'T', 1)`.
  Module `Wrappers` holds `Option`.
- `keyvalue.dfy` (`KeyValue`) models `split_kv` (first ASCII or full-width
  colon) and `clean_value` (whitespace runs collapsed to one space, then stripped).
- `alertlines.dfy` (`LineExtraction`) models `lines_from_alert_div`. The alert
  block is a sequence of child nodes: text, `<br>`, or another tag reduced to
  its text. The loop is an imperative method proved equal to a functional
  grouping of the nodes at `<br>` boundaries.
- `dates.dfy` (`Dates`) models `normalize_date`: `GMT` dropped before a
  sign, every pair of spaces replaced by one, a trailing `±HH:MM` offset kept,
  and the first space of the rest turned into `T`.
- `checker.dfy` (`Checker`) models `parse_checker_html` from the list of
  lines onwards. The if/elif chain is `Classify`. `Apply` is the effect of
  one branch and `Visit` handles one line. `Next` is the cursor after a
  line, which skips a binding section. `ParseFrom` runs the whole loop.
  The binding-certificate scanner and the permission scanner are `Section`,
  `ScanEntry` and `Permissions`. A Python dict that the script fills key by
  key is a record of `Option` fields, one per key. A date key is
  `Option<Option<string>>`, because `normalize_date` can store `None`
  under a key that is then present. The permission dictionary is an
  association list that keeps insertion order.
- `checker_loop.dfy` (`CheckerLoop`) is the script's `while` loop and its
  nested scanners as methods, each proved equal to the functions above.
- `checker_props.dfy` (`CheckerProps`) proves what the parse promises. Each
  certificate date is taken from the first handled line with its key. A
  profile date is set by the first line that reaches the profile branch
  (MP name set, certificate date present) and is never overwritten. Every
  other field, the two halves of the certificate number and the devices
  limit included, keeps the value of the last line that takes its branch.
  Binding entries are in source order, one per `Certificate N` header. The
  permission dictionary has unique keys and the last value per key. The
  loop always terminates.
- `readme.dfy` (`Readme`) models `parse_readme_table`, `update_readme_table`
  and `update_recommended_cert`. The last one updates an array in place.
  `readme_props.dfy` (`ReadmeProps`) proves their properties: the lines
  split and join back to the text, rows are in order, only the cells of
  table rows change, and the badges are as stated.
- `merge.dfy` (`Merge`) models the rule in `main` that gives each table row
  the status and dates of the first check result whose folder name
  contains the row's company.

Three behaviours of the script shape the model:

- Statuses are stored as the service wrote them. Nothing maps them to
  valid, revoked or unknown.
- Only the two dates of each record are first-writer-wins. Every other
  field is overwritten by a later line with the same key.
- A date whose key line follows the `MP Name` line still goes to the
  certificate while the certificate has no such date.

Also, `normalize_date` does not return other text unchanged, as its
docstring says. Any non-empty text is stripped, loses `GMT` before a `+` or
`-`, has every pair of spaces replaced by one, and then has its first space
turned into `T` (in the part before a trailing `±HH:MM` offset, when there
is one). No `Z` is ever appended.

## Model

| member | source | states |
|---|---|---|
| Text.Strip | scripts/check_certificates.py:56-57 | `str.strip()`: the result starts and ends with a non-space, and is empty exactly when the input is all whitespace |
| Text.TrimLeft | scripts/check_certificates.py:71 | leading whitespace removed: the result is a suffix of the input, and everything cut off is whitespace |
| Text.TrimRight | scripts/check_certificates.py:56 | trailing whitespace removed: the result is a prefix of the input, and everything cut off is whitespace |
| Text.StripTrimLeft | scripts/check_certificates.py:71 | stripping after a left trim is the same as stripping |
| Text.StripStripped | scripts/check_certificates.py:89 | stripping an already stripped string changes nothing |
| Text.Split | scripts/check_certificates.py:323 | `split(c)` gives one more part than there are separators, and no part holds the separator |
| Text.JoinSplit | scripts/check_certificates.py:437 | joining the parts of a split with the same character gives back the original text |
| Text.SplitJoin | scripts/check_certificates.py:373 | splitting a join of separator-free parts gives back the same parts |
| Text.SplitCons | scripts/check_certificates.py:354 | a split of a separator-free head, a separator and a tail starts with that head |
| Text.SplitNoSeparator | scripts/check_certificates.py:354 | text without the separator splits into itself alone |
| Text.ReplaceFirstSpace | scripts/check_certificates.py:110 | `replace(' ', 'T', 1)` keeps the length and adds no character other than `T` |
| Text.ReplaceFirstSpaceAt | scripts/check_certificates.py:110 | with its first space at k, exactly position k becomes `T` and every other character is kept |
| Text.ReplaceFirstSpaceNone | scripts/check_certificates.py:113 | text without a space is returned unchanged |
| KeyValue.FindColon | scripts/check_certificates.py:54 | finds the first ASCII or full-width colon, or reports that there is none |
| KeyValue.SplitAtColon | scripts/check_certificates.py:54 | the split is missing exactly when the line has no colon, and the key part never holds a colon |
| KeyValue.SplitKv | scripts/check_certificates.py:53-57 | the key holds no colon, key and value are stripped, and a line without a colon gives (stripped line, "") |
| KeyValue.SplitKvAtFirstColon | scripts/check_certificates.py:53-56 | with the first colon at c, the key is the stripped text before c and the value the stripped text after it |
| KeyValue.Collapse | scripts/check_certificates.py:62 | `re.sub(r'\s+', ' ', raw)`: the result has no two adjacent whitespace characters and no whitespace other than ' ', and is blank exactly when the input is |
| KeyValue.CollapseSingleSpaced | scripts/check_certificates.py:62 | collapsing text that is already single-spaced changes nothing |
| KeyValue.StripSingleSpaced | scripts/check_certificates.py:62 | stripping keeps a string single-spaced |
| KeyValue.CleanValue | scripts/check_certificates.py:59-63 | the result is in normal form (stripped, single-spaced); `None` gives "", and the result is empty exactly when the input is blank |
| KeyValue.CleanValueIdempotent | scripts/check_certificates.py:59-63 | cleaning a cleaned value changes nothing |
| KeyValue.CleanValueFixpoint | scripts/check_certificates.py:59-63 | a value already in normal form is its own cleaned value |
| KeyValue.CollapseKeepsWords | scripts/check_certificates.py:62 | `re.sub(r'\s+', ' ', raw)` changes whitespace only: with all whitespace removed, the result and the input are the same sequence |
| KeyValue.CollapseRun | scripts/check_certificates.py:62 | a maximal non-empty whitespace run `w` between `a` (empty or ending in a non-space) and `b` (empty or starting with a non-space) becomes exactly one space: `Collapse(a + w + b) == Collapse(a) + " " + Collapse(b)` |
| KeyValue.CollapseAppend | scripts/check_certificates.py:62 | after a non-space character the substitution works on the two sides independently |
| Text.NonSpaceStrip | scripts/check_certificates.py:62 | `strip()` removes whitespace only: the non-whitespace characters survive, in order |
| KeyValue.CleanValueKeepsWords | scripts/check_certificates.py:59-63 | `clean_value` changes whitespace only: with all whitespace removed, the cleaned and the raw value are the same sequence |
| LineExtraction.Groups | scripts/check_certificates.py:69-80 | the nodes fall into one group per `<br>` plus one, and no group holds a `<br>` |
| LineExtraction.LinesOf | scripts/check_certificates.py:76-89 | at most one line per group; every line is non-empty and in normal form |
| LineExtraction.CleanRawLines | scripts/check_certificates.py:76-89 | the final cleaning of the buffered lines gives, group by group, the cleaned join of the group's text pieces |
| LineExtraction.CleanFlush | scripts/check_certificates.py:85-89 | one group yields no line when its joined text is empty, and otherwise yields its cleaned joined text |
| LineExtraction.CleanLinesAppend | scripts/check_certificates.py:89 | the final cleaning works line by line, so it distributes over concatenation |
| LineExtraction.AlertLinesNormal | scripts/check_certificates.py:89 | every extracted line is non-empty, stripped and single-spaced |
| LineExtraction.AlertLinesCount | scripts/check_certificates.py:65-89 | there are at most one more lines than `<br>` tags |
| LineExtraction.NoBreakOneLine | scripts/check_certificates.py:65-89 | a block without `<br>` gives at most one line: the cleaned join of all its text |
| LineExtraction.GroupsSnoc | scripts/check_certificates.py:75-84 | appending a node either opens a new group (`<br>`) or extends the current one |
| LineExtraction.FlushBuffer | scripts/check_certificates.py:76-80 | flushing the buffer adds its stripped `" ".join` when that is non-empty |
| LineExtraction.LinesFromAlertDiv | scripts/check_certificates.py:65-89 | the loop returns exactly the grouped lines; each is non-empty and in normal form, and there are at most `<br>` count + 1 of them |
| Dates.DropGmt | scripts/check_certificates.py:103 | removing `GMT` before a sign never lengthens the text and adds no character |
| Dates.CollapseDoubleSpaces | scripts/check_certificates.py:104 | `replace('  ', ' ')` never lengthens the text and adds no character |
| Dates.Reformat | scripts/check_certificates.py:106-114 | with a trailing `±HH:MM` the result still ends with that offset; without it the length is kept; only `T` is ever added |
| Dates.NormalizeDate | scripts/check_certificates.py:91-114 | `None` exactly for missing or empty input; otherwise never longer than the input, with no character beyond the input's and `T` |
| Dates.Prepared | scripts/check_certificates.py:101-104 | the text after stripping, deleting `GMT` before a sign and replacing every pair of spaces by one is never longer than the input and holds no character the input lacks |
| Dates.NormalizeDateKeepsOffset | scripts/check_certificates.py:106-111 | when the stripped input ends with `±HH:MM`, the output ends with the same offset |
| Dates.NormalizeDateWithoutOffset | scripts/check_certificates.py:112-114 | when the prepared text `p` has no trailing offset and its first space is at `k`, the output is `p[..k] + "T" + p[k+1..]`: that space becomes `T` and nothing else changes |
| Dates.NormalizeDateWithoutSpace | scripts/check_certificates.py:112-114 | when the prepared text has no trailing offset and no space, it is the output unchanged |
| Dates.NormalizeDateWithOffset | scripts/check_certificates.py:106-111 | when the prepared text is `pre` followed by an offset `z`, and `c`, the stripped `pre`, has its first space at `k`, the output is `c[..k] + "T" + c[k+1..] + z` |
| Dates.NormalizeDateOffsetWithoutSpace | scripts/check_certificates.py:106-111 | when the prepared text is `pre` followed by an offset `z` and the stripped `pre` has no space, the output is the stripped `pre` followed directly by `z` |
| Dates.NormalizeDateGmt | scripts/check_certificates.py:93-97 | `D + " " + H + " GMT±HH:MM"` becomes `D + "T" + H + "±HH:MM"`, for any non-empty date D and time H that hold no space and no `G` and have no whitespace at either end |
| Dates.NormalizeDatePlain | scripts/check_certificates.py:96-97 | `D + " " + H + "±HH:MM"` becomes `D + "T" + H + "±HH:MM"`, under the same conditions on D and H |
| Dates.PrepareKeepsOffset | scripts/check_certificates.py:103-106 | dropping `GMT` and halving every pair of spaces keep a trailing offset in place |
| Checker.Put | scripts/check_certificates.py:226 | dict assignment: the key maps to the new value, every other key keeps its value, and a new key goes last |
| Checker.WithHex | scripts/check_certificates.py:157-158 | `setdefault` then setting `Hex`: the hex is set and the decimal kept |
| Checker.WithDecimal | scripts/check_certificates.py:160-161 | the decimal is set and the hex kept |
| Checker.ValueOf | scripts/check_certificates.py:138-140 | a line's value is in normal form |
| Checker.EntryArmOf | scripts/check_certificates.py:192-203 | a binding-entry line stops the entry only when its key names a following section |
| Checker.ScanEntry | scripts/check_certificates.py:188-204 | an entry's scan ends inside the lines and never before its start |
| Checker.Section | scripts/check_certificates.py:182-212 | a binding section ends inside the lines and never before its start |
| Checker.PermStop | scripts/check_certificates.py:220-223 | the permission scan stops at the first later line mentioning "devices limit", or at the end |
| Checker.PermPair | scripts/check_certificates.py:224-226 | a line gives a permission pair exactly when it holds a colon |
| Checker.Next | scripts/check_certificates.py:213-231 | the cursor always moves forward and never past the end, so the loop terminates |
| Checker.VisitedFrom | scripts/check_certificates.py:136-231 | every line the loop handles lies inside the input |
| CheckerLoop.FillEntry | scripts/check_certificates.py:190-199 | one binding-entry line updates the entry as the scan specifies |
| CheckerLoop.ScanEntryLoop | scripts/check_certificates.py:187-204 | the inner `while` ends where the entry scan ends, with the same entry |
| CheckerLoop.SectionLoop | scripts/check_certificates.py:182-212 | the binding loop ends where the section ends, with the same entries in the same order |
| CheckerLoop.PermissionsLoop | scripts/check_certificates.py:218-228 | the permission loop builds the specified dictionary, and its keys are unique |
| CheckerLoop.HandleLine | scripts/check_certificates.py:137-231 | one pass of the loop body gives the state of `Visit` and the cursor of `Next` |
| CheckerLoop.ParseLinesLoop | scripts/check_certificates.py:126-236 | the whole `while` loop and its finish give the parse function's result |
| CheckerLoop.ParseCheckerHtmlLoop | scripts/check_certificates.py:120-124 | no alert block gives the error result; otherwise the extracted lines are parsed |
| CheckerProps.ScanEntryStops | scripts/check_certificates.py:189-203 | an entry's scan passes no `Certificate N` header, and stops at the end, at a header, or at a line whose key names a following section |
| CheckerProps.SectionEnds | scripts/check_certificates.py:208-211 | a binding section ends at the end of the lines, or at a non-header line naming a following section |
| CheckerProps.Headers | scripts/check_certificates.py:185 | lists, in order, exactly the `Certificate N` header lines of a range |
| CheckerProps.SectionEntries | scripts/check_certificates.py:185-207 | a section's entries are, in source order, one per `Certificate N` header, each filled from the lines after its header |
| CheckerProps.HeadersSkip | scripts/check_certificates.py:208-212 | lines that are not headers contribute no entry |
| CheckerProps.PutUnique | scripts/check_certificates.py:226 | assigning a key keeps the dictionary's keys unique |
| CheckerProps.PermissionsUnique | scripts/check_certificates.py:218-228 | the permission dictionary never holds a key twice |
| CheckerProps.PermissionsLookup | scripts/check_certificates.py:218-228 | a key maps to the value of the last line in the block that holds it, otherwise to its earlier value |
| CheckerProps.PermPairIsSplitKv | scripts/check_certificates.py:224-226 | a permission line is split exactly as `split_kv` splits it |
| CheckerProps.ClassifyStateFree | scripts/check_certificates.py:143-230 | a line that takes one of the thirteen branches other than the four date branches, the hex and decimal branches, the devices-limit branch and the no-branch case takes it whatever the dictionaries hold |
| CheckerProps.ClassifyNoDateKey | scripts/check_certificates.py:143-230 | a line whose lower-cased key starts with neither "effective date" nor "expiration date" takes the same branch whatever the dictionaries hold, the hex, decimal and devices-limit branches included |
| CheckerProps.OpensBindingIff | scripts/check_certificates.py:180 | a line opens a binding section exactly when its lowered key starts with "binding certificates" and is no certificate-number key |
| CheckerProps.ChainCertDate | scripts/check_certificates.py:145-148 | a line sets the certificate's date exactly when its key starts with that date's name and the date is still absent |
| CheckerProps.ChainProvDate | scripts/check_certificates.py:176-179 | a line sets the profile's date exactly when its key starts with that date's name and is no certificate-number key (neither hex nor decimal), the certificate already has that date, the profile does not, and the MP name is set |
| CheckerProps.VisitCertDate | scripts/check_certificates.py:145-148 | after one line, the certificate date is the normalized value when that line set it, otherwise unchanged |
| CheckerProps.VisitProvDate | scripts/check_certificates.py:176-179 | after one line, the profile date is the normalized value when that line set it, otherwise unchanged |
| CheckerProps.CertDateFirst | scripts/check_certificates.py:145-148 | the certificate's date comes from the first handled line with its key (first writer wins) |
| CheckerProps.ProvDateKept | scripts/check_certificates.py:176-179 | once set, a profile date is never overwritten |
| CheckerProps.VisitField | scripts/check_certificates.py:143-230 | a plain field is set to the line's value exactly when the line takes its branch |
| CheckerProps.ApplyField | scripts/check_certificates.py:143-230 | a branch writes only its own field |
| CheckerProps.LastTaking | scripts/check_certificates.py:136-231 | the line it picks is one the loop visits |
| CheckerProps.LastTakingStateFree | scripts/check_certificates.py:143-230 | for a branch that ignores the dictionaries, the last line taking it in the loop's own state is the last visited line whose text selects it |
| CheckerProps.LastWinsAlong | scripts/check_certificates.py:136-231 | any part of the dictionaries that only one branch sets, and always to a value of its line, ends as the value of the last visited line taking that branch in the state the loop has there, or keeps its starting value when there is none |
| CheckerProps.LastWriterWinsAlong | scripts/check_certificates.py:143-230 | each plain field, the devices limit included, holds the cleaned value of the last visited line that takes its branch (last writer wins) |
| CheckerProps.LastWriterWins | scripts/check_certificates.py:143-230 | for the plain fields other than the devices limit, the last visited line whose key selects the branch decides the field, whatever the state |
| CheckerProps.ApplyHex | scripts/check_certificates.py:155-158 | only the hex branch sets the top certificate's hex number; every other branch, the decimal one included, keeps it |
| CheckerProps.ApplyDecimal | scripts/check_certificates.py:159-161 | only the decimal branch sets the top certificate's decimal number; every other branch, the hex one included, keeps it |
| CheckerProps.HexLast | scripts/check_certificates.py:155-158 | the top certificate's hex number is the cleaned value of the last visited line taking the hex branch |
| CheckerProps.DecimalLast | scripts/check_certificates.py:159-161 | the top certificate's decimal number is the cleaned value of the last visited line taking the decimal branch |
| CheckerProps.RevocationLast | scripts/check_certificates.py:164-165 | the revocation time is the normalized value of the last revocation line |
| CheckerProps.PermissionsLast | scripts/check_certificates.py:216-228 | the permission dictionary is the block after the last "permission status" line |
| CheckerProps.VisitKeepsBacked | scripts/check_certificates.py:176-179 | one line keeps every profile date backed by an MP name and the certificate's same date |
| CheckerProps.ProvDatesBackedKept | scripts/check_certificates.py:136-231 | the whole loop keeps the profile dates backed |
| CheckerProps.ParsedProvDates | scripts/check_certificates.py:176-179 | in the result, a profile date is present only together with the MP name and the certificate's same date |
| CheckerProps.VisitEntries | scripts/check_certificates.py:180-213 | only a line opening a binding section adds entries, and it adds that section's entries |
| CheckerProps.VisitBinding | scripts/check_certificates.py:180-213 | a binding line changes nothing but the collected entries |
| CheckerProps.BindingCollected | scripts/check_certificates.py:128-213 | the collected entries are those of every binding section the loop reaches, in order |
| CheckerProps.ParsedBinding | scripts/check_certificates.py:233-234 | `BindingCertificates` is present exactly when some entry was collected, and holds them all |
| CheckerProps.BindingResumes | scripts/check_certificates.py:213 | after a binding section the loop resumes at the section's end line, which is handled next |
| CheckerProps.PermissionKeepsCursor | scripts/check_certificates.py:216-231 | the permission scan does not move the cursor: the permission lines are handled by the main loop too |
| CheckerProps.VisitedIncreasing | scripts/check_certificates.py:136-231 | the handled lines are strictly increasing and no more than the lines |
| Readme.HeaderFrom | scripts/check_certificates.py:325-328 | finds the first line starting with the table header, and no earlier line starts with it |
| Readme.RowOf | scripts/check_certificates.py:338-346 | a row takes company, type, status and dates from cells 0-4, the download from cell 5 or "", and its line index |
| Readme.TableEnd | scripts/check_certificates.py:332-335 | the table runs to the first line that does not start with `|`, or that starts with `|---` |
| Readme.TableLabel | scripts/check_certificates.py:355-361 | a status gets a label exactly when, lower-cased, it is "valid", "revoked" or "unknown" |
| Readme.Assign | scripts/check_certificates.py:365-372 | `if len(ps) > k: ps[k] = v` changes only index k, and only when the line has it |
| Readme.NewParts | scripts/check_certificates.py:354-372 | the rewritten parts keep their number and take each new cell |
| Readme.FirstMatch | scripts/check_certificates.py:383 | a row whose company contains the name, at an index with no matching row before it (the first match), or none if no row's company does |
| Readme.FindTableHeader | scripts/check_certificates.py:324-330 | the loop returns -1 exactly when no line starts with the header, otherwise the first such line |
| Readme.TableRowsLoop | scripts/check_certificates.py:331-347 | the loop collects the specified rows |
| Readme.ParseReadmeTableLoop | scripts/check_certificates.py:322-348 | the whole function gives the specified rows and lines |
| Readme.RewriteParts | scripts/check_certificates.py:354-372 | the cell assignments give the specified parts |
| Readme.UpdateReadmeTable | scripts/check_certificates.py:350-374 | the loop gives the specified lines, or none where the script raises `IndexError` |
| Readme.UpdateRecommendedCert | scripts/check_certificates.py:376-396 | the array is rewritten in place into the specified lines |
| ReadmeProps.CellsOfLine | scripts/check_certificates.py:336 | no cell holds a `|`, and a line with five or more cells has at least seven parts |
| ReadmeProps.TableRowsFromLines | scripts/check_certificates.py:336-346 | every row is built from the cells of its own line |
| ReadmeProps.TableRowsBounds | scripts/check_certificates.py:332-335 | every row lies inside the table |
| ReadmeProps.TableRowsIncreasing | scripts/check_certificates.py:332-347 | rows are in strictly increasing line order |
| ReadmeProps.TableRowsComplete | scripts/check_certificates.py:337 | a table line gives a row exactly when it has at least five cells |
| ReadmeProps.ParseReadmeTableShape | scripts/check_certificates.py:322-348 | the lines are the text split at newlines and join back to it; no header gives no rows; otherwise the rows are exactly the table lines with at least five cells, in order, each built from its line |
| ReadmeProps.NewPartsNoBar | scripts/check_certificates.py:365-373 | cells without `|` stay free of `|` when rewritten |
| ReadmeProps.NewPartsColumns | scripts/check_certificates.py:355-372 | parts 0-2 and beyond 6 are kept; part 3 is the status label, or the old cell stripped; parts 4 and 5 are the new dates, or the old cells stripped; part 6 is the download |
| ReadmeProps.StatusCell | scripts/check_certificates.py:355-366 | the status cell reads ✅ Signed, ❌ Revoked or ⚠️ Status: Unknown for the three statuses, and otherwise keeps the old cell stripped |
| ReadmeProps.RowColumns | scripts/check_certificates.py:352-373 | the row's line keeps its number of `|` parts, and each column is rewritten as described |
| ReadmeProps.UpdateTableFrame | scripts/check_certificates.py:350-374 | lines that no row points to are unchanged, and the number of lines is kept |
| ReadmeProps.UpdateTableColumns | scripts/check_certificates.py:350-374 | every line keeps its number of `|` parts |
| ReadmeProps.UpdateTableSucceeds | scripts/check_certificates.py:362-364 | when every row's line has seven parts and no new value holds `|`, the update never raises |
| ReadmeProps.ParsedRowsFit | scripts/check_certificates.py:337-345 | rows straight from the parse always satisfy that condition |
| ReadmeProps.RecommendLines | scripts/check_certificates.py:376-396 | the lines keep their number; only a line right after a "Recommend Certificate" line can change, and it becomes the badge for its stripped text |
| ReadmeProps.RecommendFrom | scripts/check_certificates.py:377-394 | from line i on, lines up to i are kept and each later line is its badge or unchanged |
| ReadmeProps.BadgeStatus | scripts/check_certificates.py:383-394 | the badge reads ✅ Signed or ❌ Revoked for a matched valid or revoked row, and ⚠️ Unknown otherwise |
| Merge.FirstEntry | scripts/check_certificates.py:426 | the first entry whose non-empty source contains the company (case-insensitively), or none if no entry matches |
| Merge.DateOf | scripts/check_certificates.py:429-430 | the profile's date when non-empty, else the certificate's when non-empty, else "Unknown" |
| Merge.MergeRow | scripts/check_certificates.py:426-434 | company, type, download and line index are kept; no match leaves the row as it was; a match leaves no status or date empty |
| Merge.MergeRows | scripts/check_certificates.py:424-434 | every row is merged, in order |
| Merge.MergeRowMatched | scripts/check_certificates.py:426-433 | a matched row takes the entry's status or "Unknown", and each date from the profile, else the certificate, else "Unknown" |
| Merge.MergeRowFailedCheck | scripts/check_certificates.py:426-430 | a folder whose check raised gives "Unknown" for the status and both dates |
| Merge.MergedRowReadsOnlyStatus | scripts/check_certificates.py:426-433 | after a match, the table update can only raise for lack of an old status cell, never for an old date cell |
| Merge.MissingStatusLabel | scripts/check_certificates.py:428-433 | a match without a certificate status is written as ⚠️ Status: Unknown |

## Left out

- Fetching the CSRF token (`get_token`), the multipart upload (`submit_check`), and the HTTP session and its timeouts are not modelled. They are network I/O.
- HTML parsing is not modelled. The alert block is the input, given as its child nodes, and `None` when no alert `div` exists. How the HTML parser finds that `div`, and how `get_text(" ", strip=True)` flattens a nested tag, are not modelled: a non-`<br>` tag is a node already holding its text.
- Finding the folders, choosing the `.p12` and `.mobileprovision` files, reading `password.txt`, and the default password are not modelled. They are file-system I/O.
- `check_one_folder` reshaping the parse into its JSON entry is only partly modelled. `Merge.Entry` keeps the source folder name and the two records. A folder whose check raised has no records. Writing `certificates.json`, reading and writing `README.md`, and all `print` output are not modelled.
- Regular expressions are ASCII-only in the model. `\d` means ASCII digits, and `re.I` and `lower()` fold ASCII letters only. `.*` in `certificate number.*hex` is modelled as "hex" occurring after "certificate number" with no newline in between, as `.` without `re.S` requires.
- ClassifyStateFree: covers only the thirteen branches that never depend on the dictionaries. A line whose key starts with a date name can move between a date branch and the hex, decimal, devices-limit or no-branch case as the dictionaries fill; `ClassifyNoDateKey` covers every other line.
- Exceptions are not modelled as such. Where `update_readme_table` raises `IndexError` (it reads an old cell the line lacks), `Readme.UpdateTable` returns `None`.
