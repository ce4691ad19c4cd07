# Health-certificate attendance: a verified model of the record keeping

The application has three browser pages that share one device's `localStorage` and a
spreadsheet endpoint (an Apps Script web app):

- **The public submission form** (`js/client.js`):
  - validates the required fields;
  - fingerprints the applicant's name;
  - refuses a second submission for the same person. It checks the device's `submittedKeys` list first, then the `sheetsCache` mirror of all known records;
  - stamps a new record with a reference number, `Pending` status and empty admin fields;
  - saves the record optimistically to the local mirror, whether or not the send to the sheet works.
- **The admin review page** (`js/admin.js`):
  - normalises records from the sheet or the mirror;
  - filters and sorts the table;
  - edits or deletes one record. When no endpoint is configured this is an upsert-by-ref or filter-by-ref on the mirror;
  - counts new entries between refreshes;
  - keeps the admin position-tag vocabulary;
  - HTML-escapes values and exports CSV.
- **The login page** (`js/login.js`):
  - seeds a default account;
  - signs in;
  - stores the session;
  - adds accounts, with case-insensitive name uniqueness;
  - deletes accounts, never the last one;
  - gates the management panel behind any stored password.

The project states this logic in Dafny, one module per concern:

| file | module | what it holds |
|---|---|---|
| `wrappers.dfy` | `Wrappers` | `Option`, standing for JavaScript's `undefined`/`null` versus a value |
| `strings.dfy` | `Strings` | `trim`, `toLowerCase`, `join`, `includes`, global one-character `replace`, string `<` |
| `seqs.dfy` | `Seqs` | `findIndex`, `splice(i, 1)`, push-if-absent |
| `records.dfy` | `Records` | the attendance `Record`, `User` and `Session` values; JavaScript truthiness of optional fields |
| `storage.dfy` | `Storage` | `LocalStore`, a class with one field per storage key |
| `remote.dfy` | `Remote` | the endpoint's URL test and the shape of a fetch outcome |
| `client.dfy` | `Client` | validation, fingerprint, duplicate guard, reference number, the `ClientPage` class |
| `escaping.dfy` | `Escaping` | `esc` with its decoder, and CSV quoting with its parser |
| `admin.dfy` | `Admin` | normalisation, mirror edits, refresh, filter and comparator, edit rule, tags, the `AdminPanel` class |
| `login.dfy` | `Login` | sign-in, account checks, case-insensitive uniqueness, the `LoginPage` class |

How the program's pieces are modelled:

- **Storage.** `LocalStore` has one field per key. A key never written reads as empty, which is what `JSON.parse(… || '[]')` gives. A record read back from storage is a fresh copy, so records are values (datatypes).
- **Page state.** Each page's module-level variables are the fields of a class. The handlers that change them are methods with `modifies` clauses.
- **Outside inputs become parameters:**
  - the clock: `now` for `Date.now()`, and `timestamp`/`loginTime` for `toISOString()`;
  - the random suffix of a generated reference;
  - the response of a `getAll` fetch (`FetchResult`);
  - whether a POST fails (`sendFails`).

**The fingerprint trims only the joined string.** `makeDupKey` (js/client.js:130-132) lower-cases and trims only the joined string `lastName|firstName|middleName`, not each field on its own. The form trims each field when it builds a record (js/client.js:88-90). So two form entries that differ only in case and surrounding white space still collide (`Client.FormFingerprint`). A stored record with a padded name does not (`Client.InnerSpaceIsSignificant`).

Other behaviour the model makes explicit:

- **Configured endpoint.** `saveRecord` changes only the in-memory table, and the mirror catches up at the next refresh. Only the unconfigured branch writes the mirror.
- **Login versus account creation.** Sign-in compares names exactly. Account creation compares them ignoring case (`Login.LoginIsCaseSensitive`).
- **The management panel** opens with the password of *any* account. The name is not involved.

## Model

| member | source | states |
|---|---|---|
| Strings.Trim | js/client.js:131 | `trim()`: the leading and then the trailing white-space run is cut; its shape is stated by `TrimShape`, `TrimNoOp` and `TrimIdempotent` |
| Strings.Lower | js/client.js:131 | `toLowerCase()` keeps the length and lower-cases each character in place |
| Strings.Join | js/admin.js:130-131 | `join(sep)`: the parts with the separator between neighbours, `""` for no parts; `JoinSnoc` states how it grows |
| Strings.Contains | js/admin.js:132 | `text.includes(pat)`: `pat` occurs in `text` at some position |
| Strings.ReplaceChar | js/admin.js:188 | `replace(/c/g, rep)`: every occurrence of `c` replaced by `rep`, every other character kept; it splits over concatenation (`ReplaceCharAppend`) and is the identity when `c` is absent (`ReplaceCharAbsent`) |
| Strings.LexLess | js/admin.js:142 | string `<`: lexicographic by character, a proper prefix first; ordered by `LexLessTrichotomy` and `LexLessTransitive` |
| Strings.TrimStartShape | js/client.js:70 | the leading cut keeps a suffix, removes only white space and leaves none in front |
| Strings.TrimEndShape | js/client.js:70 | the trailing cut keeps a prefix, removes only white space and leaves none at the end |
| Strings.TrimShape | js/client.js:88-98 | a trimmed value neither starts nor ends with white space |
| Strings.TrimNoOp | js/client.js:131 | a string that neither starts nor ends with white space is its own trim |
| Strings.TrimIdempotent | js/client.js:88-98 | trimming an already trimmed form value changes nothing |
| Strings.LowerTrimCommute | js/client.js:131 | lower-casing then trimming equals trimming then lower-casing, so the order in `makeDupKey` does not matter |
| Strings.JoinSnoc | js/admin.js:130-131 | joining one more part appends the separator and that part |
| Strings.LexLessTrichotomy | js/admin.js:142 | any two strings are equal or ordered one way by `<`, and never both ways |
| Strings.LexLessTransitive | js/admin.js:142 | string `<` is transitive |
| Seqs.FindIndex | js/client.js:109 | `find`/`findIndex` yield the first element satisfying the test, and nothing exactly when no element does |
| Seqs.RemoveAt | js/admin.js:307 | `splice(i, 1)` shrinks the list by one, keeps the elements before `i` and shifts the rest down |
| Seqs.AppendIfAbsent | js/client.js:209 | push-if-absent: the value ends up present, a value already present is not added again, nothing else is added, the old list is a prefix, and a list without duplicates stays so |
| Records.TextOf | js/admin.js:337 | `(v \|\| '')` is the value when truthy and `''` otherwise |
| Client.Missing | js/client.js:67-78 | which condition of `submitForm` flags each field: a blank trimmed text input, a falsy radio group, a `null` lost toggle |
| Client.Complete | js/client.js:65-80 | no field is missing; `CompleteIff` spells out the ten conditions |
| Client.Flagged | js/client.js:67-78 | the missing fields among those checked, in check order; never longer than the check list |
| Remote.IsConfigured | js/client.js:170 | the endpoint counts as configured iff its URL is neither empty nor the placeholder text; js/admin.js:24 applies the same test |
| Client.CompleteIff | js/client.js:65-78 | validation passes iff the five text inputs are non-blank after trim, the four radio groups are truthy and the lost toggle is not `null` |
| Client.EveryFieldChecked | js/client.js:67-78 | every field is among the five text inputs, the four radio groups or the lost toggle that submitting checks |
| Client.FlaggedMembers | js/client.js:67-78 | a field is flagged iff it is among those checked and it is missing |
| Client.FlaggedDistinct | js/client.js:67-78 | checking distinct fields flags each at most once |
| Client.FlaggedAppend | js/client.js:67-78 | checking the text inputs and then the radio groups flags the concatenation of the two results |
| Client.NothingFlaggedIffComplete | js/client.js:65-80 | nothing is flagged iff the form is complete |
| Client.ValidationErrorsMeaning | js/client.js:65-80 | the flagged fields are exactly the missing ones, with no field twice |
| Client.ValidateForm | js/client.js:64-84 | the loops flag the missing fields in check order, none stopping the others; `valid` stays true iff nothing is flagged iff the form is complete |
| Client.BuildRecord | js/client.js:86-99 | the three name inputs are trimmed into the record; it has no `ref` and no `status` yet |
| Client.DupKey | js/client.js:130-132 | `makeDupKey`: the three names joined by `\|`, lower-cased, then trimmed as one string; its properties are `DupKeyIgnoresCase`, `FormFingerprint` and `InnerSpaceIsSignificant` |
| Client.DupKeyIgnoresCase | js/client.js:130-132 | records whose three names agree ignoring letter case have equal fingerprints |
| Client.FormFingerprint | js/client.js:88-90 | form entries whose names agree after per-field trim and lower-casing give equal fingerprints |
| Client.InnerSpaceIsSignificant | js/client.js:130-132 | trimming applies only to the joined string: a last name with a trailing space (`"Cruz "`) and the same name without it (`"Cruz"`) give different fingerprints |
| Client.FindByKey | js/client.js:117 | the mirror lookup yields the first record with the fingerprint, and nothing iff no record has it |
| Client.CheckDuplicate | js/client.js:103-125 | a key in `submittedKeys` blocks and shows the first mirror match or the candidate; otherwise a mirror match blocks and shows that match; otherwise no block — each iff |
| Client.CrossDeviceThenDeviceBlock | js/client.js:106-125 | once a cross-device block has pushed the key, the identical submission is blocked on the device list and shows the same record |
| Client.Base36 | js/client.js:161 | `toString(36).toUpperCase()` is non-empty, uses `0-9A-Z`, and has no leading zero for a positive value |
| Client.Base36RoundTrip | js/client.js:161 | the base-36 text determines the clock value it came from |
| Client.RefNumber | js/client.js:161 | the reference starts with `ATT-` and its remainder reads back as the clock value |
| Client.Stamp | js/client.js:160-165 | `ref` is `ATT-`+base-36 time, `status` is `Pending`, `adminPosition` and `healthCertNumber` are `""`; every other field, and so the fingerprint, is unchanged |
| Client.ResubmitIsBlocked | js/client.js:202-211 | after a submission is saved, any later record with the same fingerprint is blocked on the device list and shows the saved record |
| Client.ClientPage.constructor | js/client.js:6-9 | every choice starts as `null` |
| Client.ClientPage.SelectRadio | js/client.js:25-26 | the choice of the named radio group becomes the value, and nothing else changes |
| Client.ClientPage.SetLost | js/client.js:35-36 | the lost toggle becomes the value |
| Client.ClientPage.ResetSelections | js/client.js:233 | every choice goes back to `null` |
| Client.ClientPage.SaveLocalCache | js/client.js:202-211 | the mirror grows by exactly the record, at the end; the key list gains its fingerprint only if absent |
| Client.ClientPage.FinalizeSubmit | js/client.js:160-195 | the stamped record is saved locally on every path (unconfigured, sent, send failed); a connection issue is reported iff configured and the send failed |
| Client.ClientPage.SubmitForm | js/client.js:64-128 | invalid form: the flagged fields, no storage change; device block: no change; cross-device block: the key appended; otherwise the stamped record appended and the key added |
| Escaping.Esc | js/admin.js:187-189 | `esc`: the three chained global replaces of `&`, `<`, `>`; characterised by `EscCons`, `EscHasNoAngleBrackets` and `UnescapeEsc` |
| Escaping.EscAppend | js/admin.js:187-189 | `esc` of a concatenation is the concatenation of the `esc`s |
| Escaping.EscSingle | js/login.js:177-179 | `esc` of one character is its entity (`&amp;`, `&lt;`, `&gt;`) or the character itself |
| Escaping.EscCons | js/admin.js:188 | the three chained `replace` calls act character by character: an `&` introduced by a later pass is not re-escaped |
| Escaping.EscHasNoAngleBrackets | js/admin.js:187-189 | `esc` output contains no `<` and no `>` |
| Escaping.UnescapeEsc | js/admin.js:187-189 | `esc` loses nothing: decoding its entities gives the input back |
| Escaping.QuoteField | js/admin.js:337 | every exported field begins and ends with a double quote |
| Escaping.CsvFields | js/admin.js:332-336 | a record exports one value per header column |
| Escaping.ParseQuotedField | js/admin.js:337 | a quoted field with doubled inner quotes reads back as the original value (section 2, item 7 of RFC 4180) |
| Escaping.CsvLine | js/admin.js:337 | one exported line: the quoted fields joined by commas; `CsvLineRoundTrip` reads it back |
| Escaping.CsvLineRoundTrip | js/admin.js:337 | a CSV line of quoted fields joined by commas reads back as exactly those fields |
| Escaping.CsvRecordRoundTrip | js/admin.js:332-337 | the exported line of a record reads back as its sixteen column values |
| Escaping.CsvDocument | js/admin.js:339 | `exportCSV`'s text: the header line, then one line per record, joined by newlines |
| Escaping.CsvDocumentLines | js/admin.js:339 | with no records the export is the header line alone, and each further record adds a newline and exactly its own line at the end |
| Admin.EnsureAdminFields | js/admin.js:55-60 | afterwards `status`, `healthCertNumber`, `adminPosition`, `ref` are defined; truthy values are kept; falsy ones become `Pending`, `""`, `""`, `ATT-`+random; no other field changes |
| Admin.EnsureAdminFieldsIdempotent | js/admin.js:55-60 | normalising twice, with any random draws, equals normalising once |
| Admin.SubmittedRecordIsNormal | js/admin.js:55-60 | a record stamped by the submission page is left unchanged by normalisation |
| Admin.NormalizeAll | js/admin.js:37 | `forEach(ensureAdminFields)`: the result has one entry per record, the `i`-th being that record normalised with the `i`-th random draw; every result has its four admin fields |
| Admin.Upsert | js/admin.js:65-68 | with a `ref` match, the first match is replaced and nothing else changes; without one, the record is appended |
| Admin.RemoveByRef | js/admin.js:80-81 | no record with the `ref` remains, every other record remains, and nothing is added |
| Admin.RemoveByRefAppend | js/admin.js:81 | the filter splits over concatenation, so the kept records stay in their original order |
| Admin.RemoveAbsentRef | js/admin.js:81 | deleting a `ref` no record has changes nothing |
| Admin.UpsertKeepsRefsUnique | js/admin.js:66-67 | if no two mirror records share a `ref`, the same holds after an upsert |
| Admin.RemoveAfterUpsert | js/admin.js:63-89 | deleting a `ref` after upserting a record with it gives the same mirror as deleting it directly |
| Admin.NewEntries | js/admin.js:39-41 | the toast fires iff `lastRowCount > 0` and the incoming list is longer, and reports exactly the difference |
| Admin.NewEntriesAddUp | js/admin.js:39-43 | over two growing refreshes the reported counts add up to the total growth |
| Admin.SearchText | js/admin.js:130-131 | the searched text: last, first and middle name, establishment name and `ref`, joined by spaces and lower-cased |
| Admin.Passes | js/admin.js:128-137 | the filter callback: the lower-cased query occurs in the searched text, and each non-empty dropdown equals its field |
| Admin.SearchFindsRef | js/admin.js:128-137 | searching a record's own reference, in any letter case, with no dropdown filter, shows it |
| Admin.EmptyQueryShowsAll | js/admin.js:128-137 | with all controls empty, every record passes the filter |
| Admin.ClearingFilterWidens | js/admin.js:133-135 | clearing one dropdown filter never hides a record that was shown |
| Admin.ColumnText | js/admin.js:140-141 | `(a[sortCol] \|\| '')`: the text of the sorted column, `""` for an absent field or an unknown column |
| Admin.CompareRows | js/admin.js:139-143 | the sort comparator on lower-cased column text: `-sortDir`, `sortDir` or `0` |
| Admin.CompareTiesIff | js/admin.js:139-143 | two rows tie iff their column texts agree ignoring letter case, in either direction |
| Admin.CompareAntisymmetric | js/admin.js:139-143 | swapping two rows negates the comparator |
| Admin.CompareReversed | js/admin.js:139-143 | flipping `sortDir` negates every comparison |
| Admin.CompareTransitive | js/admin.js:139-143 | in either direction, "sorts before" is transitive |
| Admin.ApplyEdit | js/admin.js:273-287 | `position`, `ref` and `timestamp` are never touched; `adminPosition` is the selected tag or `""`; the three names, the residential address, the establishment name and address and the certificate number are trimmed; the dropdowns and `status` are taken as chosen |
| Admin.EditReplacesInPlace | js/admin.js:65-67 | with unique `ref`s, upserting an edited record replaces exactly that record's position |
| Admin.ToggleTag | js/admin.js:250-251 | clicking the selected tag clears the selection, clicking any other selects it |
| Admin.ToggleTwice | js/admin.js:250-251 | two clicks on a tag restore a selection of that tag or of none |
| Admin.AdminPanel.constructor | js/admin.js:6-18 | initial state: empty table, no dialog, sorted by `timestamp` descending, count 0; a stored tag vocabulary replaces the default one (js/admin.js:382-383) |
| Admin.AdminPanel.LoadRecords | js/admin.js:21-53 | unconfigured: the table is the normalised mirror, status `offline`; fetched: normalised records replace table and mirror, `lastRowCount` is the new length and the toast is `NewEntries`; failure or malformed body: only the status becomes `error` |
| Admin.AdminPanel.StartPolling | js/admin.js:108-111 | polling is armed |
| Admin.AdminPanel.StopPolling | js/admin.js:112-115 | polling is disarmed |
| Admin.AdminPanel.OnVisibilityChange | js/admin.js:116-119 | a hidden page stops polling and keeps its data and status; a visible one polls again and ends in the state of `LoadRecords` on each of its three branches (offline mirror, fetched records, failed fetch) |
| Admin.AdminPanel.PushRecordToSheets | js/admin.js:63-76 | unconfigured: the mirror receives the upsert and the push succeeds; configured: the mirror is untouched |
| Admin.AdminPanel.DeleteRecordFromSheets | js/admin.js:78-89 | unconfigured: the mirror loses every record with the `ref`; configured: the mirror is untouched |
| Admin.AdminPanel.VisibleRows | js/admin.js:128-137 | the shown row indices are exactly those of passing records, in increasing order |
| Admin.AdminPanel.SortBy | js/admin.js:192-194 | the same column negates `sortDir`; a new column becomes `sortCol` with `sortDir` 1; `sortDir` stays ±1 |
| Admin.AdminPanel.OpenModal | js/admin.js:201-224 | the row becomes the one being edited, and its truthy admin tag, or none, becomes the selection |
| Admin.AdminPanel.CloseModal | js/admin.js:231-235 | no row is being edited |
| Admin.AdminPanel.ClickTag | js/admin.js:250-253 | the selection becomes `ToggleTag` of the old one |
| Admin.AdminPanel.AddCustomPosition | js/admin.js:258-267 | blank after trim: nothing changes; otherwise the value is appended if absent, becomes the selection and the vocabulary is stored; no duplicates are introduced |
| Admin.AdminPanel.SaveRecord | js/admin.js:270-295 | no dialog: nothing; otherwise exactly the edited row is replaced by `ApplyEdit` (its `position` kept), offline the mirror receives the upsert, the dialog closes, and the toast reflects the push |
| Admin.AdminPanel.DeleteRecord | js/admin.js:304-314 | no dialog: nothing; otherwise exactly the element at `editingIdx` is removed, offline the mirror loses its `ref`, the dialog closes |
| Admin.AdminPanel.CheckAuth | js/admin.js:358-371 | the signed-in name when a session exists, and no name, meaning the page redirects to login, iff there is none |
| Admin.AdminPanel.Logout | js/admin.js:373-377 | polling stops and the session is removed |
| Login.CheckLogin | js/login.js:61-76 | a blank trimmed name or empty password is rejected before lookup; otherwise sign-in succeeds iff an account has exactly the trimmed name and the password, under that name |
| Login.DefaultAdminCanLogIn | js/login.js:31 | the seeded account `admin` / `admin123` signs in |
| Login.LoginIsCaseSensitive | js/login.js:74 | `Admin` does not sign in as `admin`, though account creation treats the two names as the same |
| Login.CheckNewUser | js/login.js:183-207 | rejections in order: blank, name shorter than 3, password shorter than 6, name present ignoring case; otherwise the account is the trimmed name with the password |
| Login.AcceptKeepsNamesDistinct | js/login.js:203-210 | appending an accepted account keeps all names distinct ignoring case |
| Login.AddedUserCanLogIn | js/login.js:209 | an account just added signs in with its password and its name, however the name is padded |
| Login.RemoveKeepsNamesDistinct | js/login.js:225-227 | removing one account keeps the remaining names distinct ignoring case |
| Login.LoginPage.constructor | js/login.js:112 | the management panel starts locked |
| Login.LoginPage.SeedDefault | js/login.js:29-33 | an empty list becomes the single default account; a non-empty list is unchanged; afterwards there is at least one account |
| Login.LoginPage.SetSession | js/login.js:37-42 | the session holds the name and the login time |
| Login.LoginPage.GetSession | js/login.js:44-46 | returns the stored session |
| Login.LoginPage.ClearSession | js/login.js:48-50 | no session remains |
| Login.LoginPage.SessionRoundTrip | js/login.js:37-50 | after `setSession(u)` the session read back has name `u`; after `clearSession` there is none |
| Login.LoginPage.CheckAlreadyLoggedIn | js/login.js:53-57 | the page moves on iff a session is stored |
| Login.LoginPage.DoLogin | js/login.js:60-90 | the result is `CheckLogin`; success stores a session for the trimmed name; failure leaves the session alone |
| Login.LoginPage.UnlockManage | js/login.js:123-139 | the entry is valid iff some account has exactly that password; the flag becomes set on a valid entry and is otherwise unchanged |
| Login.LoginPage.LockManage | js/login.js:141-147 | the flag is reset |
| Login.LoginPage.AddUser | js/login.js:183-215 | the result is `CheckNewUser`; on acceptance exactly one account is appended at the end, otherwise nothing changes; distinct names stay distinct |
| Login.LoginPage.DeleteUser | js/login.js:219-230 | at most one account: refused with no change; a past-the-end index: no change; otherwise exactly index `idx` is removed; a non-empty list stays non-empty; distinct names stay distinct |

## Left out

- **Presentation is not modelled.** That covers all DOM work: `getElementById`, `innerHTML`, class toggles, scrolling, the live clock, the password-visibility toggle, the panel open/close of `toggleManage`, the duplicate, success and user-list renderings, and the connection indicator's colours and labels. The model keeps only the state these handlers change and the outcome they report (`SubmitOutcome`, `DialogOutcome`, `LoginResult`, `NewUserCheck`, `DeleteResult`).
- **Toast and error texts.** They appear only as the outcome values, or as comments next to them. Admin.NewEntries returns the count; the toast's singular/plural wording is not modelled.
- **`fetch` calls are not modelled.** This covers the `no-cors` POSTs and `getAll`. What comes back is a parameter: `FetchResult` for a refresh and `sendFails` for a POST. With a configured endpoint, the sheet's own update is outside the model.
- **Timers.** `setInterval`/`clearInterval` polling is reduced to the `polling` flag. The timer's repeated calls to `loadRecords` are not modelled.
- **`JSON.parse`/`JSON.stringify` around storage.** Storage holds typed values. Unparsable stored text and non-string values from the sheet (numbers, `null` names) are not modelled. Neither is the text `"undefined"` that a missing name field would put into a fingerprint.
- **Extra `_idx` field.** `renderTable` writes `_idx` into each record, and that field can travel with a pushed record. `Admin.AdminPanel.VisibleRows` returns the indices instead.
- **Randomness and the clock are inputs.** `Math.random()` and `Date.now()`/`toISOString()` are given as parameters. Reference numbers are not proved unique, because the code does not make them so. The length of the random suffix in js/admin.js:59 (`substr(2,6)`) is not modelled.
- **Sorting.** The browser's `Array.prototype.sort` algorithm is not modelled; only the comparator at js/admin.js:139-143 is, with its order properties. Date formatting (`toLocaleString`) and the CSV download (`Blob`, object URL, file name) are left out too.
- **Unicode.** `toLowerCase` maps only `A`–`Z`, and `trim` knows a fixed set of white-space characters. `length` and `<` are taken over Dafny characters, not UTF-16 code units, so they agree with JavaScript only on the Basic Multilingual Plane.
- **Admin.EnsureAdminFields** mutates a record in place, and **Admin.NormalizeAll** applies it to the array's records in place. The model returns the normalised record, and a new sequence of normalised records, as values. Every record is re-read from storage as a copy, so there is no aliasing to lose.
- **Admin.AdminPanel.LoadRecords** sets the status to `loading` for the duration of the request. The model ends in the final status only.
- **Startup sequences.** The startup code of the pages (js/admin.js:380-386, js/login.js:249-251, js/client.js:56-61) is modelled as the constructors plus the methods it calls, not as one step.
