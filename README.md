# gerador-pw plaque generator: a verified model of its decision logic

gerador-pw turns a pasted price table into printable plaques ("plaquinhas"), one per item and value.
- The browser client (`app.js`) parses the table and renders one card per line.
- It fills a Word template for every card and downloads the documents one by one or as a ZIP batch.
- The Express server (`api/server.js`) renders the template and converts it to PDF.
- The server also keeps user accounts and a 60-day log of logins, readable only by the configured administrator.

This project models the decision logic of both halves in Dafny and proves what it promises:
- **Text table** (`text_table.dfy`, `currency.dfy`):
  - lines are split on `\r?\n`, trimmed, and blank lines dropped;
  - a line is kept only when it opens with a 1–4 digit item number;
  - the last `R$ …d,dd` amount on the line wins;
  - the amount is read as whole centavos and rendered again as canonical pt-BR currency text.
- **Placeholders** (`templates.dfy`):
  - the four placeholder patterns, matched ignoring case;
  - the server's `detectDelimiters` priority;
  - the client's check that refuses a template with none of the patterns;
  - the template path of each model.
- **Batch export** (`export.dfy`):
  - the download banner and the cancel flag, as a class;
  - the clamped progress percentage;
  - the sequential batch loop, with its ZIP entry names, its cancellation and its error banner.
- **Request gates** (`access.dfy`): the CORS origin rule, the bearer token of the `Authorization` header, and `requireAdmin`.
- **Accounts** (`accounts.dfy`):
  - the user and login-entry tables, as a class over a map and a sequence;
  - the register, login and reset-password handlers;
  - `logLogin` and its 60-day retention;
  - the administrator's listing.
- **Documents** (`generate.dfy`): the client and server document generation, and the DOCX and PDF routes with their fallback order.
- **Shared pieces**: `text.dfy` (JavaScript character classes, trimming, digits), `requests.dfy` (JSON body fields) and `wrappers.dfy` (Option and Result).

Foreign code is a parameter of the function that calls it:
- the template library: PizZip's constructor, Docxtemplater's constructor and its render;
- Gotenberg, LibreOffice and `fetch`;
- `bcrypt.compareSync` and `bcrypt.hashSync`;
- `jwt.sign` and `jwt.verify`.

The current time is an integer count of milliseconds, passed as `now`.

The client and the server disagree on templates without placeholders:
- the client refuses such a template;
- the server renders it with the default options.

`Generate.ServerRendersWithoutPlaceholders` states this difference.

## Model

| member | source | states |
|---|---|---|
| TextTable.ParseTextTable | app.js:332-348 | the loop over the trimmed, non-blank lines returns exactly the items ParsedItems assigns to those lines, in order |
| TextTable.ParsedItemsStep | app.js:334-346 | handling one more line appends exactly what that line contributes |
| TextTable.ParsedItemsAppend | app.js:334-346 | the items of two blocks of lines are the items of the first followed by those of the second (input order kept) |
| TextTable.ParsedItemsOrigin | app.js:334-346 | at most one item per line, and every item comes from one of the lines |
| TextTable.ItemNumbersBelow10000 | app.js:336-338 | every item number is below 10000 |
| TextTable.SplitLinesJoin | app.js:333 | with no carriage returns, splitting on line feeds and joining again gives the raw text back |
| TextTable.SplitLinesNoLineFeed | app.js:333 | no piece of the split holds a line feed |
| TextTable.LinesTrimmed | app.js:333 | every kept line is non-empty and already trimmed |
| TextTable.BlankTable | app.js:333 | white-space-only input gives no lines and no items |
| TextTable.ItemNumber | app.js:336-338 | an item number, when found, is below 10000 |
| TextTable.ItemNumberShape | app.js:336-338 | white space, 1–4 digits, then the end or a non-word character: the item is the value of those digits |
| TextTable.ItemNumberTooLong | app.js:336 | five or more leading digits drop the line |
| TextTable.ItemNumberGlued | app.js:336 | digits followed by a letter or underscore drop the line |
| TextTable.ItemNumberNeedsDigit | app.js:336 | a line whose first non-space character is not a digit is dropped |
| TextTable.MoneyAt | app.js:340 | a match at `i` starts at `i` and lies inside the line |
| TextTable.MoneyAtAmount | app.js:340 | the captured group is digits, dots and white space, then a digit, a comma and two digits |
| TextTable.MoneyAtShape | app.js:340 | `R$`, optional white space and an amount match, and capture exactly that amount |
| TextTable.MoneyAtParts | app.js:340 | a match is `R$`, white space and the captured amount, which does not start with white space |
| TextTable.NoMatchInside | app.js:340 | no match starts inside another, so the left-to-right scan misses none |
| TextTable.MatchesSound | app.js:340 | every match the scan reports is a real match at its start |
| TextTable.MatchesEmpty | app.js:340-341 | the scan finds nothing exactly when no position matches |
| TextTable.LastMatchIsRightmost | app.js:340-342 | no position after the last reported match matches |
| TextTable.LastMatchAt | app.js:342 | the rightmost matching position is the last of the matches |
| TextTable.ParseLineValue | app.js:336-345 | a line with an item and a rightmost amount gives that item valued at the amount's centavos, in canonical rendering |
| TextTable.ParseLineNone | app.js:336-341 | a line is dropped exactly when it has no item number or no amount |
| Currency.ToNumberFromBRL | app.js:23-28 | a parsed value has only decimal fraction digits |
| Currency.ReplaceFirst | app.js:24 | `replace(',', '.')` keeps the length |
| Currency.ReplaceFirstAfter | app.js:24 | only the first comma becomes a point |
| Currency.FormatCentsRoundTrip | app.js:16-28 | reading back the rendering of a number of centavos gives that number of centavos |
| Currency.FormatCurrencyIdempotent | app.js:16-21 | formatting an already formatted amount changes nothing |
| Currency.FormatExample | app.js:16-21 | 123456 centavos render as `R$ 1.234,56` (the space a no-break space) |
| Currency.GroupedLayout | app.js:19 | the integer part has a dot exactly every three digits from the right, and digits elsewhere |
| Currency.GroupedDigits | app.js:16-24 | removing the group dots leaves the plain decimal digits |
| Currency.ParseSignedDigits | app.js:25 | an optional minus, digits, a point and fraction digits parse to that signed decimal |
| Currency.AmountFormat | app.js:16-25 | formatting a captured amount renders its centavos canonically |
| Currency.AmountIgnoresSeparator | app.js:24 | a dot or a space added before the last digit leaves the centavos unchanged (`1.234,56` ~ `1234,56` ~ `1 234,56` ~ `1.2.34,56`) |
| Currency.CleanAmount | app.js:24 | cleaning a captured amount leaves its digits, a point and the two centavo digits |
| Templates.DetectDelimiters | api/server.js:231-241 | every option set keeps `paragraphLoop` and `linebreaks` |
| Templates.DetectHighestRank | api/server.js:236-240 | the chosen style occurs or is the default, and outranks every other style that occurs (mustache > brackets > guillemets) |
| Templates.DetectPresentStyle | api/server.js:236-239 | the highest style present is chosen, with its own delimiters |
| Templates.ClientTemplateOptions | app.js:470-483 | the only refusal is "template sem placeholders" |
| Templates.ClientAgreesWithServer | app.js:470-483 | the client refuses exactly the texts with no pattern, and otherwise picks the server's options |
| Templates.SpellingTriggersStyle | api/server.js:232-235 | either field name, in any case, spelled in a style (white space inside only where allowed) makes that style present |
| Templates.CurlyNeedsName | api/server.js:232 | bare curly braces allow no white space inside |
| Templates.MustacheExample | api/server.js:233-237 | `{{ item }}` selects the `{{ }}` delimiters |
| Templates.CurlyExample | api/server.js:232 | `{ ITEM }` is not a curly placeholder |
| Templates.TemplateFile | api/server.js:243-247 | the file is `wellington.docx` exactly for the model `wellington` |
| Templates.TemplatePathCases | api/server.js:243-247 | exactly `wellington` maps to `wellington.docx` and every other model string to `patricia.docx`; the server path is the client's path under the root directory |
| Export.RoundHalfUp | app.js:88 | `Math.round`: the nearest integer, halves rounded up |
| Export.Clamp | app.js:88 | the result lies in 0..100 and equals the input inside that range |
| Export.ProgressPercent | app.js:88 | the displayed percentage is at most 100 |
| Export.BatchProgress | app.js:621-635 | after k of n cards the bar shows round(k·100/n): 0 before the first card and 100 after the last |
| Export.ProgressMonotone | app.js:635 | the bar never moves back as cards complete |
| Export.Downloader.constructor | app.js:59-81 | the banner starts empty at 0% with the flag down |
| Export.Downloader.SetDownloadStatus | app.js:59-81 | caption (default `Baixando…`), text `<caption> — 0%`, bar at 0, cancel flag cleared |
| Export.Downloader.UpdateDownloadProgress | app.js:83-94 | the bar shows the clamped rounded percentage; the text uses the label, else the caption, else the default |
| Export.Downloader.CancelClicked | app.js:70-76 | the handler raises the cancel flag and changes nothing else |
| Export.Downloader.DownloadAll | app.js:618-676 | the loop's outcome, cancel flag and progress are those of the batch specification Batch; the status text is the error message after a failure that is not silent, and the progress text otherwise |
| Export.CardsFor | app.js:379-409 | one card per item |
| Export.CardsForItems | app.js:384-387 | card i carries item i's number as text (which reads back as that number), its value and the selected model |
| Export.EntryNameInjective | app.js:633 | for one model and format, two entry names agree exactly when the items agree |
| Export.DistinctItemsDistinctNames | app.js:633 | distinct items get distinct ZIP entries |
| Export.CatchOutcome | app.js:659-672 | the error banner is shown exactly when the flag is down and the message has no `cancelado`, and no archive is saved (how long it stays is under Left out) |
| Export.CanceledErrorIsSilent | app.js:662 | an error saying `cancelado` is never shown |
| Export.BatchSavedIff | app.js:626-658 | the archive `plaquinhas-docx.zip` or `plaquinhas-pdf.zip` is saved exactly when every card was delivered with no cancel click |
| Export.BatchStopsAtCancel | app.js:626-636 | cards are stored in order; the batch stops at the first failure or right after the card during which cancel was clicked |
| Export.SavedAtFullProgress | app.js:635-637 | a saved archive comes with the bar at 100% |
| Export.BatchEntries | app.js:633-634 | the archive holds exactly the cards' entry names, each with the data of the last card so named |
| Access.AllowsDevelopmentPorts | api/server.js:173-182 | every port of localhost and 127.0.0.1 over http is allowed |
| Access.AllowedOriginShape | api/server.js:173-182 | an origin is allowed exactly when it is empty or one of the two development hosts followed by a non-empty run of digits; any other origin is refused |
| Access.AllowedOriginEnds | api/server.js:177-178 | an allowed non-empty origin starts with `http://` and ends in a digit, so any other scheme, a missing port or a trailing path is refused |
| Access.RefusedOrigins | api/server.js:177-180 | examples: `https://localhost:3000`, `http://localhost:` and `http://localhost:3000/` are refused |
| Access.BearerToken | api/server.js:197 | a captured token is the rest of the header after `Bearer` (any case) and white space, non-empty, with no line terminator |
| Access.BearerTokenShape | api/server.js:197 | `Bearer`, white space and a token that does not start with white space give that token |
| Access.BearerSpacesOnly | api/server.js:197 | white space alone after `Bearer` yields its last character as the token |
| Access.BearerRejects | api/server.js:197-198 | `Bearer` alone, or glued to the token, is unauthorized |
| Access.RequireAdmin | api/server.js:194-206 | a request passes only with a verified token whose email is the configured, non-empty admin email; a malformed header is 401 |
| Access.RequireAdminForbidden | api/server.js:200-202 | with a verified token: 403 exactly when no admin is configured or the email differs, pass exactly otherwise |
| Access.RequireAdminUnverified | api/server.js:199-205 | a token that does not verify is 401 |
| Access.NoAdminConfigured | api/server.js:200 | with `ADMIN_EMAIL` empty nothing passes |
| Accounts.Normalize | api/server.js:336 | the normalized e-mail is no longer than the original |
| Accounts.NormalizeIdempotent | api/server.js:336 | normalizing twice is normalizing once |
| Accounts.NullIfEmpty | api/server.js:142-157 | a name is stored as NULL exactly when it is empty, and as itself otherwise |
| Accounts.RetainedMembers | api/server.js:225-228 | an entry survives the deletion exactly when it was there and is not older than the cutoff |
| Accounts.RetainedAppend | api/server.js:225-228 | deletion acts row by row and keeps the order |
| Accounts.RetainedTwice | api/server.js:225-228 | deleting again with a later cutoff is one deletion with that cutoff |
| Accounts.LoggedEntrySurvives | api/server.js:209-228 | the entry just logged survives the deletion that follows it |
| Accounts.InsertNewest | api/server.js:369 | inserting keeps every entry and adds exactly one |
| Accounts.InsertNewestOrder | api/server.js:369 | inserting into a newest-first sequence keeps it newest first |
| Accounts.NewestFirst | api/server.js:369 | sorting is a permutation |
| Accounts.NewestFirstOrdered | api/server.js:369 | the sorted sequence is newest first |
| Accounts.Listing | api/server.js:367-375 | the listing is newest first and is a permutation of the entries created at or after now − 60 days, each as often as it is stored |
| Accounts.RegisterCheck | api/server.js:332-346 | a registration goes through exactly when all four fields are truthy and the normalized e-mail is new; otherwise 400 or 409 |
| Accounts.RegisterStatusOrder | api/server.js:335-338 | 400 whenever one of the four fields is falsy, before the address is looked up; 409 exactly when all four are truthy and the normalized address is taken |
| Accounts.LoginCheck | api/server.js:348-363 | a login succeeds exactly when both fields are truthy, the user exists and the password compares; the row is that user |
| Accounts.LoginStatusOrder | api/server.js:351-356 | 400 for a missing field, then 404 for an unknown user, and 401 exactly for a wrong password |
| Accounts.ResetCheck | api/server.js:383-396 | a reset goes through exactly when both fields are truthy and the user exists |
| Accounts.ResetStatusOrder | api/server.js:386-389 | 400 whenever the e-mail or the new password is falsy, before the lookup; 404 exactly when both are truthy and the normalized address is unknown |
| Accounts.RegisterThenLogin | api/server.js:332-363 | after a registration, logging in with the same e-mail and password returns the new user |
| Accounts.RegisterTwiceConflicts | api/server.js:337-338 | registering the same e-mail again is 409 |
| Accounts.ClientRegistrationRefused | app.js:297 | the client's register form, as written, is always refused with 400 |
| Accounts.CorrectedClientRegistrationAccepted | api/server.js:334-336 | sending the names too, a new e-mail with a password is accepted under its normalized form |
| Accounts.Store.constructor | api/server.js:98-123 | both tables start empty and ids start at 1 |
| Accounts.Store.UserGetByEmail | api/server.js:129-140 | a row is found exactly when the e-mail is stored, and it is that e-mail's row |
| Accounts.Store.UserInsert | api/server.js:142-157 | a new e-mail gets one row with the next id and NULL for empty names; a duplicate changes nothing |
| Accounts.Store.UserUpdatePassword | api/server.js:159-171 | only that user's hash changes |
| Accounts.Store.LogLogin | api/server.js:208-229 | the entries become the old entries within 60 days of now, followed by the new entry |
| Accounts.Store.Register | api/server.js:332-346 | the reply and the new users table are those RegisterCheck decides; login entries untouched |
| Accounts.Store.Login | api/server.js:348-363 | the reply is what LoginCheck decides; a success logs exactly one entry, and users are untouched |
| Accounts.Store.ResetPassword | api/server.js:383-396 | the reply is what ResetCheck decides; a success changes only that user's hash |
| Accounts.Store.AdminLogins | api/server.js:365-382 | 200 exactly when the gate passes, with a newest-first permutation of the entries of the last 60 days; otherwise the gate's 401 or 403 |
| Generate.ClientGenerateDocx | app.js:463-494 | an unfetched template is "template docx não encontrado"; a document needs a fetched template that PizZip opens |
| Generate.ClientGenerateOutcomes | app.js:463-494 | every outcome: a missing template, PizZip's own message, no placeholders, the Docxtemplater constructor's own message, the fixed message for a failed render, or the document rendered with the server's options |
| Generate.GenerateDocxBuffer | api/server.js:249-262 | a missing file is "Template DOCX não encontrado"; PizZip's message propagates; otherwise the template is constructed and rendered with the detected options |
| Generate.CompileAndRender | api/server.js:257-259 | the Docxtemplater constructor's message comes before any render; when it constructs, the render decides |
| Generate.ServerRendersWithoutPlaceholders | api/server.js:249-262 | a template with no placeholder is rendered with the base options, where the client refuses it |
| Generate.ClientDocumentIsServerDocument | app.js:463-494 | given the same template bytes, a document the client produces is the one the server produces |
| Generate.DocxRoute | api/server.js:285-296 | a missing field is 400 and an attachment is a Word document |
| Generate.DocxRouteOutcomes | api/server.js:289-294 | an attachment exactly when rendering succeeds, named like the batch entry; otherwise 500 with the error message |
| Generate.AttachmentNameMatchesEntry | api/server.js:291 | the attachment name is the ZIP entry name the client uses |
| Generate.PdfRoute | api/server.js:298-330 | a missing field is 400 and an attachment is a PDF |
| Generate.PdfFallbackOrder | api/server.js:304-316 | Gotenberg's PDF is returned when it is configured and succeeds; otherwise the local conversion decides |
| Generate.LocalConversionOutcomes | api/server.js:315-325 | a local conversion is sent, or is a 500 whose hint depends on whether Gotenberg is configured |
| Generate.PdfFileName | api/server.js:308-324 | an attachment is named like the batch entry |
| Generate.GotenbergUnusedWhenUnset | api/server.js:304 | with no Gotenberg URL the converter plays no part |
| Generate.PdfRenderFailure | api/server.js:302-329 | a failed render is a 500 with its message (a missing template says so) |

## Left out
- Floating point: `parseFloat`, `toLocaleString` and `Math.round` work on doubles. The model reads text as an exact decimal and rounds an exact quotient, so results for values beyond double precision are not modelled.
- Currency.RoundToCents: rounds half away from zero on the third fraction digit only. It does not model the binary-rounding artefacts of `toLocaleString`.
- Unicode: only the ASCII letters are case-folded (`toLowerCase`, the `i` flag). This is exact for the words compared (`cancelado`, `bearer`, `item`, `valor`) but not for other text.
- JSON bodies: a field is missing or a string. Numbers, booleans and objects sent in a body are not modelled.
- The DOM, banners, timers, `hideDownloadStatus`, scrolling and the modal: UI only. The banner is kept as the Downloader fields (caption, text, percentage); its visibility and its `error` class are not modelled.
- `fetch`, stream readers, `AbortController`, `saveBlob`, `showSaveFilePicker` and its AbortError path: browser I/O. A batch outcome says only that the archive is saved.
- `fetchApiFileWithProgress`: modelled only by what each card's fetch yields (bytes, or an error message, and whether cancel was clicked). Its streaming and per-chunk progress callbacks are not modelled.
- `streamApiFileToWriter`, the single-card downloads (`onDownloadDocx`, `onDownloadPdf`), canvas rendering and the health probes: not part of this model.
- JSZip, PizZip, Docxtemplater, Gotenberg and LibreOffice: foreign code, passed as functions. PizZip's constructor and Docxtemplater's constructor may fail with any message, which reaches the caller unchanged; which bytes and options make them fail is not modelled. The order of entries inside a ZIP is not modelled, only its name-to-data map.
- Export.CatchOutcome: says when the error banner is shown, not for how long. The `finally` block calls `hideDownloadStatus(0)` (app.js:673-675), which hides the banner on the next timer tick (app.js:105-108), so in the browser the error banner barely stays visible. Timers are not modelled.
- Timestamps: ISO strings compared as text are modelled as integer milliseconds.
- Accounts.Store.LogLogin: one `now` stands for both clock readings. The source stamps the row with one reading (api/server.js:209) and computes the deletion cutoff from a second `Date.now()` (api/server.js:215 and api/server.js:226), so a row whose age crosses 60 days between the two readings is deleted by the source but kept by the model.
- `path.join`: modelled as joining with `/`, without normalization.
- Databases: SQLite and Postgres are one map plus one sequence. Driver errors and every `catch` that answers 500 are not modelled, except the template-library failures of the generate routes.
- Concurrency: the race between two registrations of one e-mail is not modelled (handlers run one at a time).
- Accounts.Store.Login: `jwt.sign` is a parameter. The token's `iat` and its 7-day expiry are not modelled.
- bcrypt: compare and hash are parameters. Salting and randomness are not modelled.
- Accounts.NewestFirst: entries with the same creation time come out in insertion order. SQL leaves that order unspecified.

## Findings

| source | as written | input that shows it | evidently intended | confidence | as-written member | corrected member |
|---|---|---|---|---|---|---|
| app.js:297 | the register form posts only `email` and `password`, while `POST /api/register` requires `firstName` and `lastName` too (api/server.js:335) | any registration from the form, e.g. `a@b.c` with password `x` | the form sends the names the server requires, so that a new address registers | high, not executed | Accounts.ClientRegistrationRefused | Accounts.CorrectedClientRegistrationAccepted |
