# Payment-confirmation form: a Dafny model

This project models the decision logic of the payment-confirmation service
(`main.go`). A form is posted to `/sendemail` with the payer's data, a transaction reference and a
proof-of-payment file. The service validates the form, checks the
reference against the `pagos` table, inspects the file, stores the record
and mails it to an operator. `/descargarreporte` exports the table as a spreadsheet.

Modules, one file each:

- `Wrappers` (`wrappers.dfy`): `Option` and `Result`.
- `Email` (`email.dfy`): `isValidEmail`, written as a recogniser. It splits
  at the first `@`, checks the character classes and finds the last dot of the
  domain. An independent definition, `EmailSplitAt`, writes the regular
  expression's language as a split into five pieces. The module proves the two agree.
- `Form` (`form.dfy`): the form record and the required-field check. The
  check is ten `if`s that append to `missing`, as in the handler, run as two
  methods of five so that each proof stays small. Together they are
  proved equal to `MissingOf`, a
  filter over the fields in check order. `formatBody` is here too, with a parser that reads the body back.
- `Responses` (`responses.dfy`): the `errorCodes` table, `respondWithError` and the JSON reply shape.
- `Pagos` (`pagos.dfy`): the `pagos` table as a sequence of records. Its
  invariant is that `numero_operacion` is unique and SERIAL ids increase. The
  INSERT comes as a pure function and as the `PagosTable` class, whose method changes the table in place.
- `SendEmail` (`sendemail.dfy`): the `/sendemail` handler as a state
  machine. `Step` names the return the request stops at. `Submit` is
  the pure specification. `HandleSendEmail` runs the checks in the
  source's order against a `PagosTable`, and its contract equates it with `Submit`.
- `Report` (`report.dfy`): the export's cell addressing. A cell address is a column letter plus a
  decimal row, and `ParseCell` is its inverse. `DownloadReport` runs the
  header loop and the row loop with `rowIndex` rising step by step. It is proved to fill row 1
  with the headers and row k+2 with record k.

Inputs that come from outside the model are parameters. These are the
results of the database driver, the upload's reader, the content-type
sniffer (`http.DetectContentType`), the image decoder and encoders, and the
SMTP dialer, together with the insertion timestamp. `SendEmail.Effects`
holds them for `/sendemail`, `Report.ReportEffects` for the export, and the
sniffed type is a field of `SendEmail.Upload`.

## Model

| member | source | states |
|---|---|---|
| `Email.IsValidEmail` | main.go:363-366 | an accepted address has at least six characters (L@X.Y with one-character L and X and two-letter Y), starts with a local-part character and ends with a letter |
| `Email.ValidEmailAlphabet` | main.go:364 | an accepted address contains only `[A-Za-z0-9._%+-]` characters and `@` |
| `Email.IsValidEmailMatchesPattern` | main.go:363-366 | the recogniser accepts a string iff it is L@X.Y with L a non-empty string over `[A-Za-z0-9._%+-]`, X non-empty over `[A-Za-z0-9.-]` and Y at least two ASCII letters (both directions) |
| `Email.SplitIsValid` | main.go:364 | every split that fits the regular expression's pieces is accepted by the recogniser |
| `Email.ValidEmailHasOneAt` | main.go:364 | an accepted address contains exactly one `@` |
| `Email.IndexOf` | main.go:364 | the first occurrence of a character, or none when absent |
| `Email.LastIndexOf` | main.go:364 | the last occurrence of a character, or none when absent (the domain's last dot) |
| `Form.MissingOf` | main.go:103-133 | the reported list holds at most ten names, one per required field checked |
| `Form.MissingFields` | main.go:103-133 | the ten successive checks and appends build exactly `MissingOf(form)` |
| `Form.CheckFirstFields` | main.go:103-118 | the checks of nombres, apellidos, correo, telefono and universidad build the list of those among them that are missing, in that order |
| `Form.CheckRemainingFields` | main.go:119-133 | continuing from the first five, the checks of entrada, carrera, tipo_operacion, numero_operacion and dni extend it to the whole list |
| `Form.MissingOfExactly` | main.go:103-133 | a required field's name is listed iff that field is missing; each name appears once, in the check order nombres … dni; `codigo` is never listed |
| `Form.MissingUpToMembers` | main.go:103-133 | after the first n checks, exactly the missing fields among them are listed |
| `Form.MissingUpToListed` | main.go:103-133 | every name listed after the first n checks is the name of a missing field among them |
| `Form.MissingUpToOrdered` | main.go:103-133 | the names listed after n checks are in strictly increasing check order |
| `Form.MissingUpToComplete` | main.go:103-133 | a missing field among the first n checked is listed after n checks |
| `Form.CorreoListed` | main.go:110-112 | `correo` is listed iff it is empty or fails the e-mail check |
| `Form.MissingOfEmpty` | main.go:136 | the list is empty iff every required field is present and `correo` is a valid address |
| `Form.RankOfFieldAt` | main.go:103-133 | the name checked at position i has rank i in the check order |
| `Form.FormatBody` | main.go:346-360 | the body lists the eleven values in template order after their labels; when no value contains `<`, parsing the body gives the form back |
| `Form.ParseRenderLines` | main.go:347-358 | parsing rendered `label: value<br>` lines returns the values, in order |
| `Form.ParseLineOfBodyLine` | main.go:348 | one rendered line is read back as its value and the remaining text |
| `Form.BodyValues` | main.go:359 | the template receives exactly eleven values, one per label |
| `Responses.ErrorMessage` | main.go:43-49 | a code is in `errorCodes` iff its message is non-empty, and then it is the table's message (the Go map read gives "" otherwise) |
| `Responses.ErrorMessagesDistinct` | main.go:43-49 | distinct codes of the table have distinct messages |
| `Responses.RespondWithError` | main.go:368-374 | the reply has the given status and exactly the keys `error_code`, `error`, `details`, holding the code, its table message and the details |
| `Responses.RespondWithErrorDecodes` | main.go:368-374 | the code and its non-empty message can be read back from a reply built for a known code |
| `Pagos.InsertRow` | main.go:224-232 | the INSERT succeeds iff the database reports no failure and no stored record has the same `numero_operacion` (the UNIQUE constraint of line 333) |
| `Pagos.InsertAppendsOne` | main.go:224-228 | a successful insert appends exactly one record, holding the eleven form values and the next id |
| `Pagos.InsertKeepsInvariant` | main.go:320-337 | an insert keeps `numero_operacion` unique and the SERIAL ids positive and increasing |
| `Pagos.PairImpliesNumero` | main.go:142 | a stored (numero, tipo) pair is also a stored numero |
| `Pagos.NumeroClashWithoutPair` | main.go:333 | a numero stored under another tipo passes the pair query but is refused by the UNIQUE constraint |
| `Pagos.PagosTable.constructor` | main.go:320-337 | the created table is empty, and the sequence starts at 1 |
| `Pagos.PagosTable.Insert` | main.go:224-232 | refuses, leaving the table as it was, when the number is taken or the database fails; otherwise appends one record with the next id and advances the id |
| `SendEmail.EncodeErrorMessage` | main.go:193-212 | the encoder error message is never empty; it is a compression error ("Error al comprimir la imagen…") exactly for the formats jpeg, png and gif, and the save-as-is error for any other decoded format |
| `SendEmail.StepResponse` | main.go:137-255 | every return of the handler: 200 only for success; 400 exactly for missing fields, duplicate, no file, too large and type not allowed; 500 for every other failure |
| `SendEmail.StepReplyMessages` | main.go:137-255 | every failure reply carries a non-empty `error` message; the success reply carries only `message` |
| `SendEmail.StepReplyCodes` | main.go:137-255 | exactly the missing-fields, duplicate, too-large and mail-failure replies carry an `error_code` |
| `SendEmail.ProcessFile` | main.go:181-222 | a processed file is the encoder's bytes for an image type or the upload's own bytes for a PDF; it fails only with the decode, encode, PDF-copy or type error, and with the type error exactly when the type is neither an image type nor a PDF |
| `SendEmail.CheckRequest` | main.go:136-222 | a request passes the checks iff the form is complete, the query succeeds, the pair is not taken, a file is present, at most 5 MiB, opened and read, and processed; a passing request yields the processed file; it stops at missing fields, with the missing list, iff the list is non-empty; the checks never end at the insert, the mail or success |
| `SendEmail.Submit` | main.go:136-253 | the table is unchanged and nothing is mailed unless the request reaches the mailer (`Sent` or `MailFailed`); then exactly one record with the form and the next id is appended; the mail has the subject "Nuevo Pago Registrado", the `formatBody` text, the upload's file name and the processed file |
| `SendEmail.HandleSendEmail` | main.go:86-256 | the handler's reply, the mail it hands over and the new table are exactly those of `Submit` on the old table, and the table invariant is kept |
| `SendEmail.MissingFieldsStopEverything` | main.go:136-138 | a non-empty missing list gives 400 `missing_fields` with the list as details, whatever the table, upload and effects; nothing is stored or mailed |
| `SendEmail.DuplicateRejected` | main.go:140-149 | once the form is complete and the query succeeds, a stored (numero, tipo) pair gives 400 `duplicate_operation`, whatever the upload; nothing is stored or mailed |
| `SendEmail.SizeLimit` | main.go:157-163 | after the earlier checks, the request stops at the size check iff the file is larger than 5·1024·1024 = 5242880 bytes, so exactly 5 MiB passes |
| `SendEmail.ImageBranch` | main.go:182-213 | the five image types are decoded and re-encoded: a decode error, an encoder error naming the format, or the encoder's bytes |
| `SendEmail.PdfPassThrough` | main.go:214-218 | a PDF's bytes are passed through unchanged |
| `SendEmail.OtherTypesRejected` | main.go:219-222 | any other type is refused with 400 before the insert; nothing is stored or mailed |
| `SendEmail.NumeroReusedOtherType` | main.go:224-232 | a numero stored under another tipo passes the duplicate check and then fails at the insert with 500 |
| `SendEmail.MailFailureKeepsRecord` | main.go:224-253 | the insert precedes the mail: a failed send answers 500 `email_error` with the record already stored |
| `SendEmail.SentStoresAndMails` | main.go:233-255 | a successful request stores the record, mails `formatBody` with the processed file attached, and answers 200 |
| `SendEmail.SubmitKeepsInvariant` | main.go:320-337 | every request keeps the table invariant |
| `SendEmail.CodedRepliesUseKnownCodes` | main.go:43-49 | every reply with an error code uses a code of `errorCodes` with its message; `invalid_email` is never sent |
| `Report.DownloadReport` | main.go:259-313 | fails iff the query fails, a row fails to scan or the iteration ends in error, with the source's messages; otherwise row 1 holds the 13 headers in A..M, record k (from 0) fills row k+2 column by column, and no other cell is written |
| `Report.WriteRow` | main.go:294-299 | the inner loop writes the 13 values of record k into row k+2 and keeps every earlier cell |
| `Report.PlaceCell` | main.go:296-297 | writing one cell leaves every other address untouched and adds only its own |
| `Report.HeaderRowAddresses` | main.go:269-272 | header i goes to the single letter 'A'+i in row 1, letters running A..M in order |
| `Report.CellName` | main.go:270-296 | an address is one upper-case letter, 'A' plus the column, followed by the canonical decimal text of the row |
| `Report.RowValues` | main.go:294 | a record gives 13 values: the id as a number, then the eleven form values in the mail body's order, then the registration time |
| `Report.HeadersLabelFormColumns` | main.go:266-267 | the headers are "ID", the eleven labels of the mail body in the same order, and "Fecha de Registro" |
| `Report.ParseCellName` | main.go:296 | reading a cell address back gives its column and row |
| `Report.CellNameOfParse` | main.go:296 | every address that `ParseCell` accepts is the address of its column and row |
| `Report.CellNameInjective` | main.go:270 | distinct (column, row) pairs have distinct addresses |
| `Report.NatToString` | main.go:296 | `strconv.Itoa` of the row gives decimal digits with no leading zero |
| `Report.ParseNatToString` | main.go:296 | decimal text of n is read back as n |
| `Report.NatToStringOfParse` | main.go:296 | canonical decimal text is the text of its value |

## Left out

- Echo server set-up, CORS, routing and request parsing are framework I/O. The model takes the eleven form values and the optional upload as given values.
- Environment loading, the database connection and SQL execution are not modelled. The table is a sequence of records and the SQL is replaced by its meaning. The error the duplicate-check query can return is an input (`queryFails`).
- The `VARCHAR(n)` widths of `createTables` are not modelled. An INSERT refused for a too-long value belongs to the generic insert failure (`insertFails`).
- PostgreSQL consumes a SERIAL value even when an insert fails, which leaves gaps. The model advances the id only on success. Ids stay positive and strictly increasing either way.
- `http.DetectContentType` (the WHATWG MIME Sniffing Standard, section 7) is a library call. Its result is the upload's `sniffedType`.
- Image decoding, the `resize.Resize` Lanczos3 downscale and the JPEG/PNG/GIF encoders are foreign pixel code. Their results are inputs: `decoded` (the format or an error), `encodeFails` and `encoded`. Which formats Go's image registry can decode is not modelled.
- The mail's From/To headers and the SMTP server come from environment variables and are left out. The SSL dial and send are network I/O, modelled only as "the send may fail" (`mailFails`).
- excelize file serialisation, the sheet rename and the response headers of the export are library internals. `time.Format` of `fecha_registro` is not modelled either. The sheet is the map from cell address to value, and the formatted time is the abstract `TimeCell`.
- `Report.DownloadReport` takes the records the SELECT returns, in the order returned. The SELECT has no ORDER BY, so that order is the database's, and the model does not tie it to the insertion order.
- `log.Fatal`, `log.Printf` and `fmt.Println` are side effects. They are left out.
- Requests are modelled one at a time. The duplicate check (main.go:142) and the insert (main.go:224) are not one transaction, so two simultaneous submissions of the same pair can both pass the check; the second insert is then refused by the UNIQUE constraint and answered with the generic 500 insert error instead of `duplicate_operation`. In the model that interleaving appears only as `insertFails`.
- `SendEmail.Upload`: the declared `size` (the multipart header's size) and the bytes in `content` are independent inputs; the model does not require them to agree, and only `size` is compared with the 5 MiB limit, as in the handler.
- The `src.Seek(0, 0)` after sniffing (main.go:177) ignores its error. The model assumes the rewind succeeds: the decoder and the PDF copy see the whole upload.
- String lengths count Dafny characters, not UTF-8 bytes. This matters nowhere in the model, because the character classes of the e-mail check are ASCII.
