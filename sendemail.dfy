/**
 * The `/sendemail` handler (main.go) as a state machine: the checks run in a
 * fixed order, the first that fails decides the reply, and only a request
 * that passes them all is inserted into `pagos` and mailed.
 *
 * Calls into code outside the model (the database driver, the upload's
 * reader, MIME sniffing, the image codecs, SMTP) are represented by their
 * results, gathered in `Effects`; the sniffed content type is part of the
 * upload.
 */
module SendEmail {
  import opened Wrappers
  import opened Form
  import opened Responses
  import opened Pagos

  newtype byte = x: int | 0 <= x < 256

  /** The `comprobante_pago` upload: its name, its size, the type sniffed from its first bytes, its bytes. */
  datatype Upload = Upload(filename: string, size: nat, sniffedType: string, content: seq<byte>)

  /** What the foreign calls of one request return. */
  datatype Effects = Effects(
    queryFails: bool,        // the duplicate-check query reports an error
    openFails: bool,         // opening the upload fails
    readFails: bool,         // reading its first 512 bytes fails other than at end of file
    decoded: Option<string>, // image decoding: None on error, else the format it names
    encodeFails: bool,       // re-encoding the image fails
    encoded: seq<byte>,      // the bytes the image encoder writes
    copyFails: bool,         // copying a PDF into the buffer fails
    insertFails: bool,       // the INSERT fails for a reason other than the UNIQUE constraint
    mailFails: bool,         // dialing or sending the mail fails
    now: int)                // CURRENT_TIMESTAMP at the insert

  /** The message handed to the mailer. */
  datatype Mail = Mail(subject: string, body: string, attachmentName: string, attachment: seq<byte>)

  const MailSubject := "Nuevo Pago Registrado"

  /** 5 MB = 5 * 1024 * 1024 bytes. */
  const MaxFileSize: nat := 5 * 1024 * 1024

  const PdfType := "application/pdf"

  /** The five sniffed types that take the image branch. */
  predicate IsImageType(t: string) {
    t == "image/jpeg" || t == "image/png" || t == "image/gif" || t == "image/bmp" || t == "image/tiff"
  }

  /** Where a request stops: each value is one of the handler's returns. */
  datatype Step =
    | FieldsMissing(fields: seq<string>)
    | QueryFailed
    | Duplicate
    | NoFile
    | TooLarge
    | OpenFailed
    | ReadFailed
    | DecodeFailed
    | EncodeFailed(format: string)
    | PdfCopyFailed
    | TypeNotAllowed
    | InsertFailed
    | MailFailed
    | Sent

  /** The start of the three messages for a format the handler re-encodes itself. */
  const CompressMessage := "Error al comprimir la imagen"

  /**
   * The message of the encoder error for each decoded format: a compression
   * error for jpeg, png and gif, a save error for any other format.
   */
  function EncodeErrorMessage(format: string): (m: string)
    ensures m != ""
    ensures (format == "jpeg" || format == "png" || format == "gif")
      <==> |CompressMessage| <= |m| && m[..|CompressMessage|] == CompressMessage
  {
    match format
    case "jpeg" => "Error al comprimir la imagen"
    case "png" => "Error al comprimir la imagen PNG"
    case "gif" => "Error al comprimir la imagen GIF"
    case _ =>
      var m := "Error al guardar la imagen en su formato original";
      assert m[9] != CompressMessage[9];
      m
  }

  /**
   * The reply the handler sends for each step: 200 only on success, 400 for
   * what the client can correct (the form, a duplicate, the file itself), 500
   * for a failure on the server's side.
   */
  function StepResponse(s: Step): (r: Response)
    ensures r.status == StatusOK <==> s.Sent?
    ensures r.status == StatusBadRequest
      <==> s.FieldsMissing? || s.Duplicate? || s.NoFile? || s.TooLarge? || s.TypeNotAllowed?
    ensures r.status == StatusOK || r.status == StatusBadRequest || r.status == StatusInternalServerError
  {
    match s
    case FieldsMissing(fields) => RespondWithError(StatusBadRequest, "missing_fields", StrList(fields))
    case QueryFailed => PlainError(StatusInternalServerError, "Error en la base de datos")
    case Duplicate => RespondWithError(StatusBadRequest, "duplicate_operation", Null)
    case NoFile => PlainError(StatusBadRequest, "Debe cargar un archivo de comprobante de pago válido")
    case TooLarge =>
      Response(StatusBadRequest, map["error_code" := Str("file_too_large"), "error" := Str(ErrorMessage("file_too_large"))])
    case OpenFailed => PlainError(StatusInternalServerError, "Error al abrir el archivo")
    case ReadFailed => PlainError(StatusInternalServerError, "Error al leer el archivo")
    case DecodeFailed => PlainError(StatusInternalServerError, "Formato de imagen inválido")
    case EncodeFailed(format) => PlainError(StatusInternalServerError, EncodeErrorMessage(format))
    case PdfCopyFailed => PlainError(StatusInternalServerError, "Error al leer el archivo PDF")
    case TypeNotAllowed => PlainError(StatusBadRequest, "El tipo de archivo no está permitido")
    case InsertFailed => PlainError(StatusInternalServerError, "Error al insertar en la base de datos")
    case MailFailed => RespondWithError(StatusInternalServerError, "email_error", Null)
    case Sent => Response(StatusOK, map["message" := Str("Formulario enviado con éxito")])
  }

  /**
   * The branch on the sniffed type: images are decoded and re-encoded, a PDF
   * is copied as it is, any other type is refused.
   */
  function ProcessFile(u: Upload, fx: Effects): (r: Result<seq<byte>, Step>)
    ensures r.Ok? ==>
      (IsImageType(u.sniffedType) && r.value == fx.encoded) || (u.sniffedType == PdfType && r.value == u.content)
    ensures r.Err? ==> r.error.DecodeFailed? || r.error.EncodeFailed? || r.error.PdfCopyFailed? || r.error.TypeNotAllowed?
    ensures r == Err(TypeNotAllowed) <==> !IsImageType(u.sniffedType) && u.sniffedType != PdfType
  {
    if IsImageType(u.sniffedType) then
      match fx.decoded
      case None => Err(DecodeFailed)
      case Some(format) => if fx.encodeFails then Err(EncodeFailed(format)) else Ok(fx.encoded)
    else if u.sniffedType == PdfType then
      if fx.copyFails then Err(PdfCopyFailed) else Ok(u.content)
    else Err(TypeNotAllowed)
  }

  /**
   * The checks before the insert, in the handler's order. `pairTaken` is the
   * answer of the duplicate-check query; it is consulted only once the form
   * is complete.
   */
  function CheckRequest(form: PaymentForm, pairTaken: bool, upload: Option<Upload>, fx: Effects): (r: Result<seq<byte>, Step>)
    ensures r.Ok? <==> MissingOf(form) == [] && !fx.queryFails && !pairTaken && upload.Some?
                       && upload.value.size <= MaxFileSize && !fx.openFails && !fx.readFails
                       && ProcessFile(upload.value, fx).Ok?
    ensures r.Ok? ==> r == ProcessFile(upload.value, fx)
    ensures (r.Err? && r.error.FieldsMissing?) <==> MissingOf(form) != []
    ensures r.Err? && r.error.FieldsMissing? ==> r.error.fields == MissingOf(form)
    ensures r.Err? ==> !r.error.InsertFailed? && !r.error.MailFailed? && !r.error.Sent?
  {
    var missing := MissingOf(form);
    if |missing| > 0 then Err(FieldsMissing(missing))
    else if fx.queryFails then Err(QueryFailed)
    else if pairTaken then Err(Duplicate)
    else if upload.None? then Err(NoFile)
    else if upload.value.size > MaxFileSize then Err(TooLarge)
    else if fx.openFails then Err(OpenFailed)
    else if fx.readFails then Err(ReadFailed)
    else ProcessFile(upload.value, fx)
  }

  /** The result of one request: where it stopped, the mail handed to the mailer, the new table. */
  datatype Outcome = Outcome(step: Step, mail: Option<Mail>, rows: seq<Pago>, nextId: nat)

  /**
   * The whole request against a table of `rows` whose next id is `nextId`.
   * The table changes only by one appended record carrying the form, and
   * exactly when the request reaches the mailer, which it does only after
   * the insert; the mail carries the formatted body and the processed file.
   */
  function Submit(rows: seq<Pago>, nextId: nat, form: PaymentForm, upload: Option<Upload>, fx: Effects): (o: Outcome)
    ensures !(o.step == Sent || o.step == MailFailed) ==> o.rows == rows && o.nextId == nextId && o.mail.None?
    ensures o.step == Sent || o.step == MailFailed ==>
      o.rows == rows + [Pago(nextId, form, fx.now)] && o.nextId == nextId + 1 && o.mail.Some?
    ensures o.mail.Some? ==>
      upload.Some? && o.mail.value.subject == MailSubject && o.mail.value.body == FormatBody(form)
      && o.mail.value.attachmentName == upload.value.filename
      && CheckRequest(form, HasPair(rows, form.numeroOperacion, form.tipoOperacion), upload, fx)
         == Ok(o.mail.value.attachment)
  {
    match CheckRequest(form, HasPair(rows, form.numeroOperacion, form.tipoOperacion), upload, fx)
    case Err(step) => Outcome(step, None, rows, nextId)
    case Ok(data) =>
      match InsertRow(rows, nextId, form, fx.now, fx.insertFails)
      case None => Outcome(InsertFailed, None, rows, nextId)
      case Some(rows') =>
        var mail := Mail(MailSubject, FormatBody(form), upload.value.filename, data);
        Outcome(if fx.mailFails then MailFailed else Sent, Some(mail), rows', nextId + 1)
  }

  /** The handler, step by step against the table. */
  method HandleSendEmail(table: PagosTable, form: PaymentForm, upload: Option<Upload>, fx: Effects)
      returns (resp: Response, mail: Option<Mail>)
    requires table.Valid()
    modifies table
    ensures table.Valid()
    ensures var o := Submit(old(table.rows), old(table.nextId), form, upload, fx);
      resp == StepResponse(o.step) && mail == o.mail && table.rows == o.rows && table.nextId == o.nextId
  {
    mail := None;
    var missing := MissingFields(form);
    if |missing| > 0 {
      resp := StepResponse(FieldsMissing(missing));
      return;
    }
    if fx.queryFails {
      resp := StepResponse(QueryFailed);
      return;
    }
    var taken := table.HasOperation(form.numeroOperacion, form.tipoOperacion);
    if taken {
      resp := StepResponse(Duplicate);
      return;
    }
    if upload.None? {
      resp := StepResponse(NoFile);
      return;
    }
    var file := upload.value;
    if file.size > MaxFileSize {
      resp := StepResponse(TooLarge);
      return;
    }
    if fx.openFails {
      resp := StepResponse(OpenFailed);
      return;
    }
    if fx.readFails {
      resp := StepResponse(ReadFailed);
      return;
    }
    var fileData: seq<byte>;
    if IsImageType(file.sniffedType) {
      if fx.decoded.None? {
        resp := StepResponse(DecodeFailed);
        return;
      }
      if fx.encodeFails {
        resp := StepResponse(EncodeFailed(fx.decoded.value));
        return;
      }
      fileData := fx.encoded;
    } else if file.sniffedType == PdfType {
      if fx.copyFails {
        resp := StepResponse(PdfCopyFailed);
        return;
      }
      fileData := file.content;
    } else {
      resp := StepResponse(TypeNotAllowed);
      return;
    }
    var inserted := table.Insert(form, fx.now, fx.insertFails);
    if !inserted {
      resp := StepResponse(InsertFailed);
      return;
    }
    mail := Some(Mail(MailSubject, FormatBody(form), file.filename, fileData));
    if fx.mailFails {
      resp := StepResponse(MailFailed);
      return;
    }
    resp := StepResponse(Sent);
  }

  // Properties of the handler.

  /** An incomplete form is answered with its missing list, whatever the table, the upload and the effects. */
  lemma MissingFieldsStopEverything(rows: seq<Pago>, nextId: nat, form: PaymentForm, upload: Option<Upload>, fx: Effects)
    requires MissingOf(form) != []
    ensures Submit(rows, nextId, form, upload, fx) == Outcome(FieldsMissing(MissingOf(form)), None, rows, nextId)
    ensures StepResponse(Submit(rows, nextId, form, upload, fx).step)
      == RespondWithError(400, "missing_fields", StrList(MissingOf(form)))
  {
  }

  /** A stored (numero_operacion, tipo_operacion) pair is refused as `duplicate_operation`, whatever the upload. */
  lemma DuplicateRejected(rows: seq<Pago>, nextId: nat, form: PaymentForm, upload: Option<Upload>, fx: Effects)
    requires MissingOf(form) == [] && !fx.queryFails
    requires exists i :: 0 <= i < |rows| && rows[i].form.numeroOperacion == form.numeroOperacion
                                      && rows[i].form.tipoOperacion == form.tipoOperacion
    ensures Submit(rows, nextId, form, upload, fx) == Outcome(Duplicate, None, rows, nextId)
    ensures StepResponse(Duplicate) == RespondWithError(400, "duplicate_operation", Null)
  {
  }

  /** The table invariant (unique numbers, increasing ids) survives every request. */
  lemma SubmitKeepsInvariant(rows: seq<Pago>, nextId: nat, form: PaymentForm, upload: Option<Upload>, fx: Effects)
    requires TableInvariant(rows, nextId)
    ensures var o := Submit(rows, nextId, form, upload, fx); TableInvariant(o.rows, o.nextId)
  {
  }

  /** The insert comes before the mail: a failed send leaves the record stored. */
  lemma MailFailureKeepsRecord(rows: seq<Pago>, nextId: nat, form: PaymentForm, upload: Option<Upload>, fx: Effects)
    requires Submit(rows, nextId, form, upload, fx).step == MailFailed
    ensures Submit(rows, nextId, form, upload, fx).rows == rows + [Pago(nextId, form, fx.now)]
    ensures StepResponse(MailFailed) == RespondWithError(500, "email_error", Null)
  {
  }

  /**
   * Once the earlier checks pass, the size check refuses the upload exactly
   * when it is larger than 5242880 bytes; a file of exactly 5 MiB passes it.
   */
  lemma SizeLimit(rows: seq<Pago>, nextId: nat, form: PaymentForm, u: Upload, fx: Effects)
    requires MissingOf(form) == [] && !fx.queryFails && !HasPair(rows, form.numeroOperacion, form.tipoOperacion)
    ensures MaxFileSize == 5242880
    ensures Submit(rows, nextId, form, Some(u), fx).step == TooLarge <==> u.size > 5242880
  {
  }

  /** The five image types take the image branch: the attachment is what the encoder wrote. */
  lemma ImageBranch(u: Upload, fx: Effects)
    requires u.sniffedType in ["image/jpeg", "image/png", "image/gif", "image/bmp", "image/tiff"]
    ensures ProcessFile(u, fx) == (if fx.decoded.None? then Err(DecodeFailed)
                                   else if fx.encodeFails then Err(EncodeFailed(fx.decoded.value))
                                   else Ok(fx.encoded))
  {
  }

  /** A PDF is passed through: the attachment is the upload's bytes, unchanged. */
  lemma PdfPassThrough(u: Upload, fx: Effects)
    requires u.sniffedType == "application/pdf" && !fx.copyFails
    ensures ProcessFile(u, fx) == Ok(u.content)
  {
  }

  /** Any other sniffed type is refused with 400 and nothing is stored or mailed. */
  lemma OtherTypesRejected(rows: seq<Pago>, nextId: nat, form: PaymentForm, u: Upload, fx: Effects)
    requires !IsImageType(u.sniffedType) && u.sniffedType != "application/pdf"
    requires MissingOf(form) == [] && !fx.queryFails && !HasPair(rows, form.numeroOperacion, form.tipoOperacion)
    requires u.size <= MaxFileSize && !fx.openFails && !fx.readFails
    ensures Submit(rows, nextId, form, Some(u), fx) == Outcome(TypeNotAllowed, None, rows, nextId)
    ensures StepResponse(TypeNotAllowed).status == 400
  {
  }

  /**
   * A number already stored under another operation type passes the
   * duplicate check but is refused at the insert by UNIQUE(numero_operacion):
   * the reply is the 500 insert error, not `duplicate_operation`.
   */
  lemma NumeroReusedOtherType(rows: seq<Pago>, nextId: nat, form: PaymentForm, upload: Option<Upload>, fx: Effects)
    requires NumerosUnique(rows)
    requires exists i :: 0 <= i < |rows| && rows[i].form.numeroOperacion == form.numeroOperacion
                                      && rows[i].form.tipoOperacion != form.tipoOperacion
    requires CheckRequest(form, false, upload, fx).Ok?
    ensures Submit(rows, nextId, form, upload, fx) == Outcome(InsertFailed, None, rows, nextId)
    ensures StepResponse(InsertFailed).status == 500
  {
    NumeroClashWithoutPair(rows, nextId, form, fx.now, fx.insertFails);
  }

  /** A successful request stores the record and mails the body and the processed file. */
  lemma SentStoresAndMails(rows: seq<Pago>, nextId: nat, form: PaymentForm, upload: Option<Upload>, fx: Effects)
    requires Submit(rows, nextId, form, upload, fx).step == Sent
    ensures upload.Some? && !fx.mailFails
    ensures var o := Submit(rows, nextId, form, upload, fx);
      o.rows == rows + [Pago(nextId, form, fx.now)] &&
      o.mail == Some(Mail(MailSubject, FormatBody(form), upload.value.filename,
                          ProcessFile(upload.value, fx).value))
    ensures StepResponse(Sent).status == 200
  {
  }

  /** Every failure carries a non-empty `error` message; the success carries only its `message`. */
  lemma StepReplyMessages(s: Step)
    ensures var r := StepResponse(s); "error" in r.body <==> !s.Sent?
    ensures var r := StepResponse(s); !s.Sent? ==> r.body["error"].Str? && r.body["error"].s != ""
    ensures s.Sent? ==> StepResponse(s).body.Keys == {"message"}
  {
    match s
    case FieldsMissing(fields) => RespondWithErrorDecodes(StatusBadRequest, "missing_fields", StrList(fields));
    case Duplicate => RespondWithErrorDecodes(StatusBadRequest, "duplicate_operation", Null);
    case MailFailed => RespondWithErrorDecodes(StatusInternalServerError, "email_error", Null);
    case _ =>
  }

  /** Exactly the missing-fields, duplicate, too-large and mail failures carry an `error_code`. */
  lemma StepReplyCodes(s: Step)
    ensures "error_code" in StepResponse(s).body
      <==> s.FieldsMissing? || s.Duplicate? || s.TooLarge? || s.MailFailed?
  {
  }

  /**
   * Every reply that carries an error code uses a code of `errorCodes`, so
   * its message is never empty; `invalid_email` is never sent (an invalid
   * address is reported among the missing fields).
   */
  lemma CodedRepliesUseKnownCodes(s: Step)
    ensures var r := StepResponse(s);
      "error_code" in r.body ==> ErrorCodeOf(r) in ErrorCodes && r.body["error"] == Str(ErrorCodes[ErrorCodeOf(r)])
    ensures ErrorCodeOf(StepResponse(s)) != "invalid_email"
  {
  }
}
