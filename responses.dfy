/**
 * The JSON replies of the handlers: the `errorCodes` table and
 * `respondWithError` (main.go).
 */
module Responses {

  /** The JSON values the handlers put in a reply body. */
  datatype JsonValue = Str(s: string) | StrList(items: seq<string>) | Null

  /** An HTTP status and a JSON object. */
  datatype Response = Response(status: nat, body: map<string, JsonValue>)

  const StatusOK: nat := 200
  const StatusBadRequest: nat := 400
  const StatusInternalServerError: nat := 500

  /** The `errorCodes` table: error code to user-facing message. */
  const ErrorCodes: map<string, string> := map[
    "missing_fields" := "Faltan campos obligatorios",
    "invalid_email" := "El correo electrónico no es válido",
    "duplicate_operation" := "Número de operación ya registrado previamente",
    "file_too_large" := "El archivo supera el tamaño máximo permitido de 5 MB",
    "email_error" := "Error al enviar el correo"]

  /** A lookup in `errorCodes`; like a Go map read, "" for a code the table lacks. */
  function ErrorMessage(code: string): (m: string)
    ensures code in ErrorCodes <==> m != ""
    ensures code in ErrorCodes ==> m == ErrorCodes[code]
  {
    if code in ErrorCodes then ErrorCodes[code] else ""
  }

  /** Distinct codes of the table carry distinct messages, so a message identifies its code. */
  lemma ErrorMessagesDistinct(a: string, b: string)
    requires a in ErrorCodes && b in ErrorCodes && ErrorMessage(a) == ErrorMessage(b)
    ensures a == b
  {
  }

  /** `respondWithError`: the code, its message and the details under three keys. */
  function RespondWithError(status: nat, code: string, details: JsonValue): (r: Response)
    ensures r.status == status
    ensures r.body.Keys == {"error_code", "error", "details"}
    ensures r.body["error_code"] == Str(code) && r.body["details"] == details
    ensures code in ErrorCodes ==> r.body["error"] == Str(ErrorCodes[code])
  {
    Response(status, map["error_code" := Str(code), "error" := Str(ErrorMessage(code)), "details" := details])
  }

  /** A reply whose body is the single key "error". */
  function PlainError(status: nat, message: string): Response {
    Response(status, map["error" := Str(message)])
  }

  /** The error code a reply carries, if any. */
  function ErrorCodeOf(r: Response): (c: string)
    ensures "error_code" !in r.body ==> c == ""
  {
    if "error_code" in r.body && r.body["error_code"].Str? then r.body["error_code"].s else ""
  }

  /** A reply built by RespondWithError gives back its code and, for a known code, its message. */
  lemma RespondWithErrorDecodes(status: nat, code: string, details: JsonValue)
    requires code in ErrorCodes
    ensures var r := RespondWithError(status, code, details);
      ErrorCodeOf(r) == code && r.body["error"] == Str(ErrorMessage(code)) && ErrorMessage(code) != ""
  {
  }
}
