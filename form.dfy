/**
 * The payment form of the `/sendemail` handler (`PaymentForm`, main.go):
 * which required fields are missing, and the e-mail body built from the
 * form (`formatBody`).
 */
module Form {
  import opened Wrappers
  import opened Email

  /** The eleven form values, as read from the request. */
  datatype PaymentForm = PaymentForm(
    nombres: string,
    apellidos: string,
    correo: string,
    telefono: string,
    universidad: string,
    entrada: string,
    codigo: string,
    carrera: string,
    tipoOperacion: string,
    numeroOperacion: string,
    dni: string)

  /** The required fields; `codigo` is the one optional field. */
  datatype RequiredField =
    Nombres | Apellidos | Correo | Telefono | Universidad | Entrada |
    Carrera | TipoOperacion | NumeroOperacion | Dni

  /** The order in which the handler checks them: FieldAt(0) first, FieldAt(9) last. */
  const FieldCount := 10

  function FieldAt(i: nat): RequiredField
    requires i < FieldCount
  {
    match i
    case 0 => Nombres
    case 1 => Apellidos
    case 2 => Correo
    case 3 => Telefono
    case 4 => Universidad
    case 5 => Entrada
    case 6 => Carrera
    case 7 => TipoOperacion
    case 8 => NumeroOperacion
    case _ => Dni
  }

  /** The form-field name a required field is reported under. */
  function Name(f: RequiredField): string {
    match f
    case Nombres => "nombres"
    case Apellidos => "apellidos"
    case Correo => "correo"
    case Telefono => "telefono"
    case Universidad => "universidad"
    case Entrada => "entrada"
    case Carrera => "carrera"
    case TipoOperacion => "tipo_operacion"
    case NumeroOperacion => "numero_operacion"
    case Dni => "dni"
  }

  /** Position of a name in the check order; 10 for any other name (`codigo` among them). */
  function Rank(name: string): (r: nat)
    ensures r <= FieldCount
  {
    match name
    case "nombres" => 0
    case "apellidos" => 1
    case "correo" => 2
    case "telefono" => 3
    case "universidad" => 4
    case "entrada" => 5
    case "carrera" => 6
    case "tipo_operacion" => 7
    case "numero_operacion" => 8
    case "dni" => 9
    case _ => 10
  }

  /** The field checked at position Rank(Name(f)). */
  lemma RankOfName(f: RequiredField)
    ensures Rank(Name(f)) < FieldCount && FieldAt(Rank(Name(f))) == f
  {
  }

  /** The name checked at position `i` has rank `i`. */
  lemma RankOfFieldAt(i: nat)
    requires i < FieldCount
    ensures Rank(Name(FieldAt(i))) == i
  {
  }

  function Value(form: PaymentForm, f: RequiredField): string {
    match f
    case Nombres => form.nombres
    case Apellidos => form.apellidos
    case Correo => form.correo
    case Telefono => form.telefono
    case Universidad => form.universidad
    case Entrada => form.entrada
    case Carrera => form.carrera
    case TipoOperacion => form.tipoOperacion
    case NumeroOperacion => form.numeroOperacion
    case Dni => form.dni
  }

  /** A field is reported when it is empty; `correo` also when it is not a valid address. */
  predicate FieldMissing(form: PaymentForm, f: RequiredField) {
    if f == Correo then form.correo == "" || !IsValidEmail(form.correo)
    else Value(form, f) == ""
  }

  /** The names of the missing fields among the first `n` checked, in check order. */
  function MissingUpTo(form: PaymentForm, n: nat): seq<string>
    requires n <= FieldCount
  {
    if n == 0 then []
    else MissingUpTo(form, n - 1)
         + (var f := FieldAt(n - 1); if FieldMissing(form, f) then [Name(f)] else [])
  }

  /**
   * The list the handler reports under `missing_fields`: at most one name per
   * required field (MissingOfExactly below says which names).
   */
  function MissingOf(form: PaymentForm): (missing: seq<string>)
    ensures |missing| <= FieldCount
  {
    MissingUpToLength(form, FieldCount);
    MissingUpTo(form, FieldCount)
  }

  lemma {:induction false} MissingUpToLength(form: PaymentForm, n: nat)
    requires n <= FieldCount
    ensures |MissingUpTo(form, n)| <= n
  {
    if n > 0 {
      MissingUpToLength(form, n - 1);
    }
  }

  /**
   * The handler's validation: one check per required field, in the order of
   * the source, each appending the field's name when it is missing. The ten
   * checks are run in two blocks of five, one after the other.
   */
  method MissingFields(form: PaymentForm) returns (missing: seq<string>)
    ensures missing == MissingOf(form)
  {
    missing := CheckFirstFields(form);
    missing := CheckRemainingFields(form, missing);
  }

  /** The first five checks: nombres, apellidos, correo, telefono, universidad. */
  method CheckFirstFields(form: PaymentForm) returns (missing: seq<string>)
    ensures missing == MissingUpTo(form, 5)
  {
    missing := [];
    assert missing == MissingUpTo(form, 0);
    if form.nombres == "" {
      missing := missing + ["nombres"];
    }
    assert missing == MissingUpTo(form, 1);
    if form.apellidos == "" {
      missing := missing + ["apellidos"];
    }
    assert missing == MissingUpTo(form, 2);
    if form.correo == "" || !IsValidEmail(form.correo) {
      missing := missing + ["correo"];
    }
    assert missing == MissingUpTo(form, 3);
    if form.telefono == "" {
      missing := missing + ["telefono"];
    }
    assert missing == MissingUpTo(form, 4);
    if form.universidad == "" {
      missing := missing + ["universidad"];
    }
    assert missing == MissingUpTo(form, 5);
  }

  /** The last five checks: entrada, carrera, tipo_operacion, numero_operacion, dni. */
  method CheckRemainingFields(form: PaymentForm, checked: seq<string>) returns (missing: seq<string>)
    requires checked == MissingUpTo(form, 5)
    ensures missing == MissingUpTo(form, FieldCount)
  {
    missing := checked;
    if form.entrada == "" {
      missing := missing + ["entrada"];
    }
    assert missing == MissingUpTo(form, 6);
    if form.carrera == "" {
      missing := missing + ["carrera"];
    }
    assert missing == MissingUpTo(form, 7);
    if form.tipoOperacion == "" {
      missing := missing + ["tipo_operacion"];
    }
    assert missing == MissingUpTo(form, 8);
    if form.numeroOperacion == "" {
      missing := missing + ["numero_operacion"];
    }
    assert missing == MissingUpTo(form, 9);
    if form.dni == "" {
      missing := missing + ["dni"];
    }
    assert missing == MissingUpTo(form, 10);
  }

  /** `name` is the name of a missing field among the first `n` checked. */
  predicate Listed(form: PaymentForm, name: string, n: nat) {
    Rank(name) < n && Rank(name) < FieldCount &&
    name == Name(FieldAt(Rank(name))) && FieldMissing(form, FieldAt(Rank(name)))
  }

  /** Every name listed after `n` checks names a missing field among the first `n`. */
  lemma {:induction false} MissingUpToListed(form: PaymentForm, n: nat)
    requires n <= FieldCount
    ensures forall i :: 0 <= i < |MissingUpTo(form, n)| ==> Listed(form, MissingUpTo(form, n)[i], n)
  {
    if n > 0 {
      MissingUpToListed(form, n - 1);
      var p := MissingUpTo(form, n - 1);
      var m := MissingUpTo(form, n);
      RankOfFieldAt(n - 1);
      forall i | 0 <= i < |m|
        ensures Listed(form, m[i], n)
      {
        if i < |p| {
          assert m[i] == p[i];
          assert Listed(form, p[i], n - 1);
        } else {
          assert m[i] == Name(FieldAt(n - 1));
        }
      }
    }
  }

  /** The names listed after `n` checks are in strictly increasing check order. */
  lemma {:induction false} MissingUpToOrdered(form: PaymentForm, n: nat)
    requires n <= FieldCount
    ensures forall i, j :: 0 <= i < j < |MissingUpTo(form, n)| ==>
      Rank(MissingUpTo(form, n)[i]) < Rank(MissingUpTo(form, n)[j])
  {
    if n > 0 {
      MissingUpToOrdered(form, n - 1);
      MissingUpToListed(form, n - 1);
      var p := MissingUpTo(form, n - 1);
      var m := MissingUpTo(form, n);
      RankOfFieldAt(n - 1);
      forall i, j | 0 <= i < j < |m| ensures Rank(m[i]) < Rank(m[j]) {
        assert m[i] == p[i];
        if j < |p| {
          assert m[j] == p[j];
        } else {
          assert m[j] == Name(FieldAt(n - 1));
          assert Listed(form, p[i], n - 1);
        }
      }
    }
  }

  /** A missing field among the first `n` checked is listed after `n` checks. */
  lemma {:induction false} MissingUpToComplete(form: PaymentForm, n: nat, f: RequiredField)
    requires n <= FieldCount
    requires Rank(Name(f)) < n && FieldMissing(form, f)
    ensures Name(f) in MissingUpTo(form, n)
  {
    RankOfName(f);
    if Rank(Name(f)) == n - 1 {
      assert MissingUpTo(form, n)[|MissingUpTo(form, n - 1)|] == Name(f);
    } else {
      MissingUpToComplete(form, n - 1, f);
      var i :| 0 <= i < |MissingUpTo(form, n - 1)| && MissingUpTo(form, n - 1)[i] == Name(f);
      assert MissingUpTo(form, n)[i] == Name(f);
    }
  }

  /** Names of the missing fields are listed exactly when those fields are missing. */
  lemma MissingUpToMembers(form: PaymentForm, n: nat)
    requires n <= FieldCount
    ensures forall f :: Name(f) in MissingUpTo(form, n) <==> Rank(Name(f)) < n && FieldMissing(form, f)
  {
    MissingUpToListed(form, n);
    forall f ensures Name(f) in MissingUpTo(form, n) <==> Rank(Name(f)) < n && FieldMissing(form, f) {
      RankOfName(f);
      if Name(f) in MissingUpTo(form, n) {
        var i :| 0 <= i < |MissingUpTo(form, n)| && MissingUpTo(form, n)[i] == Name(f);
        assert Listed(form, MissingUpTo(form, n)[i], n);
      }
      if Rank(Name(f)) < n && FieldMissing(form, f) {
        MissingUpToComplete(form, n, f);
      }
    }
  }

  /**
   * The `missing_fields` list holds exactly the names of the missing required
   * fields, each once, in the handler's check order; `codigo` is never listed.
   */
  lemma MissingOfExactly(form: PaymentForm)
    ensures forall f :: Name(f) in MissingOf(form) <==> FieldMissing(form, f)
    ensures forall i :: 0 <= i < |MissingOf(form)| ==> Listed(form, MissingOf(form)[i], FieldCount)
    ensures forall i, j :: 0 <= i < j < |MissingOf(form)| ==> Rank(MissingOf(form)[i]) < Rank(MissingOf(form)[j])
    ensures "codigo" !in MissingOf(form)
  {
    MissingUpToMembers(form, FieldCount);
    MissingUpToListed(form, FieldCount);
    MissingUpToOrdered(form, FieldCount);
    forall f ensures Rank(Name(f)) < FieldCount {
      RankOfName(f);
    }
    assert Rank("codigo") == FieldCount;
  }

  /** `correo` is listed when it is empty or not a valid address. */
  lemma CorreoListed(form: PaymentForm)
    ensures "correo" in MissingOf(form) <==> form.correo == "" || !IsValidEmail(form.correo)
  {
    MissingOfExactly(form);
    assert Name(Correo) == "correo";
  }

  /** The list is empty exactly when every required field is present and `correo` is valid. */
  lemma MissingOfEmpty(form: PaymentForm)
    ensures MissingOf(form) == [] <==> forall f :: !FieldMissing(form, f)
  {
    MissingOfExactly(form);
    if MissingOf(form) != [] {
      assert Listed(form, MissingOf(form)[0], FieldCount);
    }
  }

  // The e-mail body (`formatBody`).

  /** The labels of the body's lines, in the order the template lists them. */
  const BodyLabels: seq<string> :=
    ["Nombres", "Apellidos", "Correo", "Teléfono", "Universidad", "Entrada",
     "Código", "Carrera", "Tipo de Operación", "Número de Operación", "DNI"]

  /** The form values, in the order the template receives them. */
  function BodyValues(form: PaymentForm): (vs: seq<string>)
    ensures |vs| == |BodyLabels|
  {
    [form.nombres, form.apellidos, form.correo, form.telefono, form.universidad, form.entrada,
     form.codigo, form.carrera, form.tipoOperacion, form.numeroOperacion, form.dni]
  }

  /** The text before each value: a line break, three tabs, the caption and ": ". */
  function LineHead(caption: string): string {
    "\n\t\t\t" + caption + ": "
  }

  /** One line of the body: the head, the value and the closing "<br>". */
  function BodyLine(caption: string, value: string): string {
    LineHead(caption) + value + "<br>"
  }

  function RenderLines(labels: seq<string>, values: seq<string>): string
    requires |labels| == |values|
  {
    if labels == [] then "" else BodyLine(labels[0], values[0]) + RenderLines(labels[1..], values[1..])
  }

  /** No value of the form contains '<', the character that ends a value in the body. */
  predicate PlainValues(form: PaymentForm) {
    forall i :: 0 <= i < |BodyLabels| ==> NoAngle(BodyValues(form)[i])
  }

  /**
   * The template of `formatBody` filled with the eleven values. The body lists
   * every value once, after its caption and in the template's order: as long
   * as no value contains '<', ParseBody gives the form back.
   */
  function FormatBody(form: PaymentForm): (body: string)
    ensures PlainValues(form) ==> ParseBody(body) == Some(form)
  {
    if PlainValues(form) then
      ParseRenderLines(BodyLabels, BodyValues(form));
      RenderLines(BodyLabels, BodyValues(form))
    else
      RenderLines(BodyLabels, BodyValues(form))
  }

  /** Reads one line with the given caption, returning its value and the rest. */
  function ParseLine(s: string, caption: string): Option<(string, string)> {
    var head := LineHead(caption);
    if |s| < |head| || s[..|head|] != head then None
    else
      var rest := s[|head|..];
      match IndexOf(rest, '<')
      case None => None
      case Some(i) =>
        if |rest| < i + 4 || rest[i..i + 4] != "<br>" then None
        else Some((rest[..i], rest[i + 4..]))
  }

  function ParseLines(labels: seq<string>, s: string): Option<seq<string>> {
    if labels == [] then (if s == "" then Some([]) else None)
    else
      match ParseLine(s, labels[0])
      case None => None
      case Some((v, rest)) =>
        match ParseLines(labels[1..], rest)
        case None => None
        case Some(vs) => Some([v] + vs)
  }

  function FormOfValues(vs: seq<string>): PaymentForm
    requires |vs| == |BodyLabels|
  {
    PaymentForm(vs[0], vs[1], vs[2], vs[3], vs[4], vs[5], vs[6], vs[7], vs[8], vs[9], vs[10])
  }

  /** Recovers the form from a body; the inverse of FormatBody. */
  function ParseBody(body: string): Option<PaymentForm> {
    match ParseLines(BodyLabels, body)
    case None => None
    case Some(vs) => if |vs| == |BodyLabels| then Some(FormOfValues(vs)) else None
  }

  predicate NoAngle(s: string) {
    forall i :: 0 <= i < |s| ==> s[i] != '<'
  }

  lemma ParseLineOfBodyLine(caption: string, value: string, rest: string)
    requires NoAngle(value)
    ensures ParseLine(BodyLine(caption, value) + rest, caption) == Some((value, rest))
  {
    var s := BodyLine(caption, value) + rest;
    var head := LineHead(caption);
    assert s[..|head|] == head;
    var r := s[|head|..];
    assert r == value + ("<br>" + rest);
    assert r[|value|] == '<';
    assert IndexOf(r, '<') == Some(|value|);
    assert r[|value|..|value| + 4] == "<br>";
    assert r[..|value|] == value;
    assert r[|value| + 4..] == rest;
  }

  lemma {:induction false} ParseRenderLines(labels: seq<string>, values: seq<string>)
    requires |labels| == |values|
    requires forall i :: 0 <= i < |values| ==> NoAngle(values[i])
    ensures ParseLines(labels, RenderLines(labels, values)) == Some(values)
  {
    if labels != [] {
      ParseLineOfBodyLine(labels[0], values[0], RenderLines(labels[1..], values[1..]));
      ParseRenderLines(labels[1..], values[1..]);
      assert [values[0]] + values[1..] == values;
    }
  }
}
