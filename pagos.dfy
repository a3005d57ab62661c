/**
 * The `pagos` table (`createTables`, main.go) as a sequence of records, with
 * the column-level UNIQUE constraint on `numero_operacion` and the SERIAL id.
 */
module Pagos {
  import opened Wrappers
  import opened Form

  /** A stored record: the SERIAL id, the eleven form values and `fecha_registro`. */
  datatype Pago = Pago(id: nat, form: PaymentForm, fechaRegistro: int)

  /** The query of the duplicate check: a record with this number AND this type. */
  predicate HasPair(rows: seq<Pago>, numero: string, tipo: string) {
    exists i :: 0 <= i < |rows| && rows[i].form.numeroOperacion == numero && rows[i].form.tipoOperacion == tipo
  }

  /** What the UNIQUE constraint looks at: a record with this number, whatever its type. */
  predicate HasNumero(rows: seq<Pago>, numero: string) {
    exists i :: 0 <= i < |rows| && rows[i].form.numeroOperacion == numero
  }

  predicate NumerosUnique(rows: seq<Pago>) {
    forall i, j :: 0 <= i < j < |rows| ==> rows[i].form.numeroOperacion != rows[j].form.numeroOperacion
  }

  /** SERIAL ids: positive, strictly increasing in insertion order, below the next value. */
  predicate IdsIncreasing(rows: seq<Pago>, nextId: nat) {
    (forall i :: 0 <= i < |rows| ==> 0 < rows[i].id < nextId) &&
    (forall i, j :: 0 <= i < j < |rows| ==> rows[i].id < rows[j].id)
  }

  predicate TableInvariant(rows: seq<Pago>, nextId: nat) {
    NumerosUnique(rows) && IdsIncreasing(rows, nextId) && 0 < nextId
  }

  /**
   * The INSERT: refused when the database reports a failure (`fails`) or
   * when UNIQUE(numero_operacion) would be violated; otherwise one record is
   * appended with the next id and the insertion time.
   */
  function InsertRow(rows: seq<Pago>, nextId: nat, form: PaymentForm, now: int, fails: bool): (r: Option<seq<Pago>>)
    ensures r.Some? <==> !fails && !HasNumero(rows, form.numeroOperacion)
  {
    if fails || HasNumero(rows, form.numeroOperacion) then None
    else Some(rows + [Pago(nextId, form, now)])
  }

  /** A successful insert appends exactly one record, holding the form as given. */
  lemma InsertAppendsOne(rows: seq<Pago>, nextId: nat, form: PaymentForm, now: int, fails: bool)
    requires InsertRow(rows, nextId, form, now, fails).Some?
    ensures var r := InsertRow(rows, nextId, form, now, fails).value;
      |r| == |rows| + 1 && r[..|rows|] == rows && r[|rows|].form == form && r[|rows|].id == nextId
  {
  }

  /** Inserting keeps the number unique and the ids increasing. */
  lemma InsertKeepsInvariant(rows: seq<Pago>, nextId: nat, form: PaymentForm, now: int, fails: bool)
    requires TableInvariant(rows, nextId)
    requires InsertRow(rows, nextId, form, now, fails).Some?
    ensures TableInvariant(InsertRow(rows, nextId, form, now, fails).value, nextId + 1)
  {
  }

  /** A duplicate pair is also a duplicate number: the pair check is the weaker rule. */
  lemma PairImpliesNumero(rows: seq<Pago>, numero: string, tipo: string)
    requires HasPair(rows, numero, tipo)
    ensures HasNumero(rows, numero)
  {
  }

  /**
   * The two rules differ: a request reusing a stored number with another
   * operation type passes the pair check and is then refused by the
   * constraint.
   */
  lemma NumeroClashWithoutPair(rows: seq<Pago>, nextId: nat, form: PaymentForm, now: int, fails: bool)
    requires exists i :: 0 <= i < |rows| && rows[i].form.numeroOperacion == form.numeroOperacion
                                      && rows[i].form.tipoOperacion != form.tipoOperacion
    requires NumerosUnique(rows)
    ensures !HasPair(rows, form.numeroOperacion, form.tipoOperacion)
    ensures InsertRow(rows, nextId, form, now, fails).None?
  {
  }

  /** The table as the server holds it. */
  class PagosTable {
    var rows: seq<Pago>
    var nextId: nat

    ghost predicate Valid()
      reads this
    {
      TableInvariant(rows, nextId)
    }

    /** CREATE TABLE: no records, and the SERIAL sequence starts at 1. */
    constructor ()
      ensures Valid() && rows == [] && nextId == 1
    {
      rows := [];
      nextId := 1;
    }

    /** The duplicate check's query. */
    predicate HasOperation(numero: string, tipo: string)
      reads this
    {
      HasPair(rows, numero, tipo)
    }

    method Insert(form: PaymentForm, now: int, fails: bool) returns (ok: bool)
      requires Valid()
      modifies this
      ensures Valid()
      ensures ok <==> !fails && !HasNumero(old(rows), form.numeroOperacion)
      ensures ok ==> rows == old(rows) + [Pago(old(nextId), form, now)] && nextId == old(nextId) + 1
      ensures !ok ==> rows == old(rows) && nextId == old(nextId)
    {
      var r := InsertRow(rows, nextId, form, now, fails);
      if r.Some? {
        InsertKeepsInvariant(rows, nextId, form, now, fails);
        rows, nextId := r.value, nextId + 1;
        ok := true;
      } else {
        ok := false;
      }
    }
  }
}
