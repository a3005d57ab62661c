/**
 * The `/descargarreporte` handler (main.go): the header row and one row per
 * scanned record written into the sheet, cell by cell, under addresses
 * such as "A1" or "M12".
 *
 * The sheet is the map from cell address to the value written there; the
 * id is written as a number and `fecha_registro` as its formatted text, both
 * kept abstract here.
 */
module Report {
  import opened Wrappers
  import opened Email
  import opened Form
  import opened Responses
  import opened Pagos

  // Decimal row numbers (`strconv.Itoa` on a positive row index).

  function DigitChar(d: nat): (c: char)
    requires d < 10
    ensures IsAsciiDigit(c)
  {
    ('0' as int + d) as char
  }

  function DigitValue(c: char): (d: nat)
    requires IsAsciiDigit(c)
    ensures d < 10 && DigitChar(d) == c
  {
    (c as int - '0' as int) as nat
  }

  predicate AllDigits(s: string) {
    forall i :: 0 <= i < |s| ==> IsAsciiDigit(s[i])
  }

  /** Decimal text without leading zeros: non-empty digits, starting with '0' only for "0". */
  predicate Canonical(s: string) {
    |s| > 0 && AllDigits(s) && (|s| > 1 ==> s[0] != '0')
  }

  function NatToString(n: nat): (s: string)
    ensures Canonical(s)
    ensures (n < 10) == (|s| == 1)
  {
    if n < 10 then [DigitChar(n)] else NatToString(n / 10) + [DigitChar(n % 10)]
  }

  function ParseDecimal(s: string): nat
    requires AllDigits(s)
  {
    if s == [] then 0 else ParseDecimal(s[..|s| - 1]) * 10 + DigitValue(s[|s| - 1])
  }

  lemma {:induction false} ParseNatToString(n: nat)
    ensures ParseDecimal(NatToString(n)) == n
  {
    if n >= 10 {
      var s := NatToString(n);
      assert s[..|s| - 1] == NatToString(n / 10);
      ParseNatToString(n / 10);
    }
  }

  lemma {:induction false} ParseDecimalPositive(s: string)
    requires AllDigits(s) && |s| > 0 && s[0] != '0'
    ensures ParseDecimal(s) > 0
  {
    if |s| > 1 {
      ParseDecimalPositive(s[..|s| - 1]);
    }
  }

  lemma {:induction false} NatToStringOfParse(s: string)
    requires Canonical(s)
    ensures NatToString(ParseDecimal(s)) == s
  {
    if |s| > 1 {
      var p := s[..|s| - 1];
      assert Canonical(p);
      ParseDecimalPositive(p);
      NatToStringOfParse(p);
      assert s == p + [s[|s| - 1]];
    }
  }

  // Cell addresses.

  /** The 13 columns A..M, one per selected column of `pagos`. */
  const ColumnCount: nat := 13

  /** `string(rune('A' + col))`. */
  function ColumnLetter(col: nat): char
    requires col < 26
  {
    ('A' as int + col) as char
  }

  /** The address of the cell in column `col` (0 for A) and row `row`. */
  function CellName(col: nat, row: nat): (name: string)
    requires col < 26
    ensures 2 <= |name| && 'A' <= name[0] <= 'Z' && name[0] as int - 'A' as int == col
    ensures Canonical(name[1..])
  {
    [ColumnLetter(col)] + NatToString(row)
  }

  /** Reads an address back: one upper-case letter, then a decimal row. */
  function ParseCell(s: string): Option<(nat, nat)> {
    if |s| < 2 || !('A' <= s[0] <= 'Z') || !Canonical(s[1..]) then None
    else Some(((s[0] as int - 'A' as int) as nat, ParseDecimal(s[1..])))
  }

  /** ParseCell inverts CellName ... */
  lemma ParseCellName(col: nat, row: nat)
    requires col < 26
    ensures ParseCell(CellName(col, row)) == Some((col, row))
  {
    var s := CellName(col, row);
    assert s[1..] == NatToString(row);
    ParseNatToString(row);
  }

  /** ... and every address it accepts is some CellName. */
  lemma CellNameOfParse(s: string)
    requires ParseCell(s).Some?
    ensures ParseCell(s).value.0 < 26 && CellName(ParseCell(s).value.0, ParseCell(s).value.1) == s
  {
    NatToStringOfParse(s[1..]);
    assert s == [s[0]] + s[1..];
  }

  /** Distinct (column, row) pairs have distinct addresses. */
  lemma CellNameInjective(c1: nat, r1: nat, c2: nat, r2: nat)
    requires c1 < 26 && c2 < 26 && CellName(c1, r1) == CellName(c2, r2)
    ensures c1 == c2 && r1 == r2
  {
    ParseCellName(c1, r1);
    ParseCellName(c2, r2);
  }

  // The sheet.

  /** A value written into a cell; TimeCell stands for the formatted registration time. */
  datatype CellValue = IntCell(i: int) | TextCell(t: string) | TimeCell(time: int)

  const Headers: seq<string> :=
    ["ID", "Nombres", "Apellidos", "Correo", "Teléfono", "Universidad", "Entrada", "Código",
     "Carrera", "Tipo de Operación", "Número de Operación", "DNI", "Fecha de Registro"]

  /** The values of one record, in the order of the SELECT. */
  function RowValues(p: Pago): (vs: seq<CellValue>)
    ensures |vs| == ColumnCount
    ensures vs[0] == IntCell(p.id) && vs[ColumnCount - 1] == TimeCell(p.fechaRegistro)
    ensures forall i :: 0 <= i < |BodyLabels| ==> vs[i + 1] == TextCell(BodyValues(p.form)[i])
  {
    var f := p.form;
    [IntCell(p.id), TextCell(f.nombres), TextCell(f.apellidos), TextCell(f.correo), TextCell(f.telefono),
     TextCell(f.universidad), TextCell(f.entrada), TextCell(f.codigo), TextCell(f.carrera),
     TextCell(f.tipoOperacion), TextCell(f.numeroOperacion), TextCell(f.dni), TimeCell(p.fechaRegistro)]
  }

  /** The layout: headers in row 1, the k-th scanned record (from 0) in row k + 2. */
  function ExpectedCell(scanned: seq<Pago>, col: nat, row: nat): CellValue
    requires col < ColumnCount && 1 <= row <= |scanned| + 1
  {
    if row == 1 then TextCell(Headers[col]) else RowValues(scanned[row - 2])[col]
  }

  /** Cell (col, row) holds the value the layout puts there. */
  predicate Written(cells: map<string, CellValue>, scanned: seq<Pago>, col: nat, row: nat)
    requires col < ColumnCount && 1 <= row <= |scanned| + 1
  {
    CellName(col, row) in cells && cells[CellName(col, row)] == ExpectedCell(scanned, col, row)
  }

  /** `name` addresses a cell of column A..M in a full row below `row`, or in row `row` left of `col`. */
  predicate Before(name: string, row: nat, col: nat) {
    match ParseCell(name)
    case None => false
    case Some((c, r)) => c < ColumnCount && 1 <= r && (r < row || (r == row && c < col))
  }

  /** The header row: 13 single-letter columns A..M in row 1, in order. */
  lemma HeaderRowAddresses(col: nat)
    requires col < ColumnCount
    ensures CellName(col, 1) == [ColumnLetter(col)] + "1"
    ensures 'A' <= ColumnLetter(col) <= 'M'
    ensures col + 1 < ColumnCount ==> ColumnLetter(col) < ColumnLetter(col + 1)
  {
  }

  /**
   * The header row frames the form's columns: between "ID" and the
   * registration date, each column is headed by the label the mail body
   * gives the same value.
   */
  lemma HeadersLabelFormColumns()
    ensures Headers == ["ID"] + BodyLabels + ["Fecha de Registro"]
  {
  }

  /** What the query does: it may fail, a row may fail to scan, the iteration may end in error. */
  datatype ReportEffects = ReportEffects(queryFails: bool, scanFailsAt: Option<nat>, iterFails: bool)

  datatype ReportResult = Sheet(cells: map<string, CellValue>) | ReportError(resp: Response)


  /** The export; `scanned` is what the SELECT returns, in the order it returns it. */
  method DownloadReport(scanned: seq<Pago>, fx: ReportEffects) returns (r: ReportResult)
    ensures r.ReportError? <==>
      fx.queryFails || (fx.scanFailsAt.Some? && fx.scanFailsAt.value < |scanned|) || fx.iterFails
    ensures r.ReportError? && fx.queryFails ==> r.resp == PlainError(StatusInternalServerError, "Error al obtener datos")
    ensures r.ReportError? && !fx.queryFails ==> r.resp == PlainError(StatusInternalServerError, "Error al procesar datos")
    ensures r.Sheet? ==> forall col, row :: 0 <= col < ColumnCount && 1 <= row <= |scanned| + 1 ==>
      Written(r.cells, scanned, col, row)
    ensures r.Sheet? ==> forall name :: name in r.cells ==> Before(name, |scanned| + 2, 0)
  {
    var cells: map<string, CellValue> := map[];
    for i := 0 to |Headers|
      invariant forall col :: 0 <= col < i ==> Written(cells, scanned, col, 1)
      invariant forall name :: name in cells ==> Before(name, 1, i)
    {
      PlaceCell(cells, scanned, i, 1, TextCell(Headers[i]));
      ghost var prev := cells;
      cells := cells[CellName(i, 1) := TextCell(Headers[i])];
      forall col | 0 <= col < i ensures Written(cells, scanned, col, 1) {
        assert Written(prev, scanned, col, 1);
      }
    }
    if fx.queryFails {
      return ReportError(PlainError(StatusInternalServerError, "Error al obtener datos"));
    }
    var rowIndex := 2;
    var k := 0;
    while k < |scanned|
      invariant 0 <= k <= |scanned| && rowIndex == k + 2
      invariant fx.scanFailsAt.Some? ==> k <= fx.scanFailsAt.value
      invariant forall col, row :: 0 <= col < ColumnCount && 1 <= row < rowIndex ==> Written(cells, scanned, col, row)
      invariant forall name :: name in cells ==> Before(name, rowIndex, 0)
    {
      if fx.scanFailsAt == Some(k) {
        return ReportError(PlainError(StatusInternalServerError, "Error al procesar datos"));
      }
      cells := WriteRow(cells, scanned, k, rowIndex);
      rowIndex := rowIndex + 1;
      k := k + 1;
    }
    if fx.iterFails {
      return ReportError(PlainError(StatusInternalServerError, "Error al procesar datos"));
    }
    r := Sheet(cells);
  }

  /** The inner loop: the values of record k, column by column, into row rowIndex = k + 2. */
  method WriteRow(cells: map<string, CellValue>, scanned: seq<Pago>, k: nat, rowIndex: nat)
      returns (cells': map<string, CellValue>)
    requires k < |scanned| && rowIndex == k + 2
    requires forall col, row :: 0 <= col < ColumnCount && 1 <= row < rowIndex ==> Written(cells, scanned, col, row)
    requires forall name :: name in cells ==> Before(name, rowIndex, 0)
    ensures forall col, row :: 0 <= col < ColumnCount && 1 <= row <= rowIndex ==> Written(cells', scanned, col, row)
    ensures forall name :: name in cells' ==> Before(name, rowIndex + 1, 0)
  {
    cells' := cells;
    var data := RowValues(scanned[k]);
    for j := 0 to |data|
      invariant forall col, row :: 0 <= col < ColumnCount && 1 <= row < rowIndex ==> Written(cells', scanned, col, row)
      invariant forall col :: 0 <= col < j ==> Written(cells', scanned, col, rowIndex)
      invariant forall name :: name in cells' ==> Before(name, rowIndex, j)
    {
      PlaceCell(cells', scanned, j, rowIndex, data[j]);
      ghost var prev := cells';
      cells' := cells'[CellName(j, rowIndex) := data[j]];
      forall col, row | 0 <= col < ColumnCount && 1 <= row < rowIndex ensures Written(cells', scanned, col, row) {
        assert Written(prev, scanned, col, row);
      }
      forall col | 0 <= col < j ensures Written(cells', scanned, col, rowIndex) {
        assert Written(prev, scanned, col, rowIndex);
      }
    }
    forall name | name in cells' ensures Before(name, rowIndex + 1, 0) {
      assert Before(name, rowIndex, ColumnCount);
    }
  }

  /** Writing cell (col, row) keeps every other written cell and adds only that address. */
  lemma PlaceCell(cells: map<string, CellValue>, scanned: seq<Pago>, col: nat, row: nat, v: CellValue)
    requires col < ColumnCount && 1 <= row <= |scanned| + 1
    ensures forall c: nat, r: nat ::
      (c < ColumnCount && 1 <= r <= |scanned| + 1 && (c, r) != (col, row) && Written(cells, scanned, c, r))
      ==> Written(cells[CellName(col, row) := v], scanned, c, r)
    ensures v == ExpectedCell(scanned, col, row) ==> Written(cells[CellName(col, row) := v], scanned, col, row)
    ensures forall name :: name in cells[CellName(col, row) := v] ==>
      name in cells || ParseCell(name) == Some((col, row))
  {
    forall c: nat, r: nat | c < ColumnCount && (c, r) != (col, row) ensures CellName(c, r) != CellName(col, row) {
      if CellName(c, r) == CellName(col, row) {
        CellNameInjective(c, r, col, row);
      }
    }
    ParseCellName(col, row);
  }
}
