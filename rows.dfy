/**
 * The production table: a raw row as the `prod.v_dashboard_hoy` view
 * delivers it, and the typed row every later step works on, whose fields
 * are the table's columns (absent = NULL/NaN).
 */
module Rows {
  import opened Options
  import opened Text

  /** An untyped cell of the lost-minutes column, before `pd.to_numeric`. */
  datatype Cell = Num(x: real) | Word(s: string) | Null

  /** One row of the view: hour as its `str()` text, line ("Proceso"), operator, shift ("Turno"), crew size ("Operarios"), output, lost minutes, notes. */
  datatype RawRow = RawRow(
    hour: string,
    line: Option<string>,
    operator: Option<string>,
    shift: Option<string>,
    crew: Option<int>,
    actual: Option<int>,
    lost: Cell,
    notes: Option<string>)

  /** The "Hora" column: the view's text, an integer once overwritten from "Hora_Num", or NaN on a merged gap row. */
  datatype HourCell = Label(text: string) | At(h: int) | Blank

  /**
   * A row of the working table. `target` is "Meta por Hora" and `hourNum`
   * is the "Hora_Num" column (absent before it is added).
   */
  datatype Row = Row(
    hour: HourCell,
    line: Option<string>,
    operator: Option<string>,
    shift: Option<string>,
    crew: Option<int>,
    actual: Option<int>,
    lost: Option<real>,
    notes: Option<string>,
    target: Option<int>,
    hourNum: Option<int>)

  /** The six lines and their configured hourly targets ("METAS_POR_LINEA"). */
  function TargetMap(atlanta1: int, atlanta2: int, litro: int, vertical1: int, vertical2: int, vertical3: int): (m: map<string, int>)
    ensures m.Keys == {"Atlanta 1", "Atlanta 2", "Litro", "Vertical 1", "Vertical 2", "Vertical 3"}
    ensures m["Atlanta 1"] == atlanta1 && m["Atlanta 2"] == atlanta2 && m["Litro"] == litro
    ensures m["Vertical 1"] == vertical1 && m["Vertical 2"] == vertical2 && m["Vertical 3"] == vertical3
  {
    map["Atlanta 1" := atlanta1, "Atlanta 2" := atlanta2, "Litro" := litro,
        "Vertical 1" := vertical1, "Vertical 2" := vertical2, "Vertical 3" := vertical3]
  }

  /** `Proceso.map(METAS_POR_LINEA).fillna(0)` for one row. */
  function TargetFor(targets: map<string, int>, line: Option<string>): int
  {
    if line.Some? && line.value in targets then targets[line.value] else 0
  }

  /** `pd.to_numeric(cell, errors='coerce').fillna(0)`. */
  function Coerce(c: Cell): (r: real)
    ensures c.Num? ==> r == c.x
    ensures c.Null? ==> r == 0.0
    ensures c.Word? && !IsIntLiteral(c.s) ==> r == 0.0
    ensures c.Word? && |c.s| > 0 && AllDigits(c.s) ==> r == DigitsValue(c.s) as real
    ensures c.Word? && |c.s| > 1 && c.s[0] == '-' && AllDigits(c.s[1..]) ==> r == -(DigitsValue(c.s[1..]) as real)
    ensures c.Word? && |c.s| > 1 && c.s[0] == '+' && AllDigits(c.s[1..]) ==> r == DigitsValue(c.s[1..]) as real
  {
    match c
    case Num(x) => x
    case Word(s) => (match ParseInt(s) case Some(n) => n as real case None => 0.0)
    case Null => 0.0
  }

  function NormalizeRow(r: RawRow, targets: map<string, int>): Row
  {
    Row(Label(r.hour), r.line, r.operator, r.shift, r.crew, r.actual,
        Some(Coerce(r.lost)), r.notes, Some(TargetFor(targets, r.line)), None)
  }

  /**
   * The base table: every row gets its line's target (0 for a line without
   * one) and numeric lost minutes (0 when missing or not a number); rows keep
   * their count and order, and an empty input gives an empty table.
   */
  function Normalize(raw: seq<RawRow>, targets: map<string, int>): (rows: seq<Row>)
    ensures |rows| == |raw|
    ensures forall i :: 0 <= i < |raw| ==>
      && rows[i].hour == Label(raw[i].hour)
      && rows[i].line == raw[i].line && rows[i].operator == raw[i].operator
      && rows[i].shift == raw[i].shift && rows[i].crew == raw[i].crew
      && rows[i].actual == raw[i].actual && rows[i].notes == raw[i].notes
      && rows[i].hourNum.None?
    ensures forall i :: 0 <= i < |raw| ==>
      rows[i].target == Some(if raw[i].line.Some? && raw[i].line.value in targets then targets[raw[i].line.value] else 0)
    ensures forall i :: 0 <= i < |raw| ==>
      && rows[i].lost.Some?
      && (raw[i].lost.Num? ==> rows[i].lost.value == raw[i].lost.x)
      && (raw[i].lost.Null? ==> rows[i].lost.value == 0.0)
      && (raw[i].lost.Word? ==> rows[i].lost.value == (if IsIntLiteral(raw[i].lost.s) then ParseInt(raw[i].lost.s).value as real else 0.0))
  {
    seq(|raw|, i requires 0 <= i < |raw| => NormalizeRow(raw[i], targets))
  }

  /** Lost-minute text written as an integer is read as that number. */
  lemma NormalizeReadsShownMinutes(r: RawRow, targets: map<string, int>, n: int)
    requires r.lost == Word(Show(n))
    ensures Normalize([r], targets)[0].lost == Some(n as real)
  {
    ParseShow(n);
  }
}
