/**
 * Incident selection and classification, the detail-table highlight, and
 * the rows that carry a shift (detail table and CSV export).
 */
module Alerts {
  import opened Options
  import opened Seqs
  import opened Text
  import opened Rows

  datatype Severity = Observacion | Leve | Moderado | Critico

  /**
   * The tier of an incident by its lost minutes: none or zero is an
   * observation, up to 15 minor, up to 45 moderate, beyond that critical.
   * A negative value falls in the "up to 15" branch.
   */
  function SeverityOf(minutes: Option<real>): (s: Severity)
    ensures s == Observacion <==> minutes.None? || minutes.value == 0.0
    ensures s == Leve <==> minutes.Some? && minutes.value != 0.0 && minutes.value <= 15.0
    ensures s == Moderado <==> minutes.Some? && 15.0 < minutes.value <= 45.0
    ensures s == Critico <==> minutes.Some? && 45.0 < minutes.value
  {
    if minutes.None? || minutes.value == 0.0 then Observacion
    else if minutes.value <= 15.0 then Leve
    else if minutes.value <= 45.0 then Moderado
    else Critico
  }

  function Rank(s: Severity): nat
  {
    match s
    case Observacion => 0
    case Leve => 1
    case Moderado => 2
    case Critico => 3
  }

  /** For positive lost minutes, more minutes never give a lower severity. */
  lemma SeverityMonotone(a: real, b: real)
    requires 0.0 < a <= b
    ensures Rank(SeverityOf(Some(a))) <= Rank(SeverityOf(Some(b)))
  {
  }

  /** Row colours of the detail table. */
  datatype Tier = Red | Orange | Yellow | LightBlue | Plain

  /** `str(notes).strip()`, with a NULL note printed as "None". */
  function NoteText(notes: Option<string>): (s: string)
    ensures notes.None? ==> s == "None"
    ensures notes.Some? ==> TrimOf(s, notes.value)
    ensures notes.Some? ==> (s == [] <==> AllSpace(notes.value))
    ensures notes.Some? ==> s == [] || (!IsSpace(s[0]) && !IsSpace(s[|s| - 1]))
  {
    match notes
    case Some(v) => Strip(v)
    case None => "None"
  }

  /** The colour the detail table gives an incident of severity `s`. */
  function TierOf(s: Severity): Tier
  {
    match s
    case Critico => Red
    case Moderado => Orange
    case Leve => Yellow
    case Observacion => LightBlue
  }

  /**
   * `resaltar_alertas`: red beyond 45 lost minutes, orange beyond 15, yellow
   * beyond 0; otherwise light blue for a written note, where blank, "None"
   * and "nan" count as no note; otherwise no colour.
   */
  function Highlight(minutes: Option<real>, notes: Option<string>): (tier: Tier)
    ensures minutes.Some? && minutes.value > 0.0 ==> tier in {Red, Orange, Yellow} && tier == TierOf(SeverityOf(minutes))
    ensures !(minutes.Some? && minutes.value > 0.0) ==> tier in {LightBlue, Plain}
    ensures !(minutes.Some? && minutes.value > 0.0) ==>
      (tier == LightBlue <==> NoteText(notes) != "" && NoteText(notes) != "None" && NoteText(notes) != "nan")
  {
    var obs := NoteText(notes);
    if minutes.Some? && minutes.value > 45.0 then Red
    else if minutes.Some? && minutes.value > 15.0 then Orange
    else if minutes.Some? && minutes.value > 0.0 then Yellow
    else if obs != "" && obs != "None" && obs != "nan" then LightBlue
    else Plain
  }

  /** A note with a character other than whitespace. */
  predicate HasNote(notes: Option<string>)
  {
    notes.Some? && Strip(notes.value) != ""
  }

  predicate LostTime(r: Row)
  {
    r.lost.Some? && r.lost.value > 0.0
  }

  /**
   * The selection at lines 143-144 as written: a NULL note strips to NaN and
   * `NaN != ""` holds, so a row with a shift and no note is selected.
   */
  predicate IsAlertAsWritten(r: Row): (b: bool)
    ensures b ==> r.shift.Some?
    ensures r.shift.Some? && r.notes.None? ==> b
    ensures b <==> r.shift.Some? && (LostTime(r) || r.notes.None? || !AllSpace(r.notes.value))
  {
    r.shift.Some? && (LostTime(r) || r.notes.None? || Strip(r.notes.value) != "")
  }

  /** The selection as intended: a row with a shift and lost time or a written note. */
  predicate IsAlert(r: Row): (b: bool)
    ensures b ==> IsAlertAsWritten(r)
    ensures b <==> r.shift.Some? && (LostTime(r) || (r.notes.Some? && !AllSpace(r.notes.value)))
  {
    r.shift.Some? && (LostTime(r) || HasNote(r.notes))
  }

  /** As written, a row with a shift, no lost time and a NULL note is reported as an incident the table leaves uncoloured. */
  lemma AsWrittenFlagsRowWithoutNote(r: Row)
    requires r.shift.Some? && r.lost == Some(0.0) && r.notes.None?
    ensures IsAlertAsWritten(r) && !IsAlert(r)
    ensures Highlight(r.lost, r.notes) == Plain
  {
    assert NoteText(r.notes) == "None";
  }

  /** An incident is a row with a shift and either lost time or a note with some non-whitespace character. */
  lemma AlertMeansVisibleNote(r: Row)
    ensures IsAlert(r) <==>
      r.shift.Some? && (LostTime(r) || (r.notes.Some? && exists i :: 0 <= i < |r.notes.value| && !IsSpace(r.notes.value[i])))
  {
  }

  /** Without lost time, a NULL note leaves a row uncoloured. */
  lemma NullNotePlain(minutes: Option<real>)
    requires minutes.None? || minutes.value <= 0.0
    ensures Highlight(minutes, None) == Plain
  {
    assert NoteText(None) == "None";
  }

  /**
   * For a row with a shift and a note that is not literally "None" or
   * "nan", being an incident is being coloured in the detail table.
   */
  lemma AlertIsHighlighted(r: Row)
    requires r.shift.Some?
    requires r.notes.Some? ==> Strip(r.notes.value) != "None" && Strip(r.notes.value) != "nan"
    ensures IsAlert(r) <==> Highlight(r.lost, r.notes) != Plain
  {
    if LostTime(r) {
      assert IsAlert(r);
    } else if r.notes.None? {
      NullNotePlain(r.lost);
    } else {
      var obs := Strip(r.notes.value);
      assert NoteText(r.notes) == obs;
      assert IsAlert(r) <==> obs != "";
      assert Highlight(r.lost, r.notes) != Plain <==> obs != "";
    }
  }

  function AlertMask(): Row -> bool
  {
    (r: Row) => IsAlertAsWritten(r)
  }

  /** `df_alertas` as lines 143-144 compute it: the rows the written predicate selects, in table order. */
  function SelectAlerts(t: seq<Row>): (a: seq<Row>)
    ensures |a| <= |t|
    ensures forall x :: x in a <==> x in t && IsAlertAsWritten(x)
  {
    Keep(t, AlertMask())
  }

  /** Selection keeps table order: selecting from a concatenation concatenates the selections. */
  lemma SelectAlertsAppend(a: seq<Row>, b: seq<Row>)
    ensures SelectAlerts(a + b) == SelectAlerts(a) + SelectAlerts(b)
  {
    KeepAppend(a, b, AlertMask());
  }

  function IntendedMask(): Row -> bool
  {
    (r: Row) => IsAlert(r)
  }

  /** The incident rows under the intended predicate, in table order. */
  function SelectIntendedAlerts(t: seq<Row>): (a: seq<Row>)
    ensures forall x :: x in a <==> x in t && IsAlert(x)
  {
    Keep(t, IntendedMask())
  }

  function IntendedOrNullNote(): Row -> bool
  {
    (r: Row) => IsAlert(r) || (r.shift.Some? && r.notes.None?)
  }

  /** The written selection is the intended one plus every row with a shift and a NULL note. */
  lemma SelectAlertsAsWritten(t: seq<Row>)
    ensures SelectAlerts(t) == Keep(t, IntendedOrNullNote())
  {
    KeepAgree(t, AlertMask(), IntendedOrNullNote());
  }

  function NotSilentNull(): Row -> bool
  {
    (r: Row) => !(r.notes.None? && !LostTime(r))
  }

  /** The intended selection is the written one without its rows that have a NULL note and no lost time. */
  lemma IntendedDropsSilentNulls(t: seq<Row>)
    ensures SelectIntendedAlerts(t) == Keep(SelectAlerts(t), NotSilentNull())
  {
    KeepKeep(t, AlertMask(), NotSilentNull(), IntendedMask());
  }

  datatype Alert = Alert(row: Row, severity: Severity)

  /** The loop over `df_alertas.iterrows()`: one incident per selected row, in order, with its severity. */
  method ClassifyAlerts(t: seq<Row>) returns (alerts: seq<Alert>)
    ensures |alerts| == |SelectAlerts(t)|
    ensures forall i :: 0 <= i < |alerts| ==>
      alerts[i].row == SelectAlerts(t)[i] && alerts[i].severity == SeverityOf(alerts[i].row.lost)
    ensures forall a :: a in alerts ==> a.row in t && a.row.shift.Some? && IsAlertAsWritten(a.row)
  {
    var selected := SelectAlerts(t);
    alerts := [];
    var i := 0;
    while i < |selected|
      invariant 0 <= i <= |selected|
      invariant |alerts| == i
      invariant forall k :: 0 <= k < i ==> alerts[k] == Alert(selected[k], SeverityOf(selected[k].lost))
    {
      var minutes := selected[i].lost;
      var level: Severity;
      if minutes.None? || minutes.value == 0.0 {
        level := Observacion;
      } else if minutes.value <= 15.0 {
        level := Leve;
      } else if minutes.value <= 45.0 {
        level := Moderado;
      } else {
        level := Critico;
      }
      alerts := alerts + [Alert(selected[i], level)];
      i := i + 1;
    }
    forall a | a in alerts ensures a.row in t && IsAlertAsWritten(a.row) {
      var k :| 0 <= k < |alerts| && alerts[k] == a;
      assert selected[k] in selected;
    }
  }

  function HasShift(): Row -> bool
  {
    (r: Row) => r.shift.Some?
  }

  /** `dropna(subset=['Turno'])`: the rows with a shift, in order; the detail table and the CSV export show these. */
  function WithShift(t: seq<Row>): (r: seq<Row>)
    ensures |r| <= |t|
    ensures forall x :: x in r <==> x in t && x.shift.Some?
  {
    Keep(t, HasShift())
  }

  /** A table whose every row has a shift is shown and exported whole. */
  lemma WithShiftAllShifted(t: seq<Row>)
    requires forall x :: x in t ==> x.shift.Some?
    ensures WithShift(t) == t
  {
    KeepAll(t, HasShift());
  }

  /** Dropping rows without a shift keeps order and repeats: it distributes over concatenation. */
  lemma WithShiftAppend(a: seq<Row>, b: seq<Row>)
    ensures WithShift(a + b) == WithShift(a) + WithShift(b)
  {
    KeepAppend(a, b, HasShift());
  }

  /** A single row is kept exactly when it has a shift. */
  lemma WithShiftOne(x: Row)
    ensures WithShift([x]) == if x.shift.Some? then [x] else []
  {
    assert [x][1..] == [];
  }

  /** The detail table's colour per shown row. */
  function Highlights(t: seq<Row>): (tiers: seq<Tier>)
    ensures |tiers| == |WithShift(t)|
    ensures forall i :: 0 <= i < |tiers| ==>
      var r := WithShift(t)[i];
      && (LostTime(r) ==> tiers[i] == TierOf(SeverityOf(r.lost)))
      && (!LostTime(r) ==> tiers[i] in {LightBlue, Plain})
      && (!LostTime(r) ==>
           (tiers[i] == LightBlue <==> NoteText(r.notes) != "" && NoteText(r.notes) != "None" && NoteText(r.notes) != "nan"))
  {
    var shown := WithShift(t);
    var tiers := seq(|shown|, i requires 0 <= i < |shown| => Highlight(shown[i].lost, shown[i].notes));
    tiers
  }
}
