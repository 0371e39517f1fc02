/**
 * The export behaviour shared by the registration models (ExportMixin in
 * registrations/models.py): one header row of export keys, then one row of cells per
 * stored record, written either to a CSV table or to a spreadsheet worksheet.
 * A table is a sequence of rows of cell strings; CSV quoting is not part of it.
 */
module Export {
  import opened Text
  import opened Records
  import opened Query

  type Row = seq<string>
  type Table = seq<Row>

  /** One exported cell: a falsy value becomes '', any other value is printed and its lines re-joined with '\n'. */
  function Cell(v: Value): string {
    if !Truthy(v) then "" else Normalise(ToStr(v))
  }

  /**
   * A cell never holds a line boundary other than '\n' (in particular no '\r'), a falsy value
   * exports as '', and a one-line non-empty value is exported exactly as printed.
   */
  lemma CellShape(v: Value)
    ensures !Truthy(v) ==> Cell(v) == ""
    ensures OnlyNewlineBreaks(Cell(v))
    ensures forall i :: 0 <= i < |Cell(v)| ==> Cell(v)[i] != '\r'
    ensures Truthy(v) && NoLineBreak(ToStr(v)) && ToStr(v) != "" ==> Cell(v) == ToStr(v)
  {
    if Truthy(v) {
      NormaliseBreaks(ToStr(v));
      if NoLineBreak(ToStr(v)) && ToStr(v) != "" {
        SingleLine(ToStr(v));
      }
    }
  }

  lemma SingleLine(s: string)
    requires NoLineBreak(s) && s != ""
    ensures Normalise(s) == s
  {
    SplitLinesFromSkip(s, "", []);
    assert s + "" == s;
    assert [] + s == s;
  }

  /** `instance.export_values()` as a value: one cell per export field, in order. */
  function RowOf(r: Record): Row {
    Cells(Attributes(r))
  }

  /** The cells of a list of attribute values, position by position. */
  function Cells(vs: seq<Value>): Row {
    seq(|vs|, i requires 0 <= i < |vs| => Cell(vs[i]))
  }

  /** `instance.export_values()`: the cells of the record's attribute values. */
  method ExportValues(r: Record) returns (values: Row)
    ensures values == RowOf(r)
  {
    values := ExportCells(Attributes(r));
  }

  /**
   * A record's row has exactly one cell per export key of its class, and the cell in column j
   * is the exported form of the attribute that key j names.
   */
  lemma RowCells(r: Record)
    ensures |RowOf(r)| == |ExportKeys(ModelOf(r))|
    ensures forall j :: 0 <= j < |RowOf(r)| ==> RowOf(r)[j] == Cell(Attributes(r)[j])
  {
    AttributesMatchFields(r);
  }

  /** The loop of `export_values`: appends the cell of each attribute value in turn. */
  method ExportCells(vs: seq<Value>) returns (values: Row)
    ensures values == Cells(vs)
  {
    values := [];
    var i := 0;
    while i < |vs|
      invariant 0 <= i <= |vs|
      invariant values == Cells(vs[..i])
    {
      assert Cells(vs[..i + 1]) == Cells(vs[..i]) + [Cell(vs[i])];
      values := values + [Cell(vs[i])];
      i := i + 1;
    }
    assert vs[..i] == vs;
  }

  predicate AllOf(m: Model, records: seq<Record>) {
    forall i :: 0 <= i < |records| ==> ModelOf(records[i]) == m
  }

  /** One row per stored record, in store order. */
  function Rows(records: seq<Record>): seq<Row> {
    seq(|records|, i requires 0 <= i < |records| => RowOf(records[i]))
  }

  /** The table a class exports: its keys, then one row per stored record in store order. */
  function ExportTable(m: Model, records: seq<Record>): Table
    requires AllOf(m, records)
  {
    [ExportKeys(m)] + Rows(records)
  }

  /**
   * The exported table is the header of export keys followed by exactly one row per stored
   * record, in store order, and row i + 1 holds record i's cells column by column.
   */
  lemma ExportTableShape(m: Model, records: seq<Record>)
    requires AllOf(m, records)
    ensures |ExportTable(m, records)| == |records| + 1
    ensures ExportTable(m, records)[0] == ExportKeys(m)
    ensures forall i :: 0 <= i < |records| ==> ExportTable(m, records)[i + 1] == RowOf(records[i])
  {
    var t, rows := ExportTable(m, records), Rows(records);
    assert t == [ExportKeys(m)] + rows;
    assert |rows| == |records|;
    forall i | 0 <= i < |records|
      ensures t[i + 1] == RowOf(records[i])
    {
      assert t[i + 1] == rows[i];
    }
  }

  /** Every row of an exported table has one cell per header key. */
  lemma ExportTableRectangular(m: Model, records: seq<Record>)
    requires AllOf(m, records)
    ensures forall i :: 0 <= i < |ExportTable(m, records)| ==> |ExportTable(m, records)[i]| == |ExportKeys(m)|
  {
    forall i | 0 <= i < |records|
      ensures |RowOf(records[i])| == |ExportKeys(m)|
    {
      RowCells(records[i]);
    }
  }

  lemma RowsSnoc(records: seq<Record>, r: Record)
    ensures Rows(records + [r]) == Rows(records) + [RowOf(r)]
  {
    var rs := records + [r];
    assert forall k :: 0 <= k < |records| ==> rs[k] == records[k];
  }

  /** The loop of `export_to_csv`: `instance.export_values()` for every stored record. */
  method ExportRows(records: seq<Record>) returns (rows: seq<Row>)
    ensures rows == Rows(records)
  {
    rows := [];
    var i := 0;
    while i < |records|
      invariant 0 <= i <= |records|
      invariant rows == Rows(records[..i])
    {
      var values := ExportValues(records[i]);
      RowsSnoc(records[..i], records[i]);
      assert records[..i + 1] == records[..i] + [records[i]];
      rows := rows + [values];
      i := i + 1;
    }
    assert records[..i] == records;
  }

  /** `cls.export_to_csv()` over the records `cls.objects.all()` returns, without the CSV quoting. */
  method ExportToCsv(m: Model, records: seq<Record>) returns (table: Table)
    requires AllOf(m, records)
    ensures table == ExportTable(m, records)
  {
    var rows := ExportRows(records);
    table := [ExportKeys(m)] + rows;
  }

  /** The choice-table export: an ['id', 'value'] header, then one [key, value] row per choice. */
  function ChoicesTable(choices: Choices): (t: Table)
    ensures |t| == |choices| + 1
    ensures t[0] == ["id", "value"]
    ensures forall i :: 0 <= i < |choices| ==> t[i + 1] == [choices[i].0, choices[i].1]
  {
    [["id", "value"]] + seq(|choices|, i requires 0 <= i < |choices| => [choices[i].0, choices[i].1])
  }

  /** `cls.export_choices_to_csv(choices)`. */
  method ExportChoicesToCsv(choices: Choices) returns (table: Table)
    ensures table == ChoicesTable(choices)
  {
    table := [["id", "value"]];
    var i := 0;
    while i < |choices|
      invariant 0 <= i <= |choices|
      invariant |table| == i + 1 && table[0] == ["id", "value"]
      invariant forall k :: 0 <= k < i ==> table[k + 1] == [choices[k].0, choices[k].1]
    {
      var (key, value) := choices[i];
      table := table + [[key, value]];
      i := i + 1;
    }
    assert forall k :: 0 <= k < |table| ==> table[k] == ChoicesTable(choices)[k];
  }

  // ---------------------------------------------------------------------------
  // Participant.export_to_csv / export_to_xlsx: one joined row per participant
  // ---------------------------------------------------------------------------

  /** Participant keys, then appointments keys, then travel keys. */
  function ParticipantHeader(): Row {
    ExportKeys(ParticipantModel) + ExportKeys(AppointmentsModel) + ExportKeys(TravelModel)
  }

  /** `participant.appointments.first()` when there is one, else `Appointments()`. */
  function JoinedAppointments(p: Participant, appointments: seq<Appointments>): Appointments {
    var first := First(appointments, (a: Appointments) => a.participant == p.id);
    if first.Some? then first.value else BlankAppointments()
  }

  /** `participant.travel_details.first()` when there is one, else `TravelDetails()`. */
  function JoinedTravel(p: Participant, travels: seq<TravelDetails>): TravelDetails {
    var first := First(travels, (t: TravelDetails) => t.participant == p.id);
    if first.Some? then first.value else BlankTravelDetails()
  }

  /** The participant's cells, then those of its first appointments, then its first travel details. */
  function ParticipantRow(p: Participant, appointments: seq<Appointments>, travels: seq<TravelDetails>): Row {
    JoinedRow(p, JoinedAppointments(p, appointments), JoinedTravel(p, travels))
  }

  /** `participant.export_values() + appointments.export_values() + travel_details.export_values()`. */
  function JoinedRow(p: Participant, a: Appointments, t: TravelDetails): Row {
    Cells(ParticipantValues(p)) + Cells(AppointmentsValues(a)) + Cells(TravelValues(t))
  }

  /** One joined row per participant, in store order. */
  function ParticipantRows(participants: seq<Participant>, appointments: seq<Appointments>,
                           travels: seq<TravelDetails>): seq<Row> {
    seq(|participants|, i requires 0 <= i < |participants| => ParticipantRow(participants[i], appointments, travels))
  }

  lemma ParticipantRowsSnoc(participants: seq<Participant>, p: Participant, appointments: seq<Appointments>,
                            travels: seq<TravelDetails>)
    ensures ParticipantRows(participants + [p], appointments, travels)
         == ParticipantRows(participants, appointments, travels) + [ParticipantRow(p, appointments, travels)]
  {
    var ps := participants + [p];
    assert forall k :: 0 <= k < |participants| ==> ps[k] == participants[k];
  }

  function ParticipantTable(participants: seq<Participant>, appointments: seq<Appointments>,
                            travels: seq<TravelDetails>): Table {
    [ParticipantHeader()] + ParticipantRows(participants, appointments, travels)
  }

  /** The loop of `Participant.export_to_csv`: the three records' values, concatenated, per participant. */
  method ExportParticipantRows(participants: seq<Participant>, appointments: seq<Appointments>,
                               travels: seq<TravelDetails>) returns (rows: seq<Row>)
    ensures rows == ParticipantRows(participants, appointments, travels)
  {
    rows := [];
    var i := 0;
    while i < |participants|
      invariant 0 <= i <= |participants|
      invariant rows == ParticipantRows(participants[..i], appointments, travels)
    {
      var values := ExportJoinedValues(participants[i], appointments, travels);
      ParticipantRowsSnoc(participants[..i], participants[i], appointments, travels);
      assert participants[..i + 1] == participants[..i] + [participants[i]];
      rows := rows + [values];
      i := i + 1;
    }
    assert participants[..i] == participants;
  }

  /** The values of one participant, of its first appointments (or a blank one) and of its first travel details (or blank ones). */
  method ExportJoinedValues(p: Participant, appointments: seq<Appointments>, travels: seq<TravelDetails>)
    returns (values: Row)
    ensures values == ParticipantRow(p, appointments, travels)
  {
    var joinedAppointments := JoinedAppointments(p, appointments);
    var joinedTravel := JoinedTravel(p, travels);
    var a := ExportValues(ParticipantRecord(p));
    var b := ExportValues(AppointmentsRecord(joinedAppointments));
    var c := ExportValues(TravelRecord(joinedTravel));
    assert a == Cells(ParticipantValues(p));
    assert b == Cells(AppointmentsValues(joinedAppointments));
    assert c == Cells(TravelValues(joinedTravel));
    values := a + b + c;
  }

  /** `Participant.export_to_csv()`. */
  method ParticipantExportToCsv(participants: seq<Participant>, appointments: seq<Appointments>,
                                travels: seq<TravelDetails>) returns (table: Table)
    ensures table == ParticipantTable(participants, appointments, travels)
  {
    var rows := ExportParticipantRows(participants, appointments, travels);
    table := [ParticipantHeader()] + rows;
  }

  /** The blank records the join falls back on export as all-empty cells. */
  lemma BlankRowsEmpty()
    ensures forall i :: 0 <= i < |Cells(AppointmentsValues(BlankAppointments()))| ==>
              Cells(AppointmentsValues(BlankAppointments()))[i] == ""
    ensures forall i :: 0 <= i < |Cells(TravelValues(BlankTravelDetails()))| ==>
              Cells(TravelValues(BlankTravelDetails()))[i] == ""
  {
    var a := AppointmentsValues(BlankAppointments());
    assert forall i :: 0 <= i < |a| ==> !Truthy(a[i]);
    var t := TravelValues(BlankTravelDetails());
    assert forall i :: 0 <= i < |t| ==> !Truthy(t[i]);
  }

  /** The joined appointments are the participant's first appointments in store order, or the blank record when there are none. */
  lemma JoinedAppointmentsIsFirst(p: Participant, appointments: seq<Appointments>)
    ensures (forall k :: 0 <= k < |appointments| ==> appointments[k].participant != p.id) ==>
              JoinedAppointments(p, appointments) == BlankAppointments()
    ensures forall k :: 0 <= k < |appointments| && appointments[k].participant == p.id &&
                        (forall j :: 0 <= j < k ==> appointments[j].participant != p.id) ==>
              JoinedAppointments(p, appointments) == appointments[k]
  {
    var first := First(appointments, (a: Appointments) => a.participant == p.id);
    if first.Some? {
      var k0 :| 0 <= k0 < |appointments| && appointments[k0] == first.value && appointments[k0].participant == p.id &&
                forall j :: 0 <= j < k0 ==> appointments[j].participant != p.id;
      forall k | 0 <= k < |appointments| && appointments[k].participant == p.id &&
                 (forall j :: 0 <= j < k ==> appointments[j].participant != p.id)
        ensures JoinedAppointments(p, appointments) == appointments[k]
      {
      }
    }
  }

  /** The joined travel details are the participant's first ones in store order, or the blank record when there are none. */
  lemma JoinedTravelIsFirst(p: Participant, travels: seq<TravelDetails>)
    ensures (forall k :: 0 <= k < |travels| ==> travels[k].participant != p.id) ==>
              JoinedTravel(p, travels) == BlankTravelDetails()
    ensures forall k :: 0 <= k < |travels| && travels[k].participant == p.id &&
                        (forall j :: 0 <= j < k ==> travels[j].participant != p.id) ==>
              JoinedTravel(p, travels) == travels[k]
  {
    var first := First(travels, (t: TravelDetails) => t.participant == p.id);
    if first.Some? {
      var k0 :| 0 <= k0 < |travels| && travels[k0] == first.value && travels[k0].participant == p.id &&
                forall j :: 0 <= j < k0 ==> travels[j].participant != p.id;
      forall k | 0 <= k < |travels| && travels[k].participant == p.id &&
                 (forall j :: 0 <= j < k ==> travels[j].participant != p.id)
        ensures JoinedTravel(p, travels) == travels[k]
      {
      }
    }
  }

  /**
   * A joined row is as wide as the header: the participant's 11 cells, then the 8 cells of
   * the appointments record, then the 11 cells of the travel record.
   */
  lemma JoinedRowLayout(p: Participant, a: Appointments, t: TravelDetails)
    ensures |JoinedRow(p, a, t)| == |ParticipantHeader()| == 30
    ensures JoinedRow(p, a, t)[..11] == RowOf(ParticipantRecord(p))
    ensures JoinedRow(p, a, t)[11..19] == RowOf(AppointmentsRecord(a))
    ensures JoinedRow(p, a, t)[19..] == RowOf(TravelRecord(t))
  {
    var row := JoinedRow(p, a, t);
    var x, y, z := Cells(ParticipantValues(p)), Cells(AppointmentsValues(a)), Cells(TravelValues(t));
    assert row == x + y + z;
    assert |x| == 11 && |y| == 8 && |z| == 11;
    assert row[..11] == x;
    assert row[11..19] == y;
    assert row[19..] == z;
  }

  /** A participant without appointments (travel details) gets empty cells in exactly the appointments (travel) columns. */
  lemma ParticipantRowBlanks(p: Participant, appointments: seq<Appointments>, travels: seq<TravelDetails>)
    ensures (forall k :: 0 <= k < |appointments| ==> appointments[k].participant != p.id) ==>
              forall i :: 11 <= i < 19 ==> ParticipantRow(p, appointments, travels)[i] == ""
    ensures (forall k :: 0 <= k < |travels| ==> travels[k].participant != p.id) ==>
              forall i :: 19 <= i < 30 ==> ParticipantRow(p, appointments, travels)[i] == ""
  {
    var a, t := JoinedAppointments(p, appointments), JoinedTravel(p, travels);
    JoinedRowLayout(p, a, t);
    var row := JoinedRow(p, a, t);
    assert row == ParticipantRow(p, appointments, travels);
    JoinedAppointmentsIsFirst(p, appointments);
    JoinedTravelIsFirst(p, travels);
    BlankRowsEmpty();
    assert forall i :: 11 <= i < 19 ==> row[i] == row[11..19][i - 11];
    assert forall i :: 19 <= i < 30 ==> row[i] == row[19..][i - 19];
  }

  /** An exhibit with no frames exports '' in its frames column, a participation with 0 points '' in its points column. */
  lemma ZeroExportsEmpty(e: Exhibit, x: ExhibitParticipation)
    ensures ExportKeys(ExhibitModel)[6] == "frames"
    ensures e.frames == 0 ==> RowOf(ExhibitRecord(e))[6] == ""
    ensures ExportKeys(ParticipationModel)[4] == "points"
    ensures x.points == 0 ==> RowOf(ParticipationRecord(x))[4] == ""
  {
  }

  // ---------------------------------------------------------------------------
  // Spreadsheet export
  // ---------------------------------------------------------------------------

  /** One worksheet of an xlsx workbook: the rows written so far, by row number. */
  class Worksheet {
    const name: string
    var rows: map<nat, Row>

    constructor (name: string)
      ensures this.name == name && rows == map[]
    {
      this.name := name;
      rows := map[];
    }

    /** `worksheet.write_row(row, 0, values)`. */
    method WriteRow(row: nat, values: Row)
      modifies this
      ensures rows == old(rows)[row := values]
    {
      rows := rows[row := values];
    }
  }

  class Workbook {
    var sheets: seq<Worksheet>

    constructor ()
      ensures sheets == []
    {
      sheets := [];
    }

    /** `workbook.add_worksheet(name)`: a new, empty sheet at the end of the workbook. */
    method AddWorksheet(name: string) returns (ws: Worksheet)
      modifies this
      ensures fresh(ws) && ws.name == name && ws.rows == map[]
      ensures sheets == old(sheets) + [ws]
    {
      ws := new Worksheet(name);
      sheets := sheets + [ws];
    }
  }

  /** A table laid out on a worksheet: table row i at row number i. */
  function Grid(t: Table): (g: map<nat, Row>)
    ensures forall i: nat :: i in g <==> i < |t|
    ensures forall i :: 0 <= i < |t| ==> g[i] == t[i]
  {
    map i: nat | i < |t| :: t[i]
  }

  /** Writing row n of a table below its first n rows lays out its first n + 1 rows. */
  lemma GridSnoc(t: Table, n: nat)
    requires n < |t|
    ensures Grid(t[..n + 1]) == Grid(t[..n])[n := t[n]]
  {
    var g, h := Grid(t[..n + 1]), Grid(t[..n])[n := t[n]];
    assert forall i: nat :: i in g <==> i in h;
    assert forall i: nat :: i in g ==> g[i] == h[i];
  }

  /** The loop of `export_to_xlsx`: record i's values written at row number i + 1, below the header at row 0. */
  method WriteRecordRows(ws: Worksheet, records: seq<Record>)
    requires forall k: nat :: k in ws.rows <==> k == 0
    modifies ws
    ensures ws.rows == Grid([old(ws.rows)[0]] + Rows(records))
  {
    ghost var table := [old(ws.rows)[0]] + Rows(records);
    assert ws.rows == Grid(table[..1]);
    var row := 0;
    while row < |records|
      invariant 0 <= row <= |records|
      invariant ws.rows == Grid(table[..row + 1])
    {
      var values := ExportValues(records[row]);
      assert values == table[row + 1];
      GridSnoc(table, row + 1);
      row := row + 1;
      ws.WriteRow(row, values);
    }
    assert table[..row + 1] == table;
  }

  /** `cls.export_to_xlsx(workbook, name)`: the same table as the CSV export, row by row. */
  method ExportToXlsx(workbook: Workbook, name: string, m: Model, records: seq<Record>) returns (ws: Worksheet)
    requires AllOf(m, records)
    modifies workbook
    ensures fresh(ws) && ws.name == name && workbook.sheets == old(workbook.sheets) + [ws]
    ensures ws.rows == Grid(ExportTable(m, records))
  {
    ws := workbook.AddWorksheet(name);
    ws.WriteRow(0, ExportKeys(m));
    WriteRecordRows(ws, records);
  }

  /** `cls.export_choices_to_xlsx(workbook, name, choices)`. */
  method ExportChoicesToXlsx(workbook: Workbook, name: string, choices: Choices) returns (ws: Worksheet)
    modifies workbook
    ensures fresh(ws) && ws.name == name && workbook.sheets == old(workbook.sheets) + [ws]
    ensures ws.rows == Grid(ChoicesTable(choices))
  {
    ghost var table := ChoicesTable(choices);
    var row := 0;
    ws := workbook.AddWorksheet(name);
    ws.WriteRow(row, ["id", "value"]);
    assert ws.rows == Grid(table[..1]);
    while row < |choices|
      invariant 0 <= row <= |choices|
      invariant workbook.sheets == old(workbook.sheets) + [ws] && ws.name == name
      invariant ws.rows == Grid(table[..row + 1])
    {
      var (key, value) := choices[row];
      GridSnoc(table, row + 1);
      row := row + 1;
      ws.WriteRow(row, [key, value]);
    }
    assert table[..row + 1] == table;
  }

  /** The loop of `Participant.export_to_xlsx`: participant i's joined values at row number i + 1. */
  method WriteParticipantRows(ws: Worksheet, participants: seq<Participant>,
                              appointments: seq<Appointments>, travels: seq<TravelDetails>)
    requires forall k: nat :: k in ws.rows <==> k == 0
    modifies ws
    ensures ws.rows == Grid([old(ws.rows)[0]] + ParticipantRows(participants, appointments, travels))
  {
    ghost var table := [old(ws.rows)[0]] + ParticipantRows(participants, appointments, travels);
    assert ws.rows == Grid(table[..1]);
    var row := 0;
    while row < |participants|
      invariant 0 <= row <= |participants|
      invariant ws.rows == Grid(table[..row + 1])
    {
      var values := ExportJoinedValues(participants[row], appointments, travels);
      assert values == table[row + 1];
      GridSnoc(table, row + 1);
      row := row + 1;
      ws.WriteRow(row, values);
    }
    assert table[..row + 1] == table;
  }

  /** `Participant.export_to_xlsx(workbook, name)`. */
  method ParticipantExportToXlsx(workbook: Workbook, name: string, participants: seq<Participant>,
                                 appointments: seq<Appointments>, travels: seq<TravelDetails>)
    returns (ws: Worksheet)
    modifies workbook
    ensures fresh(ws) && ws.name == name && workbook.sheets == old(workbook.sheets) + [ws]
    ensures ws.rows == Grid(ParticipantTable(participants, appointments, travels))
  {
    ws := workbook.AddWorksheet(name);
    ws.WriteRow(0, ParticipantHeader());
    WriteParticipantRows(ws, participants, appointments, travels);
  }
}
