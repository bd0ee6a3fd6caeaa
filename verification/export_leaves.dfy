/** The export command (src/commands/exportLeaves.js): CSV escaping, the column layout and
    the joined file content. The JSON branch is represented by the requests it would
    serialise. */
module ExportLeaves {
  import opened Wrappers
  import opened Text
  import opened LeaveStore
  import opened Permissions
  import opened Lifecycle

  const Quote := "\""
  const DoubledQuote := "\"\""

  predicate NeedsQuotes(s: string) {
    '"' in s || ',' in s || '\n' in s
  }

  /** escapeCsvValue: a missing value is empty; a value holding a quote, comma or newline is
      quoted with its quotes doubled; any other value is kept. */
  function EscapeCsv(value: Option<string>): (r: string)
    ensures value.None? ==> r == ""
    ensures value.Some? && !NeedsQuotes(value.value) ==> r == value.value
    ensures value.Some? && NeedsQuotes(value.value) ==>
      |r| >= 2 && r[0] == '"' && r[|r| - 1] == '"'
  {
    match value
    case None => ""
    case Some(s) => if NeedsQuotes(s) then Quote + ReplaceAll(s, Quote, DoubledQuote) + Quote else s
  }

  /** Reading a cell back: strip the outer quotes and halve the doubled quotes. */
  function UnescapeCsv(cell: string): string {
    if |cell| >= 2 && cell[0] == '"' && cell[|cell| - 1] == '"'
    then ReplaceAll(cell[1..|cell| - 1], DoubledQuote, Quote)
    else cell
  }

  /** Halving the doubled quotes undoes doubling them. */
  lemma {:induction false} UndoubleQuotes(v: string)
    ensures ReplaceAll(ReplaceAll(v, Quote, DoubledQuote), DoubledQuote, Quote) == v
    decreases |v|
  {
    if v != [] {
      var d := ReplaceAll(v, Quote, DoubledQuote);
      var rest := ReplaceAll(v[1..], Quote, DoubledQuote);
      UndoubleQuotes(v[1..]);
      if v[0] == '"' {
        assert v[..1] == Quote;
        assert d == DoubledQuote + rest;
        assert d[..2] == DoubledQuote && d[2..] == rest;
      } else {
        assert v[..1] != Quote;
        assert d == [v[0]] + rest;
        assert d[0] == v[0];
        assert |d| < 2 || d[..2] != DoubledQuote;
        assert d[1..] == rest;
      }
    }
  }

  /** Every present value reads back from its cell. */
  lemma EscapeRoundTrip(v: string)
    ensures UnescapeCsv(EscapeCsv(Some(v))) == v
  {
    if NeedsQuotes(v) {
      var cell := EscapeCsv(Some(v));
      assert cell[1..|cell| - 1] == ReplaceAll(v, Quote, DoubledQuote);
      UndoubleQuotes(v);
    }
  }

  const Headers: seq<string> := ["Request ID", "User ID", "Username", "Reason", "Duration",
                                 "Start Date", "End Date", "Status", "Role ID", "Created At",
                                 "Updated At", "Processed By", "Processed At", "Rejection Reason"]

  /** `value || ''`. */
  function OrEmpty(value: Option<string>): (r: string)
    ensures Given(value) ==> r == value.value
    ensures !Given(value) ==> r == ""
  {
    if Given(value) then value.value else ""
  }

  /** One request as a row of cells, in header order: only the reason and the rejection
      reason are escaped; a missing role, processor or processing time is empty. */
  function RowCells(leave: LeaveRow): (cells: seq<string>)
    ensures |cells| == 14
  {
    [leave.requestId, leave.userId, leave.username, EscapeCsv(Some(leave.reason)),
     IntToString(leave.duration), leave.startDate, leave.endDate, leave.status.Token(),
     OrEmpty(leave.roleId), leave.createdAt, leave.updatedAt, OrEmpty(leave.processedBy),
     OrEmpty(leave.processedAt), EscapeCsv(leave.rejectionReason)]
  }

  /** One cell per header. */
  lemma RowFitsHeaders(leave: LeaveRow)
    ensures |RowCells(leave)| == |Headers|
  {
  }

  /** The unescaped cells are the columns themselves, under their headers. */
  lemma RowCellsPlain(leave: LeaveRow)
    ensures var cells := RowCells(leave);
      && cells[0] == leave.requestId && cells[1] == leave.userId && cells[2] == leave.username
      && cells[4] == IntToString(leave.duration)
      && cells[5] == leave.startDate && cells[6] == leave.endDate && cells[7] == leave.status.Token()
      && cells[8] == OrEmpty(leave.roleId)
      && cells[9] == leave.createdAt && cells[10] == leave.updatedAt
      && cells[11] == OrEmpty(leave.processedBy) && cells[12] == OrEmpty(leave.processedAt)
  {
  }

  /** The two escaped cells read back as the reason and the rejection reason. */
  lemma RowCellsReadBack(leave: LeaveRow)
    ensures UnescapeCsv(RowCells(leave)[3]) == leave.reason
    ensures leave.rejectionReason.None? ==> RowCells(leave)[13] == ""
    ensures leave.rejectionReason.Some? ==> UnescapeCsv(RowCells(leave)[13]) == leave.rejectionReason.value
  {
    EscapeRoundTrip(leave.reason);
    if leave.rejectionReason.Some? {
      EscapeRoundTrip(leave.rejectionReason.value);
    }
  }

  function RowLine(leave: LeaveRow): string {
    Join(RowCells(leave), ",")
  }

  function HeaderLine(): string {
    Join(Headers, ",")
  }

  function Lines(leaves: seq<LeaveRow>): seq<string> {
    [HeaderLine()] + seq(|leaves|, i requires 0 <= i < |leaves| => RowLine(leaves[i]))
  }

  /** The file: the header line, then one line per request in the order given. */
  function CsvContent(leaves: seq<LeaveRow>): string {
    Join(Lines(leaves), "\n")
  }

  /** When no row holds a line break, splitting the file on line breaks gives back the
      header line and the rows, in order. */
  lemma CsvLines(leaves: seq<LeaveRow>)
    requires forall i :: 0 <= i < |leaves| ==> '\n' !in RowLine(leaves[i])
    ensures var lines := Split(CsvContent(leaves), '\n');
      && |lines| == |leaves| + 1 && lines[0] == HeaderLine()
      && forall i :: 0 <= i < |leaves| ==> lines[i + 1] == RowLine(leaves[i])
  {
    var rows := seq(|leaves|, i requires 0 <= i < |leaves| => RowLine(leaves[i]));
    assert Lines(leaves) == [HeaderLine()] + rows;
    HeaderLineIsOneLine();
    SplitLines(HeaderLine(), rows);
  }

  lemma HeaderLineIsOneLine()
    ensures '\n' !in HeaderLine()
  {
    JoinAvoids(Headers, ",", '\n');
  }

  /** Lines free of line breaks, joined with line breaks, split back into the same lines. */
  lemma SplitLines(header: string, rows: seq<string>)
    requires '\n' !in header && forall i :: 0 <= i < |rows| ==> '\n' !in rows[i]
    ensures Split(Join([header] + rows, "\n"), '\n') == [header] + rows
  {
    var lines := [header] + rows;
    assert forall k :: 0 <= k < |lines| ==> '\n' !in lines[k] by {
      forall k | 0 <= k < |lines| ensures '\n' !in lines[k] {
        if k > 0 {
          assert lines[k] == rows[k - 1];
        }
      }
    }
    SplitJoin(lines, '\n');
  }

  /** The export's content: CSV text, or the requests the JSON branch serialises. */
  datatype Export = Csv(content: string) | Json(leaves: seq<LeaveRow>)

  /** execute: the permission check comes before any read; then every request (or those
      created in the period when both dates are given), newest first, in the chosen format. */
  function ExportRequests(store: Database, actor: Member, config: Config, format: Option<string>,
                          startDate: Option<string>, endDate: Option<string>): (r: Result<Export, Refusal>)
    reads store
    ensures !CanManageLeaves(actor, config) <==> r == Err(NoPermission)
    ensures r.Ok? && format == Some("csv") ==> r.value == Csv(CsvContent(store.GetAllLeaves(startDate, endDate)))
    ensures r.Ok? && format != Some("csv") ==> r.value == Json(store.GetAllLeaves(startDate, endDate))
    ensures r.Ok? ==> multiset(store.GetAllLeaves(startDate, endDate))
                      == multiset(InPeriod(store.leaves, startDate, endDate))
  {
    if !CanManageLeaves(actor, config) then Err(NoPermission)
    else
      var leaves := store.GetAllLeaves(startDate, endDate);
      if format == Some("csv") then Ok(Csv(CsvContent(leaves))) else Ok(Json(leaves))
  }
}
