/** The choices made by src/utils/embeds.js when it builds Discord messages: the custom ids
    and disabled flags of the buttons, and which fields an embed carries. Text that the bot
    translates with `t(key)` is represented by its key (the lookup itself is modelled in
    module Lang); colours, thumbnails and timestamps are not represented. */
module Embeds {
  import opened Wrappers
  import opened Text
  import opened LeaveStore

  datatype Button = Button(customId: string, disabled: bool)

  datatype Field = Field(name: string, value: string)

  datatype Embed = Embed(title: string, description: Option<string>, fields: seq<Field>,
                         footer: Option<string>)

  // ---------------------------------------------------------------------------
  // Buttons
  // ---------------------------------------------------------------------------

  const ApprovePrefix := "approve_"
  const RejectPrefix := "reject_"
  const AddNotePrefix := "addnote_"

  /** createAdminButtons: approve, reject and add-note, each naming the request in its id. */
  function AdminButtons(requestId: string): (r: seq<Button>)
    ensures |r| == 3
    ensures r[0].customId == ApprovePrefix + requestId
    ensures r[1].customId == RejectPrefix + requestId
    ensures r[2].customId == AddNotePrefix + requestId
    ensures forall i :: 0 <= i < 3 ==> !r[i].disabled
  {
    [Button(ApprovePrefix + requestId, false), Button(RejectPrefix + requestId, false),
     Button(AddNotePrefix + requestId, false)]
  }

  datatype Direction = Prev | Next {
    function Token(): string {
      match this
      case Prev => "prev"
      case Next => "next"
    }
  }

  /** `${prefix}_prev_${page}` / `${prefix}_next_${page}`. */
  function PaginationId(prefix: string, direction: Direction, page: int): string {
    prefix + "_" + direction.Token() + "_" + IntToString(page)
  }

  /** createPaginationButtons: previous is disabled on the first page, next on the last. */
  function PaginationButtons(page: int, totalPages: int, prefix: string): (r: seq<Button>)
    ensures |r| == 2
    ensures r[0].customId == PaginationId(prefix, Prev, page)
    ensures r[1].customId == PaginationId(prefix, Next, page)
    ensures r[0].disabled <==> page <= 1
    ensures r[1].disabled <==> page >= totalPages
  {
    [Button(PaginationId(prefix, Prev, page), page <= 1),
     Button(PaginationId(prefix, Next, page), page >= totalPages)]
  }

  /** From a page within 1 .. totalPages, an enabled button leads to a page within the same
      range; on a single page both buttons are disabled. */
  lemma EnabledButtonsStayInRange(page: int, totalPages: int, prefix: string)
    requires 1 <= page <= totalPages
    ensures var r := PaginationButtons(page, totalPages, prefix);
      && (!r[0].disabled ==> 1 <= page - 1 <= totalPages)
      && (!r[1].disabled ==> 1 <= page + 1 <= totalPages)
      && (totalPages == 1 ==> r[0].disabled && r[1].disabled)
  {
  }

  /** Splitting a pagination id on '_' gives back prefix, direction and page when the prefix
      has no '_' of its own. */
  lemma PaginationIdSplits(prefix: string, direction: Direction, page: int)
    requires '_' !in prefix
    ensures Split(PaginationId(prefix, direction, page), '_')
         == [prefix, direction.Token(), IntToString(page)]
  {
    var pageText := IntToString(page);
    assert '_' !in pageText by {
      if page < 0 {
        assert pageText == "-" + NatToString(-page);
      }
    }
    var parts := [prefix, direction.Token(), pageText];
    assert Join(parts, "_") == PaginationId(prefix, direction, page) by {
      assert Join(parts[2..], "_") == pageText;
      assert Join(parts[1..], "_") == direction.Token() + "_" + pageText;
    }
    SplitJoin(parts, '_');
  }

  // ---------------------------------------------------------------------------
  // Embeds
  // ---------------------------------------------------------------------------

  function Mention(userId: string): string { "<@" + userId + ">" }

  function RoleMention(roleId: string): string { "<@&" + roleId + ">" }

  const AdminNoteKey := "embeds.rejected.adminNote"

  /** createRejectedEmbed: request id, who rejected it, the reason, and the admin note only
      when one is given (a non-empty text). */
  function RejectedEmbed(leave: LeaveRow, rejectedBy: string, adminNote: Option<string>): (e: Embed)
    ensures |e.fields| == if Given(adminNote) then 4 else 3
    ensures e.fields[0] == Field("embeds.rejected.requestId", leave.requestId)
    ensures e.fields[1] == Field("embeds.rejected.rejectedBy", Mention(rejectedBy))
    ensures e.fields[2] == Field("embeds.rejected.reason", leave.reason)
    ensures Given(adminNote) ==> e.fields[3] == Field(AdminNoteKey, adminNote.value)
  {
    var base := [Field("embeds.rejected.requestId", leave.requestId),
                 Field("embeds.rejected.rejectedBy", Mention(rejectedBy)),
                 Field("embeds.rejected.reason", leave.reason)];
    Embed("embeds.rejected.title", Some("embeds.rejected.description"),
          if Given(adminNote) then base + [Field(AdminNoteKey, adminNote.value)] else base,
          Some("embeds.rejected.footer"))
  }

  /** The admin-note field is present exactly when a note is given. */
  lemma AdminNoteShownIffGiven(leave: LeaveRow, rejectedBy: string, adminNote: Option<string>)
    ensures var e := RejectedEmbed(leave, rejectedBy, adminNote);
      (exists i :: 0 <= i < |e.fields| && e.fields[i].name == AdminNoteKey) <==> Given(adminNote)
  {
    var e := RejectedEmbed(leave, rejectedBy, adminNote);
    if Given(adminNote) {
      assert e.fields[3].name == AdminNoteKey;
    }
  }

  /** Heading of a listed request: its id and its translated status. */
  function LeaveHeading(leave: LeaveRow): string {
    leave.requestId + " - status." + leave.status.Token()
  }

  /** A bold label followed by a value, one line of a field. */
  function Line(key: string, value: string): string { "**" + key + ":** " + value }

  function DurationText(leave: LeaveRow): string {
    IntToString(leave.duration) + " embeds.newRequest.days"
  }

  /** One request in the my-requests list; the creation time is shown relative to now, here
      as the stored text. */
  function MyRequestsField(leave: LeaveRow): Field {
    Field(LeaveHeading(leave),
          Line("embeds.newRequest.reason", leave.reason) + "\n"
          + Line("embeds.newRequest.duration", DurationText(leave)) + "\n"
          + Line("embeds.newRequest.startDate", leave.startDate) + "\n"
          + Line("embeds.newRequest.endDate", leave.endDate) + "\n"
          + Line("Created", leave.createdAt))
  }

  /** One request in the search results: the applicant first, no creation time. */
  function SearchResultField(leave: LeaveRow): Field {
    Field(LeaveHeading(leave),
          Line("embeds.newRequest.applicant", Mention(leave.userId)) + "\n"
          + Line("embeds.newRequest.reason", leave.reason) + "\n"
          + Line("embeds.newRequest.duration", DurationText(leave)) + "\n"
          + Line("embeds.newRequest.startDate", leave.startDate) + "\n"
          + Line("embeds.newRequest.endDate", leave.endDate))
  }

  function PageFooter(page: int, totalPages: int): string {
    "embeds.myRequests.page " + IntToString(page) + "/" + IntToString(totalPages)
  }

  /** createMyRequestsEmbed: a "no requests" description for an empty list; otherwise one
      field per request, in list order, and a page footer. */
  method MyRequestsEmbed(leaves: seq<LeaveRow>, page: int, totalPages: int) returns (e: Embed)
    ensures leaves == [] ==> e.fields == [] && e.description == Some("embeds.myRequests.noRequests")
                             && e.footer.None?
    ensures leaves != [] ==> e.description.None? && e.footer == Some(PageFooter(page, totalPages))
    ensures |e.fields| == |leaves|
    ensures forall i :: 0 <= i < |leaves| ==> e.fields[i] == MyRequestsField(leaves[i])
  {
    if |leaves| == 0 {
      return Embed("embeds.myRequests.title", Some("embeds.myRequests.noRequests"), [], None);
    }
    var fields := AddFields(leaves, MyRequestsField);
    e := Embed("embeds.myRequests.title", None, fields, Some(PageFooter(page, totalPages)));
  }

  /** The `forEach` that adds one field per request, in list order. */
  method AddFields(leaves: seq<LeaveRow>, field: LeaveRow -> Field) returns (fields: seq<Field>)
    ensures |fields| == |leaves|
    ensures forall i :: 0 <= i < |leaves| ==> fields[i] == field(leaves[i])
  {
    fields := [];
    for n := 0 to |leaves|
      invariant |fields| == n
      invariant forall i :: 0 <= i < n ==> fields[i] == field(leaves[i])
    {
      fields := fields + [field(leaves[n])];
    }
  }

  /** createSearchResultEmbed: the same layout as the my-requests list, with search fields. */
  method SearchResultEmbed(leaves: seq<LeaveRow>, page: int, totalPages: int) returns (e: Embed)
    ensures leaves == [] ==> e.fields == [] && e.description == Some("embeds.search.noResults")
                             && e.footer.None?
    ensures leaves != [] ==> e.description.None? && e.footer == Some(PageFooter(page, totalPages))
    ensures |e.fields| == |leaves|
    ensures forall i :: 0 <= i < |leaves| ==> e.fields[i] == SearchResultField(leaves[i])
  {
    if |leaves| == 0 {
      return Embed("embeds.search.title", Some("embeds.search.noResults"), [], None);
    }
    var fields := AddFields(leaves, SearchResultField);
    e := Embed("embeds.search.title", None, fields, Some(PageFooter(page, totalPages)));
  }

  /** Each listed field names its request: the heading starts with the request id. */
  lemma HeadingNamesRequest(leave: LeaveRow)
    ensures StartsWith(MyRequestsField(leave).name, leave.requestId)
    ensures StartsWith(SearchResultField(leave).name, leave.requestId)
  {
    assert LeaveHeading(leave)[..|leave.requestId|] == leave.requestId;
  }

  /** JavaScript's rendering of a number that is a whole number of tenths ("3", "2.5",
      "-0.5"). */
  function TenthsText(x: real): string {
    var k := (x * 10.0).Floor;
    var m: nat := if k < 0 then -k else k;
    var sign := if k < 0 then "-" else "";
    sign + NatToString(m / 10) + (if m % 10 == 0 then "" else "." + [DigitChar(m % 10)])
  }

  /** createStatisticsEmbed: six fields, the four status counts between total and average. */
  function StatisticsEmbed(stats: Statistics): (e: Embed)
    ensures |e.fields| == 6
    ensures e.fields[0].name == "embeds.statistics.totalRequests"
    ensures e.fields[1].name == "embeds.statistics.approved"
    ensures e.fields[2].name == "embeds.statistics.rejected"
    ensures e.fields[3].name == "embeds.statistics.pending"
    ensures e.fields[4].name == "embeds.statistics.cancelled"
    ensures e.fields[5].name == "embeds.statistics.averageDuration"
  {
    Embed("embeds.statistics.title", None,
          [Field("embeds.statistics.totalRequests", NatToString(stats.total)),
           Field("embeds.statistics.approved", NatToString(stats.approved)),
           Field("embeds.statistics.rejected", NatToString(stats.rejected)),
           Field("embeds.statistics.pending", NatToString(stats.pending)),
           Field("embeds.statistics.cancelled", NatToString(stats.cancelled)),
           Field("embeds.statistics.averageDuration",
                 TenthsText(stats.averageDuration) + " embeds.newRequest.days")],
          None)
  }

  /** The five count fields read back, with parseInt, as the counts they show. */
  lemma StatisticsCountsReadBack(stats: Statistics)
    ensures var e := StatisticsEmbed(stats);
      && ParseInt(e.fields[0].value) == Some(stats.total)
      && ParseInt(e.fields[1].value) == Some(stats.approved)
      && ParseInt(e.fields[2].value) == Some(stats.rejected)
      && ParseInt(e.fields[3].value) == Some(stats.pending)
      && ParseInt(e.fields[4].value) == Some(stats.cancelled)
  {
    ParseIntOfIntToString(stats.total);
    ParseIntOfIntToString(stats.approved);
    ParseIntOfIntToString(stats.rejected);
    ParseIntOfIntToString(stats.pending);
    ParseIntOfIntToString(stats.cancelled);
  }

  /** createLogRoleRemovedEmbed: the role field mentions the role, or reads 'N/A' without one;
      `nowSeconds` is the clock reading in whole seconds. */
  function RoleRemovedLog(leave: LeaveRow, roleId: Option<string>, nowSeconds: int): (e: Embed)
    ensures |e.fields| == 4
    ensures e.fields[2].name == "Role"
    ensures e.fields[2].value == "N/A" <==> !Given(roleId)
    ensures Given(roleId) ==> e.fields[2].value == RoleMention(roleId.value)
  {
    var role := if Given(roleId) then RoleMention(roleId.value) else "N/A";
    assert Given(roleId) ==> role[0] == '<';
    Embed("embeds.log.roleRemoved", None,
          [Field("embeds.newRequest.requestId", leave.requestId),
           Field("embeds.newRequest.applicant", Mention(leave.userId)),
           Field("Role", role),
           Field("embeds.log.timestamp", "<t:" + IntToString(nowSeconds) + ":F>")],
          None)
  }
}
