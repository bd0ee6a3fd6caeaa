/** The search command (src/commands/searchRequest.js): the optional inputs become search
    options, and the results are listed as one page. */
module SearchRequest {
  import opened Wrappers
  import opened Text
  import opened LeaveStore
  import opened Permissions
  import opened Lifecycle
  import opened Embeds
  import opened Sorting

  const SearchLimit := 10

  /** The command's optional inputs; `memberId` is the id of the chosen member. */
  datatype SearchInputs = SearchInputs(requestId: Option<string>, memberId: Option<string>,
                                       status: Option<string>, startDate: Option<string>,
                                       endDate: Option<string>)

  function KeepGiven(input: Option<string>): (r: Option<string>)
    ensures Given(r) <==> Given(input)
    ensures r.Some? ==> r == input
  {
    if Given(input) then input else None
  }

  /** The options object: a limit of 10 and each key set only from a non-empty input; both
      date inputs bound the start date. */
  function BuildSearchOptions(inputs: SearchInputs): (o: SearchOptions)
    ensures o.limit == Some(SearchLimit) && o.offset.None?
    ensures o.requestId == KeepGiven(inputs.requestId) && o.userId == KeepGiven(inputs.memberId)
    ensures o.status == KeepGiven(inputs.status)
    ensures o.startDateFrom == KeepGiven(inputs.startDate) && o.startDateTo == KeepGiven(inputs.endDate)
  {
    SearchOptions(KeepGiven(inputs.requestId), KeepGiven(inputs.memberId), KeepGiven(inputs.status),
                  KeepGiven(inputs.startDate), KeepGiven(inputs.endDate), Some(SearchLimit), None)
  }

  /** A request matches the built options exactly when it satisfies every given input; a
      missing or empty input adds no constraint, and both dates are compared with the
      request's start date. */
  lemma OptionsMeaning(inputs: SearchInputs, row: LeaveRow)
    ensures MatchesOptions(row, BuildSearchOptions(inputs))
      <==> && (Given(inputs.requestId) ==> row.requestId == inputs.requestId.value)
           && (Given(inputs.memberId) ==> row.userId == inputs.memberId.value)
           && (Given(inputs.status) ==> row.status.Token() == inputs.status.value)
           && (Given(inputs.startDate) ==> LexLe(inputs.startDate.value, row.startDate))
           && (Given(inputs.endDate) ==> LexLe(row.startDate, inputs.endDate.value))
  {
  }

  /** execute: the permission check comes before any read; then at most ten matching
      requests, newest first, are listed as page 1 of 1. */
  method Execute(store: Database, actor: Member, config: Config, inputs: SearchInputs)
    returns (r: Result<Embed, Refusal>)
    ensures !CanManageLeaves(actor, config) <==> r == Err(NoPermission)
    ensures r.Ok? ==>
      var found := Search(store.leaves, BuildSearchOptions(inputs));
      && |r.value.fields| == |found| <= SearchLimit
      && (forall i :: 0 <= i < |found| ==>
            && r.value.fields[i] == SearchResultField(found[i])
            && found[i] in store.leaves
            && MatchesOptions(found[i], BuildSearchOptions(inputs)))
      && (found != [] ==> r.value.footer == Some(PageFooter(1, 1)))
      && SortedBy(found, NewerOrSame)
      && var n := |Where(store.leaves, Matches(BuildSearchOptions(inputs)))|;
         && |found| == (if n < SearchLimit then n else SearchLimit)
         && (n <= SearchLimit ==> multiset(found) == multiset(Where(store.leaves, Matches(BuildSearchOptions(inputs)))))
  {
    if !CanManageLeaves(actor, config) {
      return Err(NoPermission);
    }
    var options := BuildSearchOptions(inputs);
    var leaves := store.SearchLeaves(options);
    SearchNewestFirst(store.leaves, options);
    SearchLimited(store.leaves, options);
    if |Where(store.leaves, Matches(options))| <= SearchLimit {
      SearchWithinLimit(store.leaves, options);
    }
    var embed := SearchResultEmbed(leaves, 1, 1);
    r := Ok(embed);
  }
}
