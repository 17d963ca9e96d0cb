/** The filter of the Lead Listings page (app.py:254-268): an optional
    case-insensitive search on name or ID, then Status membership. */
module Listing {
  import opened Selection
  import opened Text
  import opened Leads

  /** The Status selection the sidebar starts with. */
  const DEFAULT_STATUS_SELECTION: seq<string> := ["New", "Contacted", "Qualified"]

  /** The search mask: the query occurs, ignoring case, in the FullName
      (a missing name never matches) or in the decimal text of the LeadID. */
  predicate MatchesQuery(l: Lead, query: string) {
    || (l.fullName.Some? && ContainsIgnoreCase(l.fullName.value, query))
    || ContainsIgnoreCase(DecimalText(l.leadId), query)
  }

  /** `df.copy()`, narrowed by the search only when the query is not empty. */
  function SearchFilter(t: seq<Lead>, query: string): seq<Lead> {
    if query == "" then t else Where(t, l => MatchesQuery(l, query))
  }

  /** `df['Status'].isin(selected)`: a missing Status is never selected. */
  predicate StatusSelected(l: Lead, selected: seq<string>) {
    l.status.Some? && l.status.value in selected
  }

  /** The rows the listing shows and offers for editing. */
  function FilterListing(t: seq<Lead>, query: string, selected: seq<string>): seq<Lead> {
    Where(SearchFilter(t, query), l => StatusSelected(l, selected))
  }

  /** Both filters as one mask. */
  predicate Listed(l: Lead, query: string, selected: seq<string>) {
    (query == "" || MatchesQuery(l, query)) && StatusSelected(l, selected)
  }

  /** The listing is one selection of the table by `Listed`. */
  lemma FilterListingIsWhere(t: seq<Lead>, query: string, selected: seq<string>)
    ensures FilterListing(t, query, selected) == Where(t, l => Listed(l, query, selected))
  {
    var status := (l: Lead) => StatusSelected(l, selected);
    var listed := (l: Lead) => Listed(l, query, selected);
    if query == "" {
      WhereExt(t, status, listed);
    } else {
      var search := (l: Lead) => MatchesQuery(l, query);
      WhereWhere(t, search, status);
      WhereExt(t, And(search, status), listed);
    }
  }

  /** The listing is the order-preserving subsequence of the table made of
      exactly the rows whose Status is selected and which, when the query is
      not empty, contain the query in their FullName or LeadID text;
      `idx[k]` is the table position of listed row `k`. */
  lemma FilterListingSelects(t: seq<Lead>, query: string, selected: seq<string>)
    ensures var r := FilterListing(t, query, selected);
      var idx := Positions(t, l => Listed(l, query, selected));
      && |idx| == |r|
      && (forall k, m :: 0 <= k < m < |idx| ==> idx[k] < idx[m])
      && (forall k :: 0 <= k < |r| ==> 0 <= idx[k] < |t| && r[k] == t[idx[k]])
      && (forall j :: 0 <= j < |t| ==>
            (j in idx <==>
              (&& t[j].status.Some? && t[j].status.value in selected
               && (query != "" ==>
                     || (t[j].fullName.Some? && ContainsIgnoreCase(t[j].fullName.value, query))
                     || ContainsIgnoreCase(DecimalText(t[j].leadId), query)))))
  {
    FilterListingIsWhere(t, query, selected);
    WhereSelects(t, l => Listed(l, query, selected));
  }

  /** The search is insensitive to the casing of the query. */
  lemma SearchIgnoresQueryCase(t: seq<Lead>, query: string)
    ensures SearchFilter(t, query) == SearchFilter(t, LowerStr(query))
  {
    forall l | l in t ensures MatchesQuery(l, query) == MatchesQuery(l, LowerStr(query)) {
      LowerStrIdempotent(query);
    }
    WhereExt(t, l => MatchesQuery(l, query), l => MatchesQuery(l, LowerStr(query)));
  }

  /** With the sidebar's initial selection the listing shows only open
      leads: every listed Status is one of the first three options, never
      Lost Sale, Sold, Disqualified or Unreachable. */
  lemma DefaultSelectionListsOpenLeads(t: seq<Lead>, query: string)
    ensures forall s :: s in DEFAULT_STATUS_SELECTION ==> s in STATUS_OPTIONS
    ensures forall l :: l in FilterListing(t, query, DEFAULT_STATUS_SELECTION) ==>
      l.status.Some? && l.status.value in STATUS_OPTIONS[..3] && l.status.value !in STATUS_OPTIONS[3..]
  {
    assert DEFAULT_STATUS_SELECTION == STATUS_OPTIONS[..3];
    forall l | l in FilterListing(t, query, DEFAULT_STATUS_SELECTION)
      ensures l.status.Some? && l.status.value in STATUS_OPTIONS[..3]
    {
      assert StatusSelected(l, DEFAULT_STATUS_SELECTION);
    }
  }
}
