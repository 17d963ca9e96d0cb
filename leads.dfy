/** The lead record, the columns of the backing file, and the fixed option
    lists of app.py. */
module Leads {
  import opened Wrappers

  const STATUS_OPTIONS: seq<string> :=
    ["New", "Contacted", "Qualified", "Lost Sale", "Sold", "Disqualified", "Unreachable"]
  const INTEREST_OPTIONS: seq<string> := ["Interested", "Holding", "Not Interested", "N/A"]
  const SOURCE_OPTIONS: seq<string> :=
    ["Google Ads", "Facebook", "Instagram", "LinkedIn", "Websites", "Offline Events", "Other"]
  const DEFAULT_OWNER: string := "Unassigned"
  const DEFAULT_SOURCE: string := "Other"
  const DEFAULT_INTEREST: string := "N/A"

  /** The columns of the backing file, in file order. */
  datatype Column =
    | LeadID | FullName | Location | Status | Phone | Email
    | LeadSource | CreatedDate | InterestStatus | Notes | EngagementScore | Owner

  const EXPECTED_COLUMNS: seq<Column> :=
    [LeadID, FullName, Location, Status, Phone, Email,
     LeadSource, CreatedDate, InterestStatus, Notes, EngagementScore, Owner]

  /** One parsed line of the backing file; every cell may be blank. */
  datatype RawRow = RawRow(
    leadId: Option<int>,
    fullName: Option<string>,
    location: Option<string>,
    status: Option<string>,
    phone: Option<string>,
    email: Option<string>,
    leadSource: Option<string>,
    createdDate: Option<string>,
    interestStatus: Option<string>,
    notes: Option<string>,
    engagementScore: Option<real>,
    owner: Option<string>)

  /** The parsed file: the header's columns and the data lines. A cell of a
      column missing from the header is not part of the file. */
  datatype RawTable = RawTable(columns: set<Column>, rows: seq<RawRow>)

  /** One row of the in-memory table, indexed by its LeadID. */
  datatype Lead = Lead(
    leadId: int,
    fullName: Option<string>,
    location: Option<string>,
    status: Option<string>,
    phone: Option<string>,
    email: Option<string>,
    leadSource: Option<string>,
    createdDate: Option<string>,
    interestStatus: Option<string>,
    notes: Option<string>,
    engagementScore: Option<real>,
    owner: Option<string>)

  /** What loading guarantees of every row: the required cells are there and
      the defaulted cells are filled. */
  predicate IsLoadedRow(l: Lead) {
    && l.fullName.Some? && l.status.Some?
    && l.owner.Some? && l.leadSource.Some? && l.interestStatus.Some?
  }

  predicate IsLoadedTable(t: seq<Lead>) {
    forall k :: 0 <= k < |t| ==> IsLoadedRow(t[k])
  }

  /** No two rows share a LeadID (pandas' `index.is_unique`). */
  predicate DistinctKeys(t: seq<Lead>) {
    forall k, m :: 0 <= k < m < |t| ==> t[k].leadId != t[m].leadId
  }

  /** The values the loader fills in for a blank LeadSource or
      InterestStatus are among the choices the listing's editor offers. */
  lemma DefaultsAreOptions()
    ensures DEFAULT_SOURCE in SOURCE_OPTIONS
    ensures DEFAULT_INTEREST in INTEREST_OPTIONS
  {
  }
}
