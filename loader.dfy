/** `initialize_data` (app.py:99-123): the parsed backing file becomes the
    in-memory lead table. Reading the file is abstracted away: the input is
    the parsed table, or `None` when `read_csv` failed. */
module Loader {
  import opened Wrappers
  import opened Selection
  import opened Leads

  /** Why a load fell back to the empty table. */
  datatype LoadError =
    | ReadFailed                // `read_csv` raised
    | MissingColumn(col: Column) // `df['CreatedDate']` or `dropna(subset=...)` raised KeyError
    | LeadIdAlreadyExists        // `df.insert(0, 'LeadID', ...)` raised ValueError

  /** The columns that are filled with a default, in the order the loop visits them. */
  const DEFAULTS: seq<(Column, string)> :=
    [(Owner, DEFAULT_OWNER), (LeadSource, DEFAULT_SOURCE), (InterestStatus, DEFAULT_INTEREST)]

  function Cell<T>(cols: set<Column>, c: Column, v: Option<T>): Option<T> {
    if c in cols then v else None
  }

  /** The row as pandas holds it after `read_csv`: a column the header lacks
      has no cells. */
  function AsRead(cols: set<Column>, r: RawRow): RawRow {
    RawRow(
      Cell(cols, LeadID, r.leadId), Cell(cols, FullName, r.fullName),
      Cell(cols, Location, r.location), Cell(cols, Status, r.status),
      Cell(cols, Phone, r.phone), Cell(cols, Email, r.email),
      Cell(cols, LeadSource, r.leadSource), Cell(cols, CreatedDate, r.createdDate),
      Cell(cols, InterestStatus, r.interestStatus), Cell(cols, Notes, r.notes),
      Cell(cols, EngagementScore, r.engagementScore), Cell(cols, Owner, r.owner))
  }

  function ReadRows(raw: RawTable): (s: seq<RawRow>)
    ensures |s| == |raw.rows|
  {
    seq(|raw.rows|, i requires 0 <= i < |raw.rows| => AsRead(raw.columns, raw.rows[i]))
  }

  predicate IsDefaulted(c: Column) {
    c == Owner || c == LeadSource || c == InterestStatus
  }

  function GetText(r: RawRow, c: Column): Option<string>
    requires IsDefaulted(c)
  {
    if c == Owner then r.owner else if c == LeadSource then r.leadSource else r.interestStatus
  }

  function SetText(r: RawRow, c: Column, v: Option<string>): RawRow
    requires IsDefaulted(c)
  {
    if c == Owner then r.(owner := v)
    else if c == LeadSource then r.(leadSource := v)
    else r.(interestStatus := v)
  }

  /** `df[col] = df[col].fillna(default)` on one row. */
  function FillNa(r: RawRow, c: Column, default: string): RawRow
    requires IsDefaulted(c)
  {
    SetText(r, c, Some(GetText(r, c).GetOr(default)))
  }

  /** The row once the first `k` columns of DEFAULTS have been filled. */
  function Filled(r: RawRow, k: nat): RawRow
    requires k <= |DEFAULTS|
  {
    r.(owner := if k >= 1 then Some(r.owner.GetOr(DEFAULT_OWNER)) else r.owner,
       leadSource := if k >= 2 then Some(r.leadSource.GetOr(DEFAULT_SOURCE)) else r.leadSource,
       interestStatus := if k >= 3 then Some(r.interestStatus.GetOr(DEFAULT_INTEREST)) else r.interestStatus)
  }

  /** `df['LeadID'].isnull().any()`. */
  predicate HasNullId(rows: seq<RawRow>) {
    exists j :: 0 <= j < |rows| && rows[j].leadId.None?
  }

  /** Whether the LeadID column can be kept as it is, or is inserted. */
  predicate IdsUsable(raw: RawTable) {
    LeadID !in raw.columns || !HasNullId(ReadRows(raw))
  }

  /** The LeadID of the `j`-th line: its own when the column exists,
      otherwise its 1-based line number (`range(1, 1 + len(df))`). */
  function AssignedId(raw: RawTable, j: int): int
    requires IdsUsable(raw)
    requires 0 <= j < |raw.rows|
  {
    if LeadID in raw.columns then ReadRows(raw)[j].leadId.value else j + 1
  }

  function ToLead(id: int, r: RawRow): Lead {
    Lead(id, r.fullName, r.location, r.status, r.phone, r.email, r.leadSource,
         r.createdDate, r.interestStatus, r.notes, r.engagementScore, r.owner)
  }

  /** Every line of the file, defaults filled and LeadID settled, before any
      line is dropped. */
  function Normalised(raw: RawTable): (s: seq<Lead>)
    requires IdsUsable(raw)
    ensures |s| == |raw.rows|
  {
    seq(|raw.rows|, j requires 0 <= j < |raw.rows| =>
      ToLead(AssignedId(raw, j), Filled(ReadRows(raw)[j], |DEFAULTS|)))
  }

  /** The `dropna(subset=['FullName', 'Status'])` mask. */
  predicate IsComplete(l: Lead) {
    l.fullName.Some? && l.status.Some?
  }

  /** What `initialize_data` computes, the exception paths included. */
  function Load(input: Option<RawTable>): Result<seq<Lead>, LoadError> {
    match input
    case None => Err(ReadFailed)
    case Some(raw) =>
      if CreatedDate !in raw.columns then Err(MissingColumn(CreatedDate))
      else if !IdsUsable(raw) then Err(LeadIdAlreadyExists)
      else if FullName !in raw.columns then Err(MissingColumn(FullName))
      else if Status !in raw.columns then Err(MissingColumn(Status))
      else Ok(Where(Normalised(raw), IsComplete))
  }

  /** The table the session starts with: `pd.DataFrame()` on any exception. */
  function LoadedOrEmpty(input: Option<RawTable>): seq<Lead> {
    match Load(input)
    case Ok(t) => t
    case Err(_) => []
  }

  /** One turn of the defaults loop (app.py:112-115): create the column
      filled with `default` when the header lacks it, then `fillna(default)`. */
  method FillDefaultColumn(df: array<RawRow>, k: nat, present: bool, ghost read: seq<RawRow>)
    requires k < |DEFAULTS| && |read| == df.Length
    requires forall j :: 0 <= j < df.Length ==> df[j] == Filled(read[j], k)
    requires !present ==> forall j :: 0 <= j < |read| ==> GetText(read[j], DEFAULTS[k].0).None?
    modifies df
    ensures forall j :: 0 <= j < df.Length ==> df[j] == Filled(read[j], k + 1)
  {
    var (col, default) := DEFAULTS[k];
    var n := df.Length;
    assert k == 0 || k == 1 || k == 2;
    if !present {
      // df[col] = default
      var i := 0;
      while i < n
        invariant 0 <= i <= n
        invariant forall j :: 0 <= j < i ==> df[j] == Filled(read[j], k + 1)
        invariant forall j :: i <= j < n ==> df[j] == Filled(read[j], k)
      {
        df[i] := SetText(df[i], col, Some(default));
        i := i + 1;
      }
    }
    // df[col] = df[col].fillna(default)
    ghost var before := df[..];
    assert forall j :: 0 <= j < n ==> FillNa(before[j], col, default) == Filled(read[j], k + 1);
    var i := 0;
    while i < n
      invariant 0 <= i <= n
      invariant forall j :: 0 <= j < i ==> df[j] == Filled(read[j], k + 1)
      invariant forall j :: i <= j < n ==> df[j] == before[j]
    {
      df[i] := FillNa(df[i], col, default);
      i := i + 1;
    }
  }

  /** `df.insert(0, 'LeadID', range(1, 1 + len(df)))` (app.py:117). */
  method InsertIds(df: array<RawRow>)
    modifies df
    ensures forall j :: 0 <= j < df.Length ==> df[j] == old(df[j]).(leadId := Some(j + 1))
  {
    var i := 0;
    while i < df.Length
      invariant 0 <= i <= df.Length
      invariant forall j :: 0 <= j < i ==> df[j] == old(df[j]).(leadId := Some(j + 1))
      invariant forall j :: i <= j < df.Length ==> df[j] == old(df[j])
    {
      df[i] := df[i].(leadId := Some(i + 1));
      i := i + 1;
    }
  }

  /** `df.dropna(subset=['FullName', 'Status'])` (app.py:118): the rows of the
      frame that have both cells, in frame order. */
  method DropIncomplete(df: array<RawRow>, ghost rows: seq<Lead>) returns (table: seq<Lead>)
    requires |rows| == df.Length
    requires forall j :: 0 <= j < df.Length ==> df[j].leadId.Some? && ToLead(df[j].leadId.value, df[j]) == rows[j]
    ensures table == Where(rows, IsComplete)
  {
    table := [];
    var i := 0;
    while i < df.Length
      invariant 0 <= i <= df.Length
      invariant table == Where(rows[..i], IsComplete)
    {
      var l := ToLead(df[i].leadId.value, df[i]);
      assert rows[..i + 1][..i] == rows[..i];
      if IsComplete(l) {
        table := table + [l];
      }
      i := i + 1;
    }
    assert rows[..df.Length] == rows;
  }

  /** `initialize_data`, step by step over a mutable frame of rows. */
  method InitializeData(input: Option<RawTable>) returns (table: seq<Lead>, error: Option<LoadError>)
    ensures error.None? ==> Load(input) == Ok(table)
    ensures error.Some? ==> Load(input) == Err(error.value) && table == []
  {
    if input.None? {
      return [], Some(ReadFailed);
    }
    var raw := input.value;
    var n := |raw.rows|;
    var cols := raw.columns;
    ghost var read := ReadRows(raw);
    var df := new RawRow[n](i requires 0 <= i < n => AsRead(raw.columns, raw.rows[i]));
    if CreatedDate !in cols {
      return [], Some(MissingColumn(CreatedDate));
    }

    var k := 0;
    while k < |DEFAULTS|
      invariant 0 <= k <= |DEFAULTS|
      invariant forall j :: 0 <= j < n ==> df[j] == Filled(read[j], k)
      invariant raw.columns <= cols <= raw.columns + {Owner, LeadSource, InterestStatus}
    {
      var col := DEFAULTS[k].0;
      FillDefaultColumn(df, k, col in cols, read);
      cols := cols + {col};
      k := k + 1;
    }

    assert IsDefaulted(DEFAULTS[0].0) && IsDefaulted(DEFAULTS[1].0) && IsDefaulted(DEFAULTS[2].0);
    if LeadID !in cols || HasNullId(df[..]) {
      if LeadID in cols {
        // df.insert(0, 'LeadID', ...) on an existing column raises
        assert HasNullId(read) by {
          var j :| 0 <= j < n && df[..][j].leadId.None?;
          assert read[j].leadId.None?;
        }
        return [], Some(LeadIdAlreadyExists);
      }
      InsertIds(df);
      cols := cols + {LeadID};
    } else {
      assert !HasNullId(read) by {
        forall j | 0 <= j < n ensures read[j].leadId.Some? {
          assert df[..][j].leadId == read[j].leadId;
        }
      }
    }
    ghost var rows := Normalised(raw);
    forall j | 0 <= j < n ensures df[j].leadId.Some? && ToLead(df[j].leadId.value, df[j]) == rows[j] {
      assert rows[j] == ToLead(AssignedId(raw, j), Filled(read[j], |DEFAULTS|));
    }

    if FullName !in cols {
      return [], Some(MissingColumn(FullName));
    }
    if Status !in cols {
      return [], Some(MissingColumn(Status));
    }
    table := DropIncomplete(df, rows);
    error := None;
  }

  // -----------------------------------------------------------------------
  // What a successful load guarantees

  /** The defaulted cell of a line: the file's value when the column exists
      and the cell is not blank, the default otherwise. */
  function Defaulted(cols: set<Column>, c: Column, v: Option<string>, default: string): string {
    if c in cols && v.Some? then v.value else default
  }

  /** `l` is line `j` of the file as loading leaves it. */
  ghost predicate LoadedFrom(raw: RawTable, j: int, l: Lead)
    requires 0 <= j < |raw.rows|
  {
    var r := raw.rows[j];
    && (if LeadID in raw.columns then r.leadId == Some(l.leadId) else l.leadId == j + 1)
    && l.fullName.Some? && l.fullName == r.fullName
    && l.status.Some? && l.status == r.status
    && l.owner == Some(Defaulted(raw.columns, Owner, r.owner, DEFAULT_OWNER))
    && l.leadSource == Some(Defaulted(raw.columns, LeadSource, r.leadSource, DEFAULT_SOURCE))
    && l.interestStatus == Some(Defaulted(raw.columns, InterestStatus, r.interestStatus, DEFAULT_INTEREST))
    && l.location == Cell(raw.columns, Location, r.location)
    && l.phone == Cell(raw.columns, Phone, r.phone)
    && l.email == Cell(raw.columns, Email, r.email)
    && l.createdDate == r.createdDate
    && l.notes == Cell(raw.columns, Notes, r.notes)
    && l.engagementScore == Cell(raw.columns, EngagementScore, r.engagementScore)
  }

  /** A line is kept exactly when it has a FullName and a Status. */
  predicate LineIsComplete(r: RawRow) {
    r.fullName.Some? && r.status.Some?
  }

  /** A successful load keeps, in file order, exactly the complete lines,
      each with its defaults filled and its other cells as read. `idx[k]` is
      the line that row `k` came from. */
  lemma LoadKeepsCompleteLines(raw: RawTable, t: seq<Lead>)
    requires Load(Some(raw)) == Ok(t)
    ensures IdsUsable(raw)
    ensures var idx := Positions(Normalised(raw), IsComplete);
      && |idx| == |t|
      && (forall k, m :: 0 <= k < m < |idx| ==> idx[k] < idx[m])
      && (forall k :: 0 <= k < |t| ==> 0 <= idx[k] < |raw.rows| && LoadedFrom(raw, idx[k], t[k]))
      && (forall j :: 0 <= j < |raw.rows| ==> (j in idx <==> LineIsComplete(raw.rows[j])))
  {
    var rows := Normalised(raw);
    WhereSelects(rows, IsComplete);
    var idx := Positions(rows, IsComplete);
    forall j | 0 <= j < |raw.rows|
      ensures IsComplete(rows[j]) <==> LineIsComplete(raw.rows[j])
      ensures IsComplete(rows[j]) ==> LoadedFrom(raw, j, rows[j])
    {
      assert ReadRows(raw)[j] == AsRead(raw.columns, raw.rows[j]);
    }
  }

  /** After a successful load every row has its FullName and Status, and its
      Owner, LeadSource and InterestStatus filled. */
  lemma LoadedRowsComplete(input: Option<RawTable>, t: seq<Lead>)
    requires Load(input) == Ok(t)
    ensures IsLoadedTable(t)
  {
    var raw := input.value;
    LoadKeepsCompleteLines(raw, t);
    var idx := Positions(Normalised(raw), IsComplete);
    forall k | 0 <= k < |t| ensures IsLoadedRow(t[k]) {
      assert LoadedFrom(raw, idx[k], t[k]);
    }
  }

  /** Without a LeadID column, the IDs are the 1-based line numbers of the
      surviving lines: between 1 and the number of lines, strictly
      increasing, hence distinct (but with gaps where lines were dropped). */
  lemma LoadAssignsLineNumbers(raw: RawTable, t: seq<Lead>)
    requires LeadID !in raw.columns
    requires Load(Some(raw)) == Ok(t)
    ensures forall k :: 0 <= k < |t| ==> 1 <= t[k].leadId <= |raw.rows|
    ensures forall k, m :: 0 <= k < m < |t| ==> t[k].leadId < t[m].leadId
    ensures DistinctKeys(t)
  {
    LoadKeepsCompleteLines(raw, t);
    var idx := Positions(Normalised(raw), IsComplete);
    assert forall k :: 0 <= k < |t| ==> t[k].leadId == idx[k] + 1 by {
      forall k | 0 <= k < |t| ensures t[k].leadId == idx[k] + 1 {
        assert 0 <= idx[k] < |raw.rows|;
        assert LoadedFrom(raw, idx[k], t[k]);
      }
    }
  }

  /** A LeadID column with any blank cell makes `df.insert` raise: the whole
      load falls back to the empty table, whatever the other lines hold. */
  lemma LoadWithBlankIdIsEmpty(raw: RawTable, j: int)
    requires CreatedDate in raw.columns && LeadID in raw.columns
    requires 0 <= j < |raw.rows| && raw.rows[j].leadId.None?
    ensures Load(Some(raw)) == Err(LeadIdAlreadyExists)
    ensures LoadedOrEmpty(Some(raw)) == []
  {
    assert ReadRows(raw)[j].leadId.None?;
  }

  /** A missing or empty file is replaced by its header: every column, no line. */
  lemma LoadHeaderOnly()
    ensures Load(Some(RawTable(set c | c in EXPECTED_COLUMNS, []))) == Ok([])
  {
    var raw := RawTable(set c | c in EXPECTED_COLUMNS, []);
    assert CreatedDate in EXPECTED_COLUMNS && FullName in EXPECTED_COLUMNS && Status in EXPECTED_COLUMNS;
    assert !HasNullId(ReadRows(raw));
  }
}
