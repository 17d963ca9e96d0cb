/** The session's lead table (`st.session_state['df_leads']`, app.py:125-127)
    and the write-back of listing edits (app.py:139-144, 294-295). */
module Session {
  import opened Wrappers
  import opened Leads
  import opened Loader
  import opened Reconciler
  import opened Listing
  import opened Dashboard

  class LeadSession {
    /** `st.session_state['df_leads']`. */
    var leads: seq<Lead>
    /** The error shown when loading fell back to the empty table. */
    var loadError: Option<LoadError>
    /** The table `save_data` last wrote to the backing file, if any. */
    var saved: Option<seq<Lead>>

    /** Every row of the session table is loaded: required cells present,
        defaulted cells filled. */
    ghost predicate Valid()
      reads this
    {
      IsLoadedTable(leads)
    }

    /** The first run of the script: `initialize_data()` fills the session. */
    constructor (input: Option<RawTable>)
      ensures Valid()
      ensures AllOwnersPresent(leads)
      ensures leads == LoadedOrEmpty(input)
      ensures loadError == (if Load(input).Err? then Some(Load(input).error) else None)
      ensures saved == None
    {
      var t, e := InitializeData(input);
      if e.None? {
        LoadedRowsComplete(input, t);
      }
      leads, loadError, saved := t, e, None;
    }

    /** `update_main_dataframe(edited, df)`: merge into a copy, replace the
        session table, then save. A failed save leaves the new table in the
        session; a failed merge raises before anything changes. */
    method UpdateMainDataframe(edited: seq<Lead>, saveSucceeds: bool) returns (outcome: Result<seq<Lead>, MergeError>)
      requires Valid()
      modifies this
      ensures Valid()
      ensures AllOwnersPresent(leads)
      ensures outcome == Merge(old(leads), edited)
      ensures outcome.Ok? ==> leads == outcome.value
      ensures outcome.Ok? ==> saved == if saveSucceeds then Some(outcome.value) else old(saved)
      ensures outcome.Err? ==> leads == old(leads) && saved == old(saved)
      ensures loadError == old(loadError)
    {
      outcome := UpdateFrame(leads, edited);
      if outcome.Ok? {
        MergeKeepsLoaded(leads, edited);
        leads := outcome.value;
        if saveSucceeds {
          saved := Some(outcome.value);
        }
      }
    }

    /** The end of the Lead Listings page: the edited grid is written back
        only when it differs from the filtered view it was made from; an
        unchanged grid changes nothing. */
    method SubmitListingEdits(filtered: seq<Lead>, edited: seq<Lead>, saveSucceeds: bool) returns (changed: bool)
      requires Valid()
      modifies this
      ensures Valid()
      ensures AllOwnersPresent(leads)
      ensures changed == (edited != filtered)
      ensures !changed ==> leads == old(leads) && saved == old(saved)
      ensures changed && Merge(old(leads), edited).Ok? ==>
        && leads == Merge(old(leads), edited).value
        && saved == (if saveSucceeds then Some(Merge(old(leads), edited).value) else old(saved))
      ensures changed && Merge(old(leads), edited).Err? ==> leads == old(leads) && saved == old(saved)
      ensures loadError == old(loadError)
    {
      changed := edited != filtered;
      if changed {
        var _ := UpdateMainDataframe(edited, saveSucceeds);
      }
    }
  }

  /** Even without the equality guard, writing back the listing unedited
      would leave a table with distinct LeadIDs as it was. */
  lemma UneditedListingIsNoOp(t: seq<Lead>, query: string, selected: seq<string>)
    requires DistinctKeys(t)
    ensures Merge(t, FilterListing(t, query, selected)) == Ok(t)
  {
    FilterListingIsWhere(t, query, selected);
    MergeUneditedView(t, l => Listed(l, query, selected));
  }
}
