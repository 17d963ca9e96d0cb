/** `update_main_dataframe` (app.py:139-144): the edited view is laid over a
    copy of the full table with pandas' `DataFrame.update`, matching rows by
    their LeadID index. */
module Reconciler {
  import opened Wrappers
  import opened Selection
  import opened Leads

  /** `update` raises when `other.reindex(self.index)` does: the edited view
      repeats a LeadID and its index is not the table's own. */
  datatype MergeError = DuplicateEditedKeys

  /** One cell of `update`: a non-null edited cell wins, a null one keeps the
      original. */
  function Overlay<T>(orig: Option<T>, edited: Option<T>): Option<T> {
    if edited.Some? then edited else orig
  }

  /** A row of the table with the matching edited row laid over it. */
  function OverlayRow(o: Lead, e: Lead): Lead {
    Lead(o.leadId,
      Overlay(o.fullName, e.fullName), Overlay(o.location, e.location),
      Overlay(o.status, e.status), Overlay(o.phone, e.phone), Overlay(o.email, e.email),
      Overlay(o.leadSource, e.leadSource), Overlay(o.createdDate, e.createdDate),
      Overlay(o.interestStatus, e.interestStatus), Overlay(o.notes, e.notes),
      Overlay(o.engagementScore, e.engagementScore), Overlay(o.owner, e.owner))
  }

  /** The edited row with LeadID `key`, if there is one. */
  function Find(edited: seq<Lead>, key: int): (r: Option<Lead>)
    ensures r.Some? ==> r.value in edited && r.value.leadId == key
    ensures r.None? <==> forall x :: x in edited ==> x.leadId != key
  {
    if edited == [] then None
    else if edited[0].leadId == key then Some(edited[0])
    else Find(edited[1..], key)
  }

  /** The edited view's index equals the table's, label for label. */
  predicate SameIndex(original: seq<Lead>, edited: seq<Lead>) {
    |edited| == |original| && forall i :: 0 <= i < |original| ==> edited[i].leadId == original[i].leadId
  }

  /** `other.reindex(self.index)` succeeds: it is the identity on an equal
      index, and otherwise looks labels up, which needs them unique. */
  predicate Reindexable(original: seq<Lead>, edited: seq<Lead>) {
    SameIndex(original, edited) || DistinctKeys(edited)
  }

  /** Row `i` of `other.reindex(self.index)`: the edited row in the same
      place when the indexes are equal, otherwise the edited row with that
      LeadID, and a row of nulls (`None`) when there is none. */
  function Reindexed(original: seq<Lead>, edited: seq<Lead>, i: int): Option<Lead>
    requires 0 <= i < |original|
  {
    if SameIndex(original, edited) then Some(edited[i]) else Find(edited, original[i].leadId)
  }

  /** A row of the table after `update`, given its reindexed edited row. */
  function UpdatedRow(o: Lead, e: Option<Lead>): Lead {
    match e
    case None => o
    case Some(e) => OverlayRow(o, e)
  }

  /** The merged row when rows are matched by LeadID: unchanged when its key
      was not edited. */
  function MergedRow(o: Lead, edited: seq<Lead>): Lead {
    UpdatedRow(o, Find(edited, o.leadId))
  }

  /** `original.copy().update(edited)`. */
  function Merge(original: seq<Lead>, edited: seq<Lead>): Result<seq<Lead>, MergeError> {
    if !Reindexable(original, edited) then Err(DuplicateEditedKeys)
    else Ok(seq(|original|, i requires 0 <= i < |original| => UpdatedRow(original[i], Reindexed(original, edited, i))))
  }

  /** `df_to_update = original_df.copy(); df_to_update.update(edited_df)`:
      the copy is a fresh frame updated in place, row by row. */
  method UpdateFrame(original: seq<Lead>, edited: seq<Lead>) returns (result: Result<seq<Lead>, MergeError>)
    ensures result == Merge(original, edited)
  {
    var aligned := SameIndex(original, edited);
    if !aligned && !DistinctKeys(edited) {
      return Err(DuplicateEditedKeys);
    }
    var n := |original|;
    var df := new Lead[n](i requires 0 <= i < n => original[i]);
    var i := 0;
    while i < n
      invariant 0 <= i <= n
      invariant forall j :: 0 <= j < i ==> df[j] == UpdatedRow(original[j], Reindexed(original, edited, j))
      invariant forall j :: i <= j < n ==> df[j] == original[j]
    {
      var e := if aligned then Some(edited[i]) else Find(edited, df[i].leadId);
      if e.Some? {
        df[i] := OverlayRow(df[i], e.value);
      }
      i := i + 1;
    }
    assert df[..] == Merge(original, edited).value;
    result := Ok(df[..]);
  }

  /** With unique edited labels, reindexing by position and by label agree:
      every row is matched by its LeadID. */
  lemma ReindexedByKey(original: seq<Lead>, edited: seq<Lead>, i: int)
    requires DistinctKeys(edited) && 0 <= i < |original|
    ensures Reindexed(original, edited, i) == Find(edited, original[i].leadId)
  {
    if SameIndex(original, edited) {
      var f := Find(edited, original[i].leadId);
      assert edited[i] in edited;
      var a :| 0 <= a < |edited| && edited[a] == f.value;
      assert a == i;
    }
  }

  /** With unique edited labels the merge matches every row by LeadID. */
  lemma MergeByKeyRows(original: seq<Lead>, edited: seq<Lead>)
    requires DistinctKeys(edited)
    ensures Merge(original, edited) == Ok(seq(|original|, i requires 0 <= i < |original| => MergedRow(original[i], edited)))
  {
    forall i | 0 <= i < |original|
      ensures UpdatedRow(original[i], Reindexed(original, edited, i)) == MergedRow(original[i], edited)
    {
      ReindexedByKey(original, edited, i);
    }
    assert Merge(original, edited).value == seq(|original|, i requires 0 <= i < |original| => MergedRow(original[i], edited));
  }

  // -----------------------------------------------------------------------
  // Properties of the merge

  /** Every cell of `r` is the edited cell of `e` when that is non-null, and
      the original cell of `o` otherwise. */
  ghost predicate CellsOverlaid(o: Lead, e: Lead, r: Lead) {
    && r.leadId == o.leadId
    && r.fullName == (if e.fullName.Some? then e.fullName else o.fullName)
    && r.location == (if e.location.Some? then e.location else o.location)
    && r.status == (if e.status.Some? then e.status else o.status)
    && r.phone == (if e.phone.Some? then e.phone else o.phone)
    && r.email == (if e.email.Some? then e.email else o.email)
    && r.leadSource == (if e.leadSource.Some? then e.leadSource else o.leadSource)
    && r.createdDate == (if e.createdDate.Some? then e.createdDate else o.createdDate)
    && r.interestStatus == (if e.interestStatus.Some? then e.interestStatus else o.interestStatus)
    && r.notes == (if e.notes.Some? then e.notes else o.notes)
    && r.engagementScore == (if e.engagementScore.Some? then e.engagementScore else o.engagementScore)
    && r.owner == (if e.owner.Some? then e.owner else o.owner)
  }

  /** The merge fails exactly when the edited view repeats a key and its
      index is not the table's own. A successful merge has the original's
      rows, keys and order. With unique edited keys, a row whose key was not
      edited is unchanged, and a row whose key was edited takes every
      non-null edited cell and keeps its own cell where the edit is null.
      With the table's own index, row `i` is overlaid by edited row `i`. */
  lemma MergeByKey(original: seq<Lead>, edited: seq<Lead>)
    ensures Merge(original, edited).Err? <==> !DistinctKeys(edited) && !SameIndex(original, edited)
    ensures Merge(original, edited).Ok? ==>
      var r := Merge(original, edited).value;
      && |r| == |original|
      && (forall i :: 0 <= i < |r| ==> r[i].leadId == original[i].leadId)
    ensures DistinctKeys(edited) ==>
      var r := Merge(original, edited).value;
      && (forall i :: 0 <= i < |r| && (forall x :: x in edited ==> x.leadId != original[i].leadId) ==> r[i] == original[i])
      && (forall i, x :: 0 <= i < |r| && x in edited && x.leadId == original[i].leadId ==> CellsOverlaid(original[i], x, r[i]))
    ensures SameIndex(original, edited) ==>
      var r := Merge(original, edited).value;
      forall i :: 0 <= i < |r| ==> CellsOverlaid(original[i], edited[i], r[i])
  {
    if DistinctKeys(edited) {
      MergeByKeyRows(original, edited);
      var r := Merge(original, edited).value;
      forall i, x | 0 <= i < |r| && x in edited && x.leadId == original[i].leadId
        ensures CellsOverlaid(original[i], x, r[i])
      {
        var e := Find(edited, original[i].leadId).value;
        var a :| 0 <= a < |edited| && edited[a] == e;
        var b :| 0 <= b < |edited| && edited[b] == x;
        assert a == b;
      }
    }
  }

  lemma {:induction false} FindSkipsOtherKeys(edited: seq<Lead>, x: Lead, key: int)
    requires x.leadId != key
    ensures Find(edited + [x], key) == Find(edited, key)
  {
    if edited != [] {
      assert (edited + [x])[1..] == edited[1..] + [x];
      FindSkipsOtherKeys(edited[1..], x, key);
    }
  }

  /** An edited row whose key is not in the table is ignored when the view's
      keys are unique. When they repeat, the extra row makes the view's
      index differ from the table's, and the merge fails. */
  lemma MergeIgnoresUnknownKey(original: seq<Lead>, edited: seq<Lead>, x: Lead)
    requires forall o :: o in original ==> o.leadId != x.leadId
    requires forall e :: e in edited ==> e.leadId != x.leadId
    ensures DistinctKeys(edited) ==> Merge(original, edited + [x]) == Merge(original, edited)
    ensures !DistinctKeys(edited) ==> Merge(original, edited + [x]).Err?
  {
    var ex := edited + [x];
    assert !SameIndex(original, ex) by {
      if |ex| == |original| {
        assert original[|edited|] in original;
        assert ex[|edited|] == x;
      }
    }
    if DistinctKeys(edited) {
      assert DistinctKeys(ex) by {
        forall k, m | 0 <= k < m < |ex| ensures ex[k].leadId != ex[m].leadId {
          if m == |edited| {
            assert ex[k] in edited;
          }
        }
      }
      MergeByKeyRows(original, edited);
      MergeByKeyRows(original, ex);
      forall i | 0 <= i < |original| ensures MergedRow(original[i], ex) == MergedRow(original[i], edited) {
        assert original[i] in original;
        FindSkipsOtherKeys(edited, x, original[i].leadId);
      }
      assert Merge(original, ex).value == Merge(original, edited).value;
    } else {
      var k, m :| 0 <= k < m < |edited| && edited[k].leadId == edited[m].leadId;
      assert ex[k] == edited[k] && ex[m] == edited[m];
    }
  }

  /** Laying a row over itself changes nothing. */
  lemma OverlaySelf(o: Lead)
    ensures OverlayRow(o, o) == o
  {
  }

  /** Writing back a view taken from a table with distinct keys, unedited,
      leaves the table as it was: the no-op edit is harmless. */
  lemma MergeUneditedView(t: seq<Lead>, p: Lead -> bool)
    requires DistinctKeys(t)
    ensures Merge(t, Where(t, p)) == Ok(t)
  {
    var v := Where(t, p);
    WhereSelects(t, p);
    var idx := Positions(t, p);
    assert DistinctKeys(v) by {
      forall k, m | 0 <= k < m < |v| ensures v[k].leadId != v[m].leadId {
        assert idx[k] < idx[m];
      }
    }
    MergeByKeyRows(t, v);
    forall i | 0 <= i < |t| ensures MergedRow(t[i], v) == t[i] {
      var f := Find(v, t[i].leadId);
      if f.Some? {
        var k :| 0 <= k < |v| && v[k] == f.value;
        assert t[idx[k]].leadId == t[i].leadId;
        assert idx[k] == i;
        OverlaySelf(t[i]);
      }
    }
    assert Merge(t, v).value == t;
  }

  /** Applying the same edits twice gives the table applying them once gave. */
  lemma MergeIdempotent(original: seq<Lead>, edited: seq<Lead>)
    requires Merge(original, edited).Ok?
    ensures Merge(Merge(original, edited).value, edited) == Merge(original, edited)
  {
    var r := Merge(original, edited).value;
    if DistinctKeys(edited) {
      MergeByKeyRows(original, edited);
      MergeByKeyRows(r, edited);
      forall i | 0 <= i < |r| ensures MergedRow(r[i], edited) == r[i] {
        assert r[i].leadId == original[i].leadId;
      }
    } else {
      assert SameIndex(r, edited);
      forall i | 0 <= i < |r| ensures UpdatedRow(r[i], Reindexed(r, edited, i)) == r[i] {
        assert r[i] == OverlayRow(original[i], edited[i]);
      }
    }
    assert Merge(r, edited).value == r;
  }

  /** Edits never blank a cell, so a table whose rows are loaded keeps its
      rows loaded, and its keys. */
  lemma MergeKeepsLoaded(original: seq<Lead>, edited: seq<Lead>)
    requires IsLoadedTable(original)
    requires Merge(original, edited).Ok?
    ensures IsLoadedTable(Merge(original, edited).value)
    ensures DistinctKeys(original) ==> DistinctKeys(Merge(original, edited).value)
  {
  }

  /** Changing one row's Status in the view changes that cell of that row
      and nothing else in the table. */
  lemma MergeSingleStatusEdit(t: seq<Lead>, i: int, s: string)
    requires DistinctKeys(t) && 0 <= i < |t|
    ensures Merge(t, [t[i].(status := Some(s))]) == Ok(t[i := t[i].(status := Some(s))])
  {
    var e := [t[i].(status := Some(s))];
    MergeByKeyRows(t, e);
    var r := Merge(t, e).value;
    forall j | 0 <= j < |t| ensures r[j] == t[i := t[i].(status := Some(s))][j] {
      if j != i {
        assert t[j].leadId != t[i].leadId;
      }
    }
    assert r == t[i := t[i].(status := Some(s))];
  }

  /** Two leads sharing a LeadID, listed in table order, can still be
      edited: the view's index is the table's own, so `reindex` is the
      identity and the edit lands on its own row. */
  lemma MergeRepeatedKeyInTableOrder(a: Lead, b: Lead, n: string)
    requires a.leadId == b.leadId
    ensures Merge([a, b], [a.(notes := Some(n)), b]) == Ok([a.(notes := Some(n)), b])
  {
    OverlaySelf(b);
    assert Merge([a, b], [a.(notes := Some(n)), b]).value == [a.(notes := Some(n)), b];
  }

  /** A file may repeat a LeadID, and loading keeps both rows. An edit to
      one of them, merged back from a view without the other, is laid over
      every row with that LeadID. */
  lemma EditOverwritesSharedId(a: Lead, b: Lead, e: Lead)
    requires a.leadId == b.leadId == e.leadId
    ensures Merge([a, b], [e]) == Ok([OverlayRow(a, e), OverlayRow(b, e)])
    ensures e.status.Some? ==> Merge([a, b], [e]).value[1].status == e.status
  {
    assert !SameIndex([a, b], [e]);
    MergeByKeyRows([a, b], [e]);
    assert Merge([a, b], [e]).value == [OverlayRow(a, e), OverlayRow(b, e)];
  }

  /** When two rows share a LeadID and the listing leaves out some other
      lead, the view's index is not the table's, and merging it back fails. */
  lemma PartialViewOfSharedIdFails(a: Lead, b: Lead, c: Lead, x: Lead, y: Lead)
    requires a.leadId == b.leadId == x.leadId == y.leadId && c.leadId != a.leadId
    ensures Merge([a, b, c], [x, y]).Err?
  {
    assert !DistinctKeys([x, y]) by {
      assert [x, y][0].leadId == [x, y][1].leadId;
    }
    assert !SameIndex([a, b, c], [x, y]);
  }
}
