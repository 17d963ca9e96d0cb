/** The aggregations of the Overall and Salesperson dashboards
    (app.py:157-177, 303-314): KPI counts, the conversion rate, the lead
    source distribution over the fixed source list, and the owner list. */
module Dashboard {
  import opened Wrappers
  import opened Selection
  import opened Text
  import opened Leads

  function StatusOf(l: Lead): Option<string> { l.status }
  function InterestOf(l: Lead): Option<string> { l.interestStatus }
  function SourceOf(l: Lead): Option<string> { l.leadSource }
  function OwnerOf(l: Lead): Option<string> { l.owner }

  /** `(qualified / total) * 100 if total else 0`, as an exact rational. */
  function ConversionRate(qualified: nat, total: nat): (r: real)
    ensures total == 0 ==> r == 0.0
    ensures total > 0 ==> r * (total as real) == (qualified as real) * 100.0
    ensures qualified <= total ==> 0.0 <= r <= 100.0
  {
    if total == 0 then 0.0
    else
      var ratio := (qualified as real) / (total as real);
      assert qualified <= total ==> ratio <= 1.0;
      ratio * 100.0
  }

  /** The five metrics of the Overall Dashboard. */
  datatype Kpis = Kpis(total: nat, contacted: nat, interested: nat, qualified: nat, sold: nat, conversionRate: real)

  /** The KPIs, or `None` when the table is empty and the page only warns. */
  function OverallKpis(t: seq<Lead>): Option<Kpis> {
    if t == [] then None
    else
      var qualified := CountOf(t, StatusOf, "Qualified");
      Some(Kpis(|t|, CountOf(t, StatusOf, "Contacted"), CountOf(t, InterestOf, "Interested"),
                qualified, CountOf(t, StatusOf, "Sold"), ConversionRate(qualified, |t|)))
  }

  /** Each KPI counts at most every lead; the three Status counts are of
      disjoint rows so they add up to at most the total; the rate is the
      qualified share of the total (in percent, by ConversionRate). */
  lemma OverallKpisBounds(t: seq<Lead>)
    ensures OverallKpis(t).None? <==> t == []
    ensures OverallKpis(t).Some? ==>
      var k := OverallKpis(t).value;
      && k.total == |t|
      && k.contacted <= k.total && k.interested <= k.total
      && k.qualified <= k.total && k.sold <= k.total
      && k.contacted + k.qualified + k.sold <= k.total
      && k.conversionRate == ConversionRate(k.qualified, k.total)
  {
    if t != [] {
      var contacted, qualified, sold :=
        CountOf(t, StatusOf, "Contacted"), CountOf(t, StatusOf, "Qualified"), CountOf(t, StatusOf, "Sold");
      var vs := ["Contacted", "Qualified", "Sold"];
      KpiStatusesDistinct();
      SumCountsDistinct(t, StatusOf, vs);
      SumCountsThree(t, StatusOf, "Contacted", "Qualified", "Sold");
      assert contacted + qualified + sold <= |t|;
    }
  }

  lemma KpiStatusesDistinct()
    ensures Distinct(["Contacted", "Qualified", "Sold"])
  {
    var vs := ["Contacted", "Qualified", "Sold"];
    assert vs[0][0] == 'C' && vs[1][0] == 'Q' && vs[2][0] == 'S';
  }

  /** The KPI example: one lead in each of New, Contacted, Qualified, Sold. */
  lemma KpisOfFourStatuses(a: Lead, b: Lead, c: Lead, d: Lead)
    requires a.status == Some("New") && b.status == Some("Contacted")
    requires c.status == Some("Qualified") && d.status == Some("Sold")
    requires forall l :: l in [a, b, c, d] ==> l.interestStatus == Some("N/A")
    ensures OverallKpis([a, b, c, d]) == Some(Kpis(4, 1, 0, 1, 1, 25.0))
  {
    assert StatusOf(a) == a.status && StatusOf(b) == b.status && StatusOf(c) == c.status && StatusOf(d) == d.status;
    assert InterestOf(a) == a.interestStatus && InterestOf(b) == b.interestStatus;
    assert InterestOf(c) == c.interestStatus && InterestOf(d) == d.interestStatus;
    assert a in [a, b, c, d] && b in [a, b, c, d] && c in [a, b, c, d] && d in [a, b, c, d];
    assert "New" != "Contacted" && "New" != "Qualified" && "New" != "Sold";
    assert "Contacted" != "Qualified" && "Contacted" != "Sold" && "Qualified" != "Sold";
    assert "N/A" != "Interested";
    CountFour(a, b, c, d, StatusOf, "Contacted");
    CountFour(a, b, c, d, StatusOf, "Qualified");
    CountFour(a, b, c, d, StatusOf, "Sold");
    CountFour(a, b, c, d, InterestOf, "Interested");
    assert ConversionRate(1, 4) == 25.0;
  }

  lemma CountFour(a: Lead, b: Lead, c: Lead, d: Lead, key: Lead -> Option<string>, v: string)
    ensures CountOf([a, b, c, d], key, v) ==
      (if key(a) == Some(v) then 1 else 0) + (if key(b) == Some(v) then 1 else 0)
      + (if key(c) == Some(v) then 1 else 0) + (if key(d) == Some(v) then 1 else 0)
  {
    assert [] + [a] == [a] && [a] + [b] == [a, b] && [a, b] + [c] == [a, b, c] && [a, b, c] + [d] == [a, b, c, d];
    CountOfSnoc([], key, v, a);
    CountOfSnoc([a], key, v, b);
    CountOfSnoc([a, b], key, v, c);
    CountOfSnoc([a, b, c], key, v, d);
  }

  // -----------------------------------------------------------------------
  // Lead source distribution

  /** One `(value, count)` pair per value of `vs`, in the order of `vs`
      (`value_counts().reindex(vs, fill_value=0)`). */
  function Distribution(t: seq<Lead>, key: Lead -> Option<string>, vs: seq<string>): (d: seq<(string, nat)>)
    ensures |d| == |vs|
    ensures forall i :: 0 <= i < |vs| ==> d[i].0 == vs[i]
  {
    if vs == [] then []
    else Distribution(t, key, vs[..|vs| - 1]) + [(vs[|vs| - 1], CountOf(t, key, vs[|vs| - 1]))]
  }

  function TotalOf(d: seq<(string, nat)>): nat {
    if d == [] then 0 else TotalOf(d[..|d| - 1]) + d[|d| - 1].1
  }

  /** The source pie's data: the seven sources in their fixed order. */
  function SourceDistribution(t: seq<Lead>): seq<(string, nat)> {
    Distribution(t, SourceOf, SOURCE_OPTIONS)
  }

  lemma {:induction false} DistributionTotal(t: seq<Lead>, key: Lead -> Option<string>, vs: seq<string>)
    ensures TotalOf(Distribution(t, key, vs)) == SumCounts(t, key, vs)
  {
    if vs != [] {
      var d := Distribution(t, key, vs);
      assert d[..|d| - 1] == Distribution(t, key, vs[..|vs| - 1]);
      DistributionTotal(t, key, vs[..|vs| - 1]);
    }
  }

  lemma SourceOptionsDistinct()
    ensures Distinct(SOURCE_OPTIONS)
  {
    forall i, j | 0 <= i < j < |SOURCE_OPTIONS| ensures SOURCE_OPTIONS[i] != SOURCE_OPTIONS[j] {
      assert |SOURCE_OPTIONS[i]| != |SOURCE_OPTIONS[j]| || SOURCE_OPTIONS[i][0] != SOURCE_OPTIONS[j][0];
    }
  }

  /** Exactly seven entries in the fixed source order, each the number of
      leads with that source (0 for an unseen one). */
  lemma SourceDistributionEntries(t: seq<Lead>)
    ensures var d := SourceDistribution(t);
      && |d| == 7
      && (forall i :: 0 <= i < 7 ==> d[i] == (SOURCE_OPTIONS[i], CountOf(t, SourceOf, SOURCE_OPTIONS[i])))
  {
    forall i | 0 <= i < 7 {
      DistributionEntry(t, SourceOf, SOURCE_OPTIONS, i);
    }
  }

  /** Sources outside the list are not counted, so the entries add up to at
      most the number of leads, and to exactly that when every lead's
      source is in the list. */
  lemma SourceDistributionTotal(t: seq<Lead>)
    ensures TotalOf(SourceDistribution(t)) <= |t|
    ensures (forall l :: l in t ==> l.leadSource.Some? && l.leadSource.value in SOURCE_OPTIONS)
      ==> TotalOf(SourceDistribution(t)) == |t|
  {
    DistributionTotal(t, SourceOf, SOURCE_OPTIONS);
    SourceOptionsDistinct();
    SumCountsDistinct(t, SourceOf, SOURCE_OPTIONS);
    if forall l :: l in t ==> l.leadSource.Some? && l.leadSource.value in SOURCE_OPTIONS {
      forall l | l in t ensures ValueIn(SourceOf, SOURCE_OPTIONS)(l) {
        assert SourceOf(l) == l.leadSource;
      }
      WhereAll(t, ValueIn(SourceOf, SOURCE_OPTIONS));
    }
  }

  lemma {:induction false} DistributionEntry(t: seq<Lead>, key: Lead -> Option<string>, vs: seq<string>, i: int)
    requires 0 <= i < |vs|
    ensures Distribution(t, key, vs)[i] == (vs[i], CountOf(t, key, vs[i]))
  {
    if i < |vs| - 1 {
      DistributionEntry(t, key, vs[..|vs| - 1], i);
    }
  }

  /** The source example: three Facebook leads. */
  lemma SourcesOfThreeFacebookLeads(a: Lead, b: Lead, c: Lead)
    requires a.leadSource == b.leadSource == c.leadSource == Some("Facebook")
    ensures SourceDistribution([a, b, c]) ==
      [("Google Ads", 0), ("Facebook", 3), ("Instagram", 0), ("LinkedIn", 0),
       ("Websites", 0), ("Offline Events", 0), ("Other", 0)]
  {
    var t := [a, b, c];
    assert [] + [a] == [a] && [a] + [b] == [a, b] && [a, b] + [c] == t;
    var d := SourceDistribution(t);
    SourceOptionsDistinct();
    forall i | 0 <= i < 7 ensures d[i] == (SOURCE_OPTIONS[i], if i == 1 then 3 else 0) {
      DistributionEntry(t, SourceOf, SOURCE_OPTIONS, i);
      CountOfSnoc([], SourceOf, SOURCE_OPTIONS[i], a);
      CountOfSnoc([a], SourceOf, SOURCE_OPTIONS[i], b);
      CountOfSnoc([a, b], SourceOf, SOURCE_OPTIONS[i], c);
    }
  }

  // -----------------------------------------------------------------------
  // Salesperson dashboard

  predicate StrictlySorted(xs: seq<string>) {
    forall i, j :: 0 <= i < j < |xs| ==> LexLess(xs[i], xs[j])
  }

  /** `x` placed into a strictly sorted list, unless it is already there. */
  function InsertSorted(x: string, xs: seq<string>): seq<string> {
    if xs == [] then [x]
    else if x == xs[0] then xs
    else if LexLess(x, xs[0]) then [x] + xs
    else [xs[0]] + InsertSorted(x, xs[1..])
  }

  lemma {:induction false} InsertSortedSpec(x: string, xs: seq<string>)
    requires StrictlySorted(xs)
    ensures StrictlySorted(InsertSorted(x, xs))
    ensures forall y :: y in InsertSorted(x, xs) <==> y == x || y in xs
  {
    if xs != [] && x != xs[0] {
      if LexLess(x, xs[0]) {
        forall j | 1 <= j < |xs| ensures LexLess(x, xs[j]) {
          LexLessTransitive(x, xs[0], xs[j]);
        }
      } else {
        LexLessTotal(x, xs[0]);
        InsertSortedSpec(x, xs[1..]);
        var r := InsertSorted(x, xs[1..]);
        forall y | y in r ensures LexLess(xs[0], y) {
          if y != x {
            var j :| 0 <= j < |xs[1..]| && xs[1..][j] == y;
          }
        }
        assert xs == [xs[0]] + xs[1..];
      }
    }
  }

  /** `sorted(set(s))` as a list. */
  function SortedDistinct(s: seq<string>): seq<string> {
    if s == [] then [] else InsertSorted(s[|s| - 1], SortedDistinct(s[..|s| - 1]))
  }

  lemma {:induction false} SortedDistinctSpec(s: seq<string>)
    ensures StrictlySorted(SortedDistinct(s))
    ensures forall y :: y in SortedDistinct(s) <==> y in s
  {
    if s != [] {
      var init := s[..|s| - 1];
      SortedDistinctSpec(init);
      InsertSortedSpec(s[|s| - 1], SortedDistinct(init));
      assert s == init + [s[|s| - 1]];
    }
  }

  predicate AllOwnersPresent(t: seq<Lead>) {
    forall k :: 0 <= k < |t| ==> t[k].owner.Some?
  }

  /** The Owner column as a list (every owner is filled after loading). */
  function Owners(t: seq<Lead>): (os: seq<string>)
    requires AllOwnersPresent(t)
    ensures |os| == |t| && forall k :: 0 <= k < |t| ==> Some(os[k]) == t[k].owner
  {
    seq(|t|, k requires 0 <= k < |t| => t[k].owner.value)
  }

  /** `sorted(df['Owner'].unique().tolist())`. */
  function OwnerList(t: seq<Lead>): seq<string>
    requires AllOwnersPresent(t)
  {
    SortedDistinct(Owners(t))
  }

  /** The owner list is sorted, has no repeats, and holds exactly the owners
      that occur in the table. */
  lemma OwnerListSpec(t: seq<Lead>)
    requires AllOwnersPresent(t)
    ensures StrictlySorted(OwnerList(t))
    ensures Distinct(OwnerList(t))
    ensures forall o :: o in OwnerList(t) <==> exists k :: 0 <= k < |t| && t[k].owner == Some(o)
  {
    var os := Owners(t);
    SortedDistinctSpec(os);
    var r := OwnerList(t);
    forall i, j | 0 <= i < j < |r| ensures r[i] != r[j] {
      LexLessIrreflexive(r[i]);
    }
    forall o ensures o in r <==> exists k :: 0 <= k < |t| && t[k].owner == Some(o) {
      if o in os {
        var k :| 0 <= k < |os| && os[k] == o;
        assert t[k].owner == Some(o);
      }
      if exists k :: 0 <= k < |t| && t[k].owner == Some(o) {
        var k :| 0 <= k < |t| && t[k].owner == Some(o);
        assert os[k] == o;
      }
    }
  }

  /** `df[df['Owner'] == selected]`. */
  function OwnerSlice(t: seq<Lead>, owner: string): seq<Lead> {
    Where(t, HasValue(OwnerOf, owner))
  }

  /** Every lead belongs to exactly one owner of the list: the slices of the
      listed owners together hold every lead. */
  lemma OwnerSlicesPartition(t: seq<Lead>)
    requires AllOwnersPresent(t)
    ensures SumCounts(t, OwnerOf, OwnerList(t)) == |t|
  {
    var os := OwnerList(t);
    OwnerListSpec(t);
    SumCountsDistinct(t, OwnerOf, os);
    forall k | 0 <= k < |t| ensures ValueIn(OwnerOf, os)(t[k]) {
      var o := t[k].owner.value;
      assert t[k].owner == Some(o);
      assert o in os;
      assert OwnerOf(t[k]) == Some(o);
    }
    forall l | l in t ensures ValueIn(OwnerOf, os)(l) {
      var k :| 0 <= k < |t| && t[k] == l;
    }
    WhereAll(t, ValueIn(OwnerOf, os));
  }

  /** The three metrics of the Salesperson Dashboard. */
  datatype OwnerKpis = OwnerKpis(total: nat, qualified: nat, interested: nat, conversionRate: real)

  /** The metrics over the selected owner's leads, or `None` when that owner
      has none and the page only warns. */
  function SalespersonKpis(t: seq<Lead>, owner: string): Option<OwnerKpis> {
    var mine := OwnerSlice(t, owner);
    if mine == [] then None
    else
      var qualified := CountOf(mine, StatusOf, "Qualified");
      Some(OwnerKpis(|mine|, qualified, CountOf(mine, InterestOf, "Interested"),
                     ConversionRate(qualified, |mine|)))
  }

  /** The selected owner's slice is empty exactly when no lead has that owner. */
  lemma OwnerSliceEmpty(t: seq<Lead>, owner: string)
    ensures OwnerSlice(t, owner) == [] <==> forall l :: l in t ==> l.owner != Some(owner)
  {
    if !forall l :: l in t ==> l.owner != Some(owner) {
      var l :| l in t && l.owner == Some(owner);
      assert OwnerOf(l) == Some(owner);
      WhereKeeps(t, HasValue(OwnerOf, owner), l);
    } else {
      forall l | l in t ensures !HasValue(OwnerOf, owner)(l) {
        assert OwnerOf(l) == l.owner;
      }
      WhereNone(t, HasValue(OwnerOf, owner));
    }
  }

  /** The salesperson metrics are computed over exactly the rows whose Owner
      is the selected one: the total counts those rows, the qualified and
      interested counts count the rows that are both the owner's and
      qualified (interested). They are absent exactly when the owner has no
      row. */
  lemma SalespersonKpisOverOwnerRows(t: seq<Lead>, owner: string)
    ensures SalespersonKpis(t, owner).None? <==> forall l :: l in t ==> l.owner != Some(owner)
    ensures SalespersonKpis(t, owner).Some? ==>
      var k := SalespersonKpis(t, owner).value;
      var mine := HasValue(OwnerOf, owner);
      && k.total == CountOf(t, OwnerOf, owner) > 0
      && k.qualified == Count(t, And(mine, HasValue(StatusOf, "Qualified")))
      && k.interested == Count(t, And(mine, HasValue(InterestOf, "Interested")))
      && k.qualified <= k.total && k.interested <= k.total
      && k.conversionRate == ConversionRate(k.qualified, k.total)
  {
    OwnerSliceEmpty(t, owner);
    WhereWhere(t, HasValue(OwnerOf, owner), HasValue(StatusOf, "Qualified"));
    WhereWhere(t, HasValue(OwnerOf, owner), HasValue(InterestOf, "Interested"));
  }

  lemma ListedOwnersHaveKpis(t: seq<Lead>, owner: string)
    requires AllOwnersPresent(t) && owner in OwnerList(t)
    ensures SalespersonKpis(t, owner).Some?
  {
    OwnerListSpec(t);
    SalespersonKpisOverOwnerRows(t, owner);
    var k :| 0 <= k < |t| && t[k].owner == Some(owner);
    assert t[k] in t;
  }
}
