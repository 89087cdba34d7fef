/** The aggregation loop of the statistics page. */
module ReaderStats {
  import opened ReaderTrend
  import opened LocationDistricts

  /** One grouped row of the query. */
  datatype Row = Row(group: Group, category: string, date: int, total: nat, available: nat)

  datatype Stats = Stats(all: Count, mapped: nat, outside: nat, unassigned: nat,
                         districts: map<string, Count>, categories: map<string, Count>, days: map<int, Count>)

  datatype Selection = All | Mapped | In(group: Group) | OfCategory(category: string) | OnDate(date: int) | InAny(ids: seq<string>)

  predicate Selects(selection: Selection, row: Row) {
    match selection
    case All => true
    case Mapped => row.group.InDistrict?
    case In(group) => row.group == group
    case OfCategory(category) => row.category == category
    case OnDate(date) => row.date == date
    case InAny(ids) => row.group.InDistrict? && row.group.id in ids
  }

  function Selected(row: Row, selection: Selection): Count {
    if Selects(selection, row) then CountOf(row) else Count(0, 0)
  }

  /** The selected ones of the first `n` rows, added up. */
  function Sum(rows: seq<Row>, n: nat, selection: Selection): Count
    requires n <= |rows|
  {
    if n == 0 then Count(0, 0) else Plus(Sum(rows, n - 1, selection), Selected(rows[n - 1], selection))
  }

  function Known(counts: map<string, Count>, key: string): Count { if key in counts then counts[key] else Count(0, 0) }

  function Raise(counts: map<string, Count>, key: string, c: Count): map<string, Count> { counts[key := Plus(Known(counts, key), c)] }

  function KnownDay(counts: map<int, Count>, date: int): Count { if date in counts then counts[date] else Count(0, 0) }

  function RaiseDay(counts: map<int, Count>, date: int, c: Count): map<int, Count> { counts[date := Plus(KnownDay(counts, date), c)] }

  ghost predicate GroupTotals(rows: seq<Row>, n: nat, s: Stats)
    requires n <= |rows|
  {
    && s.all == Sum(rows, n, All)
    && s.mapped == Sum(rows, n, Mapped).total && s.outside == Sum(rows, n, In(Outside)).total && s.unassigned == Sum(rows, n, In(Unassigned)).total
  }

  ghost predicate DistrictTotals(rows: seq<Row>, n: nat, districts: set<string>, counts: map<string, Count>)
    requires n <= |rows|
  {
    counts.Keys == districts && forall id | id in districts :: counts[id] == Sum(rows, n, In(InDistrict(id)))
  }

  ghost predicate CategoryTotals(rows: seq<Row>, n: nat, counts: map<string, Count>)
    requires n <= |rows|
  {
    forall category :: Known(counts, category) == Sum(rows, n, OfCategory(category))
  }

  ghost predicate DayTotals(rows: seq<Row>, n: nat, counts: map<int, Count>)
    requires n <= |rows|
  {
    forall date :: KnownDay(counts, date) == Sum(rows, n, OnDate(date))
  }

  /** Every count is the sum of the rows it stands for. */
  ghost predicate Totals(rows: seq<Row>, n: nat, districts: set<string>, s: Stats)
    requires n <= |rows|
  {
    && GroupTotals(rows, n, s) && DistrictTotals(rows, n, districts, s.districts)
    && CategoryTotals(rows, n, s.categories) && DayTotals(rows, n, s.days)
  }

  ghost predicate AllKnown(rows: seq<Row>, districts: set<string>) {
    forall row | row in rows :: row.group.InDistrict? ==> row.group.id in districts
  }

  function AddRow(s: Stats, row: Row): Stats {
    Stats(Plus(s.all, CountOf(row)),
          if row.group.InDistrict? then s.mapped + row.total else s.mapped,
          if row.group == Outside then s.outside + row.total else s.outside,
          if row.group == Unassigned then s.unassigned + row.total else s.unassigned,
          if row.group.InDistrict? then Raise(s.districts, row.group.id, CountOf(row)) else s.districts,
          Raise(s.categories, row.category, CountOf(row)), RaiseDay(s.days, row.date, CountOf(row)))
  }

  lemma AddGroups(rows: seq<Row>, n: nat, s: Stats)
    requires n < |rows| && GroupTotals(rows, n, s)
    ensures GroupTotals(rows, n + 1, AddRow(s, rows[n]))
  {
  }

  lemma AddDistrict(rows: seq<Row>, n: nat, districts: set<string>, s: Stats)
    requires n < |rows| && DistrictTotals(rows, n, districts, s.districts) && (rows[n].group.InDistrict? ==> rows[n].group.id in districts)
    ensures DistrictTotals(rows, n + 1, districts, AddRow(s, rows[n]).districts)
  {
    assert AddRow(s, rows[n]).districts.Keys == districts;
  }

  function CountOf(row: Row): Count { Count(row.total, row.available) }

  lemma AddCategory(rows: seq<Row>, n: nat, counts: map<string, Count>)
    requires n < |rows| && CategoryTotals(rows, n, counts)
    ensures CategoryTotals(rows, n + 1, Raise(counts, rows[n].category, CountOf(rows[n])))
  {
    forall category ensures Known(Raise(counts, rows[n].category, CountOf(rows[n])), category) == Sum(rows, n + 1, OfCategory(category)) {
      AddOne(rows, n, OfCategory(category));
      RaisedOther(counts, rows[n].category, category, CountOf(rows[n]));
    }
  }

  lemma RaisedOther(counts: map<string, Count>, raised: string, key: string, c: Count)
    ensures Known(Raise(counts, raised, c), key) == if raised == key then Plus(Known(counts, key), c) else Known(counts, key)
  {
  }

  lemma AddDay(rows: seq<Row>, n: nat, counts: map<int, Count>)
    requires n < |rows| && DayTotals(rows, n, counts)
    ensures DayTotals(rows, n + 1, RaiseDay(counts, rows[n].date, CountOf(rows[n])))
  {
    forall date ensures KnownDay(RaiseDay(counts, rows[n].date, CountOf(rows[n])), date) == Sum(rows, n + 1, OnDate(date)) {
      AddOne(rows, n, OnDate(date));
      RaisedDay(counts, rows[n].date, date, CountOf(rows[n]));
    }
  }

  lemma RaisedDay(counts: map<int, Count>, raised: int, date: int, c: Count)
    ensures KnownDay(RaiseDay(counts, raised, c), date) == if raised == date then Plus(KnownDay(counts, date), c) else KnownDay(counts, date)
  {
  }

  lemma AddOne(rows: seq<Row>, n: nat, selection: Selection)
    requires n < |rows|
    ensures Sum(rows, n + 1, selection) == Plus(Sum(rows, n, selection), Selected(rows[n], selection))
  {
  }

  lemma AddRowTotals(rows: seq<Row>, n: nat, districts: set<string>, s: Stats)
    requires n < |rows| && Totals(rows, n, districts, s) && (rows[n].group.InDistrict? ==> rows[n].group.id in districts)
    ensures Totals(rows, n + 1, districts, AddRow(s, rows[n]))
  {
    AddGroups(rows, n, s);
    AddDistrict(rows, n, districts, s);
    AddCategory(rows, n, s.categories);
    AddDay(rows, n, s.days);
  }

  /** Not ok stands for the error about a district that is not registered. */
  method Aggregate(rows: seq<Row>, districts: set<string>) returns (ok: bool, s: Stats)
    ensures ok <==> AllKnown(rows, districts)
    ensures ok ==> Totals(rows, |rows|, districts, s)
  {
    s := Stats(Count(0, 0), 0, 0, 0, map id | id in districts :: Count(0, 0), map[], map[]);
    for k := 0 to |rows|
      invariant Totals(rows, k, districts, s) && AllKnown(rows[..k], districts)
    {
      var row := rows[k];
      assert rows[..k + 1] == rows[..k] + [row] && row in rows;
      if row.group.InDistrict? && row.group.id !in districts {
        return false, s;
      }
      AddRowTotals(rows, k, districts, s);
      s := AddRow(s, row);
    }
    assert rows[..|rows|] == rows;
    ok := true;
  }

  // ----- conservation -----

  /** Every report is mapped, outside or unassigned. */
  lemma {:induction false} GroupsAddUp(rows: seq<Row>, n: nat)
    requires n <= |rows|
    ensures Sum(rows, n, All).total == Sum(rows, n, Mapped).total + Sum(rows, n, In(Outside)).total + Sum(rows, n, In(Unassigned)).total
    decreases n
  {
    if n > 0 { GroupsAddUp(rows, n - 1); }
  }

  /** The counts of a list of districts. */
  function SumDistricts(counts: map<string, Count>, ids: seq<string>): nat {
    if ids == [] then 0 else SumDistricts(counts, ids[..|ids| - 1]) + Known(counts, ids[|ids| - 1]).total
  }

  lemma {:induction false} OneMoreDistrict(rows: seq<Row>, n: nat, ids: seq<string>, id: string)
    requires id !in ids && n <= |rows|
    ensures Sum(rows, n, InAny(ids + [id])).total == Sum(rows, n, InAny(ids)).total + Sum(rows, n, In(InDistrict(id))).total
    decreases n
  {
    if n > 0 { OneMoreDistrict(rows, n - 1, ids, id); }
  }

  lemma {:induction false} NoDistrict(rows: seq<Row>, n: nat)
    requires n <= |rows|
    ensures Sum(rows, n, InAny([])) == Count(0, 0)
    decreases n
  {
    if n > 0 { NoDistrict(rows, n - 1); }
  }

  lemma {:induction false} DistrictsAddUp(rows: seq<Row>, districts: set<string>, s: Stats, ids: seq<string>)
    requires DistrictTotals(rows, |rows|, districts, s.districts)
    requires (forall i, j | 0 <= i < j < |ids| :: ids[i] != ids[j]) && forall id | id in ids :: id in districts
    ensures SumDistricts(s.districts, ids) == Sum(rows, |rows|, InAny(ids)).total
    decreases |ids|
  {
    if ids == [] {
      NoDistrict(rows, |rows|);
    } else {
      var front, id := ids[..|ids| - 1], ids[|ids| - 1];
      assert ids == front + [id] && id in ids;
      DistrictsAddUp(rows, districts, s, front);
      OneMoreDistrict(rows, |rows|, front, id);
    }
  }

  lemma {:induction false} AllDistrictsAreAny(rows: seq<Row>, n: nat, ids: seq<string>)
    requires n <= |rows| && forall row | row in rows && row.group.InDistrict? :: row.group.id in ids
    ensures Sum(rows, n, InAny(ids)) == Sum(rows, n, Mapped)
    decreases n
  {
    if n > 0 {
      assert rows[n - 1] in rows;
      AllDistrictsAreAny(rows, n - 1, ids);
    }
  }

  /** Nothing is lost or counted twice: the districts add up to what is mapped, and with the rest to the total. */
  lemma StatsAreConserved(rows: seq<Row>, districts: set<string>, s: Stats, ids: seq<string>)
    requires AllKnown(rows, districts) && Totals(rows, |rows|, districts, s)
    requires (forall id :: id in ids <==> id in districts) && forall i, j | 0 <= i < j < |ids| :: ids[i] != ids[j]
    ensures s.mapped + s.outside + s.unassigned == s.all.total && SumDistricts(s.districts, ids) == s.mapped
  {
    GroupsAddUp(rows, |rows|);
    DistrictsAddUp(rows, districts, s, ids);
    AllDistrictsAreAny(rows, |rows|, ids);
  }

  // ----- what the counters count -----

  /** One number of the first `n` rows, added up over those that are picked. */
  ghost function Added(rows: seq<Row>, n: nat, picked: Row -> bool, number: Row -> nat): nat
    requires n <= |rows|
  {
    if n == 0 then 0 else Added(rows, n - 1, picked, number) + if picked(rows[n - 1]) then number(rows[n - 1]) else 0
  }

  ghost predicate Counts(rows: seq<Row>, picked: Row -> bool, c: Count) {
    c.total == Added(rows, |rows|, picked, (row: Row) => row.total) && c.available == Added(rows, |rows|, picked, (row: Row) => row.available)
  }

  lemma {:induction false} SumIsAdded(rows: seq<Row>, n: nat, selection: Selection, picked: Row -> bool)
    requires n <= |rows| && forall row :: Selects(selection, row) == picked(row)
    ensures Sum(rows, n, selection).total == Added(rows, n, picked, (row: Row) => row.total)
    ensures Sum(rows, n, selection).available == Added(rows, n, picked, (row: Row) => row.available)
    decreases n
  {
    if n > 0 { SumIsAdded(rows, n - 1, selection, picked); }
  }

  /** Both numbers of every counter are added up over exactly the rows it stands for: of all groups, of a district, of a
  category, of a day; reports of no district and reports from outside are counted apart. */
  lemma CountersAreExact(rows: seq<Row>, districts: set<string>, s: Stats)
    requires Totals(rows, |rows|, districts, s)
    ensures Counts(rows, (row: Row) => true, s.all)
    ensures s.mapped == Added(rows, |rows|, (row: Row) => row.group.InDistrict?, (row: Row) => row.total)
    ensures s.outside == Added(rows, |rows|, (row: Row) => row.group == Outside, (row: Row) => row.total)
    ensures s.unassigned == Added(rows, |rows|, (row: Row) => row.group == Unassigned, (row: Row) => row.total)
    ensures s.districts.Keys == districts && forall id | id in districts :: Counts(rows, (row: Row) => row.group == InDistrict(id), s.districts[id])
    ensures forall category :: Counts(rows, (row: Row) => row.category == category, if category in s.categories then s.categories[category] else Count(0, 0))
    ensures forall date :: Counts(rows, (row: Row) => row.date == date, if date in s.days then s.days[date] else Count(0, 0))
  {
    SumIsAdded(rows, |rows|, All, (row: Row) => true);
    SumIsAdded(rows, |rows|, Mapped, (row: Row) => row.group.InDistrict?);
    SumIsAdded(rows, |rows|, In(Outside), (row: Row) => row.group == Outside);
    SumIsAdded(rows, |rows|, In(Unassigned), (row: Row) => row.group == Unassigned);
    forall id | id in districts ensures Counts(rows, (row: Row) => row.group == InDistrict(id), s.districts[id]) {
      SumIsAdded(rows, |rows|, In(InDistrict(id)), (row: Row) => row.group == InDistrict(id));
    }
    forall category ensures Counts(rows, (row: Row) => row.category == category, if category in s.categories then s.categories[category] else Count(0, 0)) {
      SumIsAdded(rows, |rows|, OfCategory(category), (row: Row) => row.category == category);
      assert Known(s.categories, category) == Sum(rows, |rows|, OfCategory(category));
    }
    forall date ensures Counts(rows, (row: Row) => row.date == date, if date in s.days then s.days[date] else Count(0, 0)) {
      SumIsAdded(rows, |rows|, OnDate(date), (row: Row) => row.date == date);
      assert KnownDay(s.days, date) == Sum(rows, |rows|, OnDate(date));
    }
  }
}
