/** The month grid of the history page's calendar
    (src/components/CalendarView.tsx, the `useMemo` computation): whole
    Sunday-to-Saturday weeks covering the selected month, each cell holding
    the checkins of its local day. Days are day numbers (see `CivilDate`);
    `formatDate` is the parameter `dayKey`, which names a local day. */
module CalendarView {
  import opened Types
  import opened CivilDate

  /** One cell: its day, that day's key, whether it lies in the selected
      month, and the checkins filed under its key. */
  datatype Cell = Cell(day: int, dateKey: string, isCurrentMonth: bool, checkins: seq<Checkin>)

  /** The key `formatDate(checkin.timestamp)` files a checkin under. */
  function KeyOf(c: Checkin, offset: int, dayKey: int -> string): string {
    dayKey(LocalDay(c.timestamp, offset))
  }

  /** The checkins filed under `key`, in input order. */
  function OnKey(checkins: seq<Checkin>, key: string, offset: int, dayKey: int -> string): (r: seq<Checkin>)
    ensures |r| <= |checkins|
    ensures forall c :: c in r <==> c in checkins && KeyOf(c, offset, dayKey) == key
  {
    if checkins == [] then []
    else
      var last := checkins[|checkins| - 1];
      OnKey(checkins[..|checkins| - 1], key, offset, dayKey)
      + (if KeyOf(last, offset, dayKey) == key then [last] else [])
  }

  /** The positions of the checkins filed under `key`, ascending. */
  function KeyIndices(checkins: seq<Checkin>, key: string, offset: int, dayKey: int -> string): (ix: seq<int>)
    ensures forall k :: 0 <= k < |ix| ==> 0 <= ix[k] < |checkins| && KeyOf(checkins[ix[k]], offset, dayKey) == key
    ensures forall j :: 0 <= j < |checkins| && KeyOf(checkins[j], offset, dayKey) == key ==> j in ix
    ensures forall k, l :: 0 <= k < l < |ix| ==> ix[k] < ix[l]
  {
    if checkins == [] then []
    else
      var n := |checkins| - 1;
      KeyIndices(checkins[..n], key, offset, dayKey) + (if KeyOf(checkins[n], offset, dayKey) == key then [n] else [])
  }

  /** The checkins filed under a key keep their input order, each once: the
      list holds the input at the matching positions, ascending. */
  lemma {:induction false} OnKeyInOrder(checkins: seq<Checkin>, key: string, offset: int, dayKey: int -> string)
    ensures var ix, r := KeyIndices(checkins, key, offset, dayKey), OnKey(checkins, key, offset, dayKey);
      |r| == |ix| && forall k :: 0 <= k < |ix| ==> r[k] == checkins[ix[k]]
  {
    if checkins != [] {
      var n := |checkins| - 1;
      var front := checkins[..n];
      OnKeyInOrder(front, key, offset, dayKey);
      var ix0 := KeyIndices(front, key, offset, dayKey);
      var f0 := OnKey(front, key, offset, dayKey);
      var hit := KeyOf(checkins[n], offset, dayKey) == key;
      OnKeyStep(checkins, key, offset, dayKey);
      PickSnoc(checkins, ix0, f0, hit);
    }
  }

  /** Both the filing and its positions grow by the last checkin exactly
      when it is filed under the key. */
  lemma OnKeyStep(checkins: seq<Checkin>, key: string, offset: int, dayKey: int -> string)
    requires checkins != []
    ensures var n, hit := |checkins| - 1, KeyOf(checkins[|checkins| - 1], offset, dayKey) == key;
      && OnKey(checkins, key, offset, dayKey)
           == OnKey(checkins[..n], key, offset, dayKey) + (if hit then [checkins[n]] else [])
      && KeyIndices(checkins, key, offset, dayKey)
           == KeyIndices(checkins[..n], key, offset, dayKey) + (if hit then [n] else [])
  {
  }

  /** Picking the last element too, or not, extends a pick of the earlier
      ones by that element, or by nothing. */
  lemma PickSnoc<T>(s: seq<T>, ix0: seq<int>, f0: seq<T>, hit: bool)
    requires |s| > 0
    requires forall k :: 0 <= k < |ix0| ==> 0 <= ix0[k] < |s| - 1
    requires |f0| == |ix0| && forall k :: 0 <= k < |ix0| ==> f0[k] == s[..|s| - 1][ix0[k]]
    ensures var ix, f := ix0 + (if hit then [|s| - 1] else []), f0 + (if hit then [s[|s| - 1]] else []);
      |f| == |ix| && forall k :: 0 <= k < |ix| ==> 0 <= ix[k] < |s| && f[k] == s[ix[k]]
  {
  }

  /** The checkins whose local day is `d`, in input order. */
  function OnDay(checkins: seq<Checkin>, d: int, offset: int): (r: seq<Checkin>)
    ensures forall c :: c in r <==> c in checkins && LocalDay(c.timestamp, offset) == d
  {
    if checkins == [] then []
    else
      var last := checkins[|checkins| - 1];
      OnDay(checkins[..|checkins| - 1], d, offset)
      + (if LocalDay(last.timestamp, offset) == d then [last] else [])
  }

  /** When the key names the day, filing by key is filing by day. */
  lemma {:induction false} OnKeyIsOnDay(checkins: seq<Checkin>, d: int, offset: int, dayKey: int -> string)
    requires forall a, b :: dayKey(a) == dayKey(b) ==> a == b
    ensures OnKey(checkins, dayKey(d), offset, dayKey) == OnDay(checkins, d, offset)
  {
    if checkins != [] {
      OnKeyIsOnDay(checkins[..|checkins| - 1], d, offset, dayKey);
    }
  }

  /** Filing one more checkin extends exactly its key's list. */
  lemma OnKeySnoc(s: seq<Checkin>, c: Checkin, key: string, offset: int, dayKey: int -> string)
    ensures OnKey(s + [c], key, offset, dayKey) ==
      OnKey(s, key, offset, dayKey) + (if KeyOf(c, offset, dayKey) == key then [c] else [])
  {
    assert (s + [c])[..|s|] == s;
  }

  /** `byDate` files exactly the checkins of `s`: a key is present when
      some checkin is filed under it, and maps to those checkins in order. */
  ghost predicate Grouped(byDate: map<string, seq<Checkin>>, s: seq<Checkin>, offset: int, dayKey: int -> string) {
    (forall k :: k in byDate <==> OnKey(s, k, offset, dayKey) != [])
    && (forall k :: k in byDate ==> byDate[k] == OnKey(s, k, offset, dayKey))
  }

  /** Appending checkin `c` to the list under its key files `s + [c]`. */
  lemma GroupStep(byDate: map<string, seq<Checkin>>, s: seq<Checkin>, c: Checkin, offset: int, dayKey: int -> string)
    requires Grouped(byDate, s, offset, dayKey)
    ensures var key := KeyOf(c, offset, dayKey);
      Grouped(byDate[key := (if key in byDate then byDate[key] else []) + [c]], s + [c], offset, dayKey)
  {
    var key := KeyOf(c, offset, dayKey);
    var after := byDate[key := (if key in byDate then byDate[key] else []) + [c]];
    forall k ensures k in after <==> OnKey(s + [c], k, offset, dayKey) != []
    {
      OnKeySnoc(s, c, k, offset, dayKey);
    }
    forall k | k in after ensures after[k] == OnKey(s + [c], k, offset, dayKey)
    {
      OnKeySnoc(s, c, k, offset, dayKey);
    }
  }

  /** The `checkinsByDate` map: each key that some checkin is filed under,
      mapped to exactly the checkins filed under it, in input order. */
  method GroupByDate(checkins: seq<Checkin>, offset: int, dayKey: int -> string)
    returns (byDate: map<string, seq<Checkin>>)
    ensures forall k :: k in byDate <==> OnKey(checkins, k, offset, dayKey) != []
    ensures forall k :: k in byDate ==> byDate[k] == OnKey(checkins, k, offset, dayKey)
  {
    byDate := map[];
    for i := 0 to |checkins|
      invariant Grouped(byDate, checkins[..i], offset, dayKey)
    {
      var checkin := checkins[i];
      var dateKey := KeyOf(checkin, offset, dayKey);
      GroupStep(byDate, checkins[..i], checkin, offset, dayKey);
      if dateKey !in byDate {
        byDate := byDate[dateKey := []];
      }
      byDate := byDate[dateKey := byDate[dateKey] + [checkin]];
      assert checkins[..i + 1] == checkins[..i] + [checkin];
    }
    assert checkins[..|checkins|] == checkins;
  }

  /** `new Date(year, month, 1)` and `new Date(year, month + 1, 0)`. */
  function FirstDay(year: int, month: int): int {
    MakeDay(JsYear(year), month, 1)
  }

  function LastDay(year: int, month: int): int {
    MakeDay(JsYear(year), month + 1, 0)
  }

  /** The first cell: `firstDay` moved back by its weekday. */
  function GridStart(year: int, month: int): int {
    FirstDay(year, month) - Weekday(FirstDay(year, month))
  }

  /** The last cell: `lastDay` moved forward to the next Saturday. */
  function GridEnd(year: int, month: int): int {
    LastDay(year, month) + (6 - Weekday(LastDay(year, month)))
  }

  /** The cell of day `d` in the grid of month `month`. */
  function CellOf(d: int, month: int, checkins: seq<Checkin>, offset: int, dayKey: int -> string): Cell {
    Cell(d, dayKey(d), MonthOf(d) == month, OnKey(checkins, dayKey(d), offset, dayKey))
  }

  /** The cells of one week: seven consecutive days from `start`, each
      holding the checkins `byDate` files under its key. */
  method BuildWeek(start: int, month: int, byDate: map<string, seq<Checkin>>, ghost checkins: seq<Checkin>,
                   offset: int, dayKey: int -> string)
    returns (week: seq<Cell>)
    requires Grouped(byDate, checkins, offset, dayKey)
    ensures |week| == 7
    ensures forall j :: 0 <= j < 7 ==> week[j] == CellOf(start + j, month, checkins, offset, dayKey)
  {
    week := [];
    var currentDate := start;
    for i := 0 to 7
      invariant |week| == i && currentDate == start + i
      invariant forall j :: 0 <= j < i ==> week[j] == CellOf(start + j, month, checkins, offset, dayKey)
    {
      var date := currentDate;
      var dateKey := dayKey(date);
      var isCurrentMonth := MonthOf(date) == month;
      var dayCheckins := if dateKey in byDate then byDate[dateKey] else [];
      assert dayCheckins == OnKey(checkins, dateKey, offset, dayKey);
      week := week + [Cell(date, dateKey, isCurrentMonth, dayCheckins)];
      currentDate := currentDate + 1;
    }
  }

  /** The grid of month `month` (0 to 11) of `year`, as `getFullYear()` and
      `getMonth()` give them: consecutive weeks of seven cells from
      `GridStart` to `GridEnd`, the cell in week `w` at position `i` being
      day `GridStart + 7 * w + i`. */
  method BuildCalendar(year: int, month: int, checkins: seq<Checkin>, offset: int, dayKey: int -> string)
    returns (weeks: seq<seq<Cell>>)
    ensures 7 * |weeks| == GridEnd(year, month) - GridStart(year, month) + 1
    ensures forall w :: 0 <= w < |weeks| ==> |weeks[w]| == 7
    ensures forall w, i :: 0 <= w < |weeks| && 0 <= i < 7 ==>
      weeks[w][i] == CellOf(GridStart(year, month) + 7 * w + i, month, checkins, offset, dayKey)
  {
    var firstDay := MakeDay(JsYear(year), month, 1);
    var lastDay := MakeDay(JsYear(year), month + 1, 0);
    var startDate := firstDay - Weekday(firstDay);
    var endDate := lastDay + (6 - Weekday(lastDay));
    GridBounds(year, month);
    ghost var n := GridWeeks(year, month);
    assert startDate == GridStart(year, month) && endDate == GridEnd(year, month);
    var byDate := GroupByDate(checkins, offset, dayKey);
    weeks := BuildWeeks(startDate, endDate, n, month, byDate, checkins, offset, dayKey);
    assert WeeksFrom(weeks, GridStart(year, month), month, checkins, offset, dayKey);
  }

  /** `weeks` are whole weeks of cells, week `w` starting at day
      `startDate + 7 * w`. */
  ghost predicate WeeksFrom(weeks: seq<seq<Cell>>, startDate: int, month: int, checkins: seq<Checkin>,
                            offset: int, dayKey: int -> string)
  {
    && (forall w :: 0 <= w < |weeks| ==> |weeks[w]| == 7)
    && (forall w, i :: 0 <= w < |weeks| && 0 <= i < 7 ==>
          weeks[w][i] == CellOf(startDate + 7 * w + i, month, checkins, offset, dayKey))
  }

  /** Appending the week that starts right after them keeps them whole
      weeks in order. */
  lemma WeeksStep(weeks: seq<seq<Cell>>, week: seq<Cell>, start: int, startDate: int, month: int,
                  checkins: seq<Checkin>, offset: int, dayKey: int -> string)
    requires WeeksFrom(weeks, startDate, month, checkins, offset, dayKey)
    requires start == startDate + 7 * |weeks|
    requires |week| == 7
    requires forall i :: 0 <= i < 7 ==> week[i] == CellOf(start + i, month, checkins, offset, dayKey)
    ensures WeeksFrom(weeks + [week], startDate, month, checkins, offset, dayKey)
  {
    var ws := weeks + [week];
    forall w, i | 0 <= w < |ws| && 0 <= i < 7
      ensures ws[w][i] == CellOf(startDate + 7 * w + i, month, checkins, offset, dayKey)
    {
      if w < |weeks| {
        assert ws[w] == weeks[w];
      } else {
        assert ws[w] == week && start + i == startDate + 7 * w + i;
      }
    }
  }

  /** The `while (currentDate <= endDate)` loop: whole weeks from
      `startDate` until `endDate` is passed. */
  method BuildWeeks(startDate: int, endDate: int, ghost n: int, month: int, byDate: map<string, seq<Checkin>>,
                    ghost checkins: seq<Checkin>, offset: int, dayKey: int -> string)
    returns (weeks: seq<seq<Cell>>)
    requires Grouped(byDate, checkins, offset, dayKey)
    requires 0 <= n && 7 * n == endDate - startDate + 1
    ensures |weeks| == n
    ensures WeeksFrom(weeks, startDate, month, checkins, offset, dayKey)
  {
    weeks := [];
    var currentDate := startDate;
    while currentDate <= endDate
      invariant currentDate == startDate + 7 * |weeks| && |weeks| <= n
      invariant WeeksFrom(weeks, startDate, month, checkins, offset, dayKey)
      decreases endDate - currentDate
    {
      var week := BuildWeek(currentDate, month, byDate, checkins, offset, dayKey);
      WeeksStep(weeks, week, currentDate, startDate, month, checkins, offset, dayKey);
      weeks := weeks + [week];
      currentDate := currentDate + 7;
    }
  }

  /** The number of weeks the grid has. */
  function GridWeeks(year: int, month: int): int {
    (GridEnd(year, month) - GridStart(year, month) + 1) / 7
  }

  /** Moving day `f` back by its weekday reaches a Sunday less than a week
      before it; moving day `l` forward to a Saturday reaches one less than a
      week after it; the days from the one to the other are whole weeks. */
  lemma WeekArithmetic(f: int, l: int)
    ensures Weekday(f - Weekday(f)) == 0
    ensures Weekday(l + (6 - Weekday(l))) == 6
    ensures (l + (6 - Weekday(l)) - (f - Weekday(f)) + 1) % 7 == 0
  {
    var v := Weekday(l);
    assert (l + 4 - v) % 7 == 0;
    assert l + (6 - v) + 4 == (l + 4 - v) + 6;
  }

  /** The 1st is the first day of month index `12 * year + month`, and
      the last day is the day before the next month index starts. */
  lemma MonthEnds(year: int, month: int)
    ensures FirstDay(year, month) == MonthStart(12 * JsYear(year) + month)
    ensures LastDay(year, month) == MonthStart(12 * JsYear(year) + month + 1) - 1
  {
  }

  /** The grid starts on the Sunday on or before the 1st and ends on the
      Saturday on or after the month's last day; it spans whole weeks. */
  lemma GridBounds(year: int, month: int)
    ensures Weekday(GridStart(year, month)) == 0
    ensures GridStart(year, month) <= FirstDay(year, month) < GridStart(year, month) + 7
    ensures Weekday(GridEnd(year, month)) == 6
    ensures LastDay(year, month) <= GridEnd(year, month) < LastDay(year, month) + 7
    ensures 7 * GridWeeks(year, month) == GridEnd(year, month) - GridStart(year, month) + 1
  {
    var f, l := FirstDay(year, month), LastDay(year, month);
    WeekArithmetic(f, l);
    assert GridStart(year, month) == f - Weekday(f);
    assert GridEnd(year, month) == l + (6 - Weekday(l));
  }

  /** Neighbouring month indices are different months of the year. */
  lemma NeighbourMonths(mi: int)
    ensures (mi - 1) % 12 != mi % 12 && (mi + 1) % 12 != mi % 12
  {
    NextMonthIndex(mi);
    NextMonthIndex(mi - 1);
  }

  /** A cell is marked as in the current month exactly when its day lies
      between the 1st and the last day of the month: the days the grid
      borrows from the weeks around the month are marked as outside it. */
  lemma {:induction false} CurrentMonthIff(year: int, month: int, d: int, checkins: seq<Checkin>, offset: int, dayKey: int -> string)
    requires 0 <= month < 12
    requires GridStart(year, month) <= d <= GridEnd(year, month)
    ensures CellOf(d, month, checkins, offset, dayKey).isCurrentMonth <==> FirstDay(year, month) <= d <= LastDay(year, month)
  {
    var mi := 12 * JsYear(year) + month;
    MonthEnds(year, month);
    GridBounds(year, month);
    DivUnique(mi, 12, JsYear(year));
    MonthOfNear(mi, d);
  }

  /** Within a week of month `mi`, a day is in that month of the year
      exactly when it is in month `mi`. */
  lemma MonthOfNear(mi: int, d: int)
    requires MonthStart(mi) - 7 < d < MonthStart(mi + 1) + 7
    ensures MonthOf(d) == mi % 12 <==> MonthStart(mi) <= d < MonthStart(mi + 1)
  {
    NeighbourMonths(mi);
    if d < MonthStart(mi) {
      MonthGrowth(mi - 1);
      MonthIndexUnique(d, mi - 1);
    } else if d < MonthStart(mi + 1) {
      MonthIndexUnique(d, mi);
    } else {
      MonthGrowth(mi + 1);
      MonthIndexUnique(d, mi + 1);
    }
  }

  /** Every day of the month has a cell, at one position of the grid. */
  lemma MonthCovered(year: int, month: int, d: int)
    requires FirstDay(year, month) <= d <= LastDay(year, month)
    ensures 0 <= (d - GridStart(year, month)) / 7 < GridWeeks(year, month)
    ensures GridStart(year, month) + 7 * ((d - GridStart(year, month)) / 7) + (d - GridStart(year, month)) % 7 == d
  {
    GridBounds(year, month);
  }

  /** The grid has four to six weeks, and four only for a 28-day February
      that starts on a Sunday. */
  lemma GridWeeksRange(year: int, month: int)
    requires 0 <= month < 12
    ensures 4 <= GridWeeks(year, month) <= 6
    ensures GridWeeks(year, month) == 4 <==>
      LastDay(year, month) - FirstDay(year, month) == 27 && Weekday(FirstDay(year, month)) == 0
  {
    var mi := 12 * JsYear(year) + month;
    MonthEnds(year, month);
    GridBounds(year, month);
    MonthLength(mi);
    var n := GridWeeks(year, month);
    var total := GridEnd(year, month) - GridStart(year, month) + 1;
    assert 28 <= total <= 43;
    if n < 4 {
      MulMonotone(7, n, 3);
    }
    if n > 6 {
      MulMonotone(7, 7, n);
    }
  }

  /** With a key that names one day only, a cell holds exactly the
      checkins made on its local day, in input order. */
  lemma CellCheckins(d: int, month: int, checkins: seq<Checkin>, offset: int, dayKey: int -> string)
    requires forall a, b :: dayKey(a) == dayKey(b) ==> a == b
    ensures CellOf(d, month, checkins, offset, dayKey).checkins == OnDay(checkins, d, offset)
  {
    OnKeyIsOnDay(checkins, d, offset, dayKey);
  }
}
