/** The month overview (`src/components/VistaMensual.jsx`): what a day of a
    property shows, the occupied and free counts, and the client legend.
    The overview keys day maps by `${planilla}_${month}_${year}`. */
module Overview {
  import opened JsObject
  import Calendar
  import JsText
  import opened StorageKeys
  import opened Bookings
  import ClientList

  /** `getDayData(planilla, day)`: the entry stored for that day of the
      property in `month` of `year`, if the key and the day are present. */
  function DayData(l: Ledger, year: int, month: string, p: string, day: int): (o: Option<Entry>)
    ensures o.Some? <==> 1 <= day <= MaxDay && day in Sheet(l, StorageKey(p, month, year))
    ensures o.Some? ==> StorageKey(p, month, year) in l && o.value == l[StorageKey(p, month, year)][day]
  {
    var dm := Sheet(l, StorageKey(p, month, year));
    if 1 <= day <= MaxDay && day in dm then Some(dm[day]) else None
  }

  /** A booking saved under the year-qualified key shows on every day of its
      range, with the trimmed name and no amount. */
  lemma DayDataShowsCreated(l: Ledger, year: int, p: string, month: string, currentYear: int,
                            entrada: Option<int>, salida: Option<int>, cliente: string, day: int,
                            r: Ledger)
    requires CreateBooking(l, MonthAndYear(year), p, month, currentYear, entrada, salida, cliente) == Saved(r)
    requires entrada.value <= day <= salida.value
    ensures var o := DayData(r, year, month, p, day);
      o.Some? && o.value.cliente == JsText.Trim(cliente) && o.value.total.None?
  {
    CreateWrites(l, MonthAndYear(year), p, month, currentYear, entrada, salida, cliente, r);
  }

  /** One entry of `stats`: occupied and free days. */
  datatype Occupancy = Occupancy(ocupados: nat, libres: int)

  /** `ocupados` counts the day keys, `libres` is what the month has left:
      when every booked day lies inside the month, the number of days of the
      month that hold no entry. */
  function Stats(dm: DayLedger, daysInMonth: int): (s: Occupancy)
    ensures s.ocupados == |dm.Keys| && s.ocupados + s.libres == daysInMonth
    ensures 0 <= daysInMonth <= MaxDay && (forall d | d in dm :: d <= daysInMonth) ==>
      s.libres == |DaysUpTo(daysInMonth) - dm.Keys|
  {
    var s := Occupancy(|dm|, daysInMonth - |dm|);
    if 0 <= daysInMonth <= MaxDay && (forall d | d in dm :: d <= daysInMonth) then
      CountOutside(DaysUpTo(daysInMonth), dm.Keys);
      s
    else s
  }

  /** `stats[planilla]` for `month` of `year`: the sheet's day keys, and the
      days of the month without an entry. */
  function PropertyStats(l: Ledger, year: int, month: string, p: string): (s: Occupancy)
    ensures var dm := Sheet(l, StorageKey(p, month, year));
      var n := Calendar.DaysInMonth(month, year);
      && s.ocupados == |dm.Keys| && s.ocupados + s.libres == n
      && ((forall d | d in dm :: d <= n) ==> s.libres == |DaysUpTo(n) - dm.Keys|)
  {
    Stats(Sheet(l, StorageKey(p, month, year)), Calendar.DaysInMonth(month, year))
  }

  /** The days `1..n`, and there are `n` of them. */
  function DaysUpTo(n: int): (s: set<Day>)
    requires 0 <= n <= MaxDay
    ensures forall d: Day :: d in s <==> d <= n
    ensures |s| == n
    decreases n
  {
    if n == 0 then {} else
      var pre := DaysUpTo(n - 1);
      assert (n as Day) !in pre;
      pre + {n as Day}
  }

  /** Taking a subset out of a set leaves the difference of their sizes. */
  lemma CountOutside(all: set<Day>, taken: set<Day>)
    requires taken <= all
    ensures |all - taken| == |all| - |taken|
  {
    assert all == (all - taken) + taken;
    assert (all - taken) * taken == {};
  }

  /** `clientesUnicos` after visiting `cs`: a `Set` lists names in the order
      they were first added; entries without a client are skipped. */
  function Legend(cs: seq<Cell>): seq<string>
    decreases |cs|
  {
    if |cs| == 0 then []
    else
      var pre := Legend(cs[..|cs| - 1]);
      var n := cs[|cs| - 1].entry.cliente;
      if n == "" || n in pre then pre else pre + [n]
  }

  /** The legend of `month` of `year` over the properties `ps`. */
  function MonthLegend(l: Ledger, year: int, month: string, ps: seq<string>): seq<string>
  {
    Legend(MonthCells(l, MonthAndYear(year), month, ps))
  }

  /** The legend lists the clients in the order the client list does, when
      both read the same keys. */
  lemma {:induction false} LegendIsClientOrder(cs: seq<Cell>)
    ensures Legend(cs) == KeysOf(ClientList.GroupCells(cs))
    decreases |cs|
  {
    if |cs| > 0 {
      var pre := cs[..|cs| - 1];
      LegendIsClientOrder(pre);
      var g := ClientList.GroupCells(pre);
      var n := cs[|cs| - 1].entry.cliente;
      assert (n in KeysOf(g)) == Get(g, n).Some? by {
        assert forall i | 0 <= i < |g| :: KeysOf(g)[i] == g[i].0;
      }
    }
  }

  /** The legend names every client of the listed properties of the month,
      each once, and nothing else. */
  lemma LegendMembers(l: Ledger, year: int, month: string, ps: seq<string>)
    ensures Distinct(MonthLegend(l, year, month, ps))
    ensures forall n :: n in MonthLegend(l, year, month, ps) <==>
      n != "" && exists p, d: Day | p in ps :: ClientList.Holds(l, MonthAndYear(year), month, p, d, n)
  {
    var cs := MonthCells(l, MonthAndYear(year), month, ps);
    var g := ClientList.GroupByClient(l, MonthAndYear(year), month, ps);
    LegendIsClientOrder(cs);
    assert Distinct(KeysOf(g)) by {
      forall i, j | 0 <= i < j < |g| ensures KeysOf(g)[i] != KeysOf(g)[j] {
        assert KeysOf(g)[i] == g[i].0 && KeysOf(g)[j] == g[j].0;
      }
    }
    forall n ensures n in KeysOf(g) <==> Get(g, n).Some? {
      assert forall i | 0 <= i < |g| :: KeysOf(g)[i] == g[i].0;
    }
    forall n ensures Get(g, n).Some? <==>
      n != "" && exists p, d: Day | p in ps :: ClientList.Holds(l, MonthAndYear(year), month, p, d, n)
    {
      ClientList.GroupedClients(l, MonthAndYear(year), month, ps, n);
    }
  }
}
