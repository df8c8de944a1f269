/** The reservation ledger of the booking form (`src/components/Calendar.jsx`):
    entries, the colour hash, the order in which the components visit a
    month's entries, the conflict scan and `handleAgendar`. */
module Bookings {
  import opened JsObject
  import JsText
  import Calendar
  import opened StorageKeys

  /** The largest day number any month has; every day the components write
      has passed a check against the month's length. */
  const MaxDay := 31

  /** A day key of a property's month. */
  type Day = d: int | 1 <= d <= MaxDay witness 1

  /** One booked day, `{cliente, color, total}`; `total` stays absent until
      an amount is set from the client list. */
  datatype Entry = Entry(cliente: string, color: string, total: Option<real>)

  /** One property's month: day → entry. */
  type DayLedger = map<Day, Entry>

  /** `planillasData`: storage key → that key's days. */
  type Ledger = map<string, DayLedger>

  /** `PLANILLAS` of the booking form, the client list and the overview. */
  const Properties: seq<string> := ["Depto 1", "Depto 2", "Depto 3", "Depto 4", "Casa"]

  /** `COLORS`: opaque palette tokens. */
  const Colors: seq<string> := [
    "bg-emerald-400", "bg-blue-400", "bg-violet-400", "bg-pink-400",
    "bg-amber-400", "bg-orange-400", "bg-red-400", "bg-teal-400"
  ]

  /** `planillasData[key] || {}`. */
  function Sheet(l: Ledger, key: string): DayLedger
  {
    if key in l then l[key] else map[]
  }

  /** `getClientColor(name)` for a string `name`: the palette entry picked by
      the sum of the first UTF-16 units of its code points, modulo 8. */
  function ClientColor(name: string): (c: string)
    ensures c in Colors && c != ""
  {
    Colors[JsText.CharCodeSum(name) % |Colors|]
  }

  /** The colour depends on which characters a name holds, not on their
      order: swapping the two halves of a name keeps its colour. */
  lemma ClientColorSwap(a: string, b: string)
    ensures ClientColor(a + b) == ClientColor(b + a)
  {
    JsText.CharCodeSumConcat(a, b);
    JsText.CharCodeSumConcat(b, a);
  }

  /** `getClientColor(v)` for any value: `v` is None when it is not a
      string, and then the colour is empty. */
  function ColorOfValue(v: Option<string>): (c: string)
    ensures c == "" <==> v.None?
    ensures v.Some? ==> c == ClientColor(v.value)
  {
    match v
    case None => ""
    case Some(name) => ClientColor(name)
  }

  // ---------------------------------------------------------------------
  // Visiting order. `Object.entries` of a day map lists integer keys in
  // ascending order; the components walk the properties of a list in order
  // and, inside each, the days in that order.

  /** One entry as a visit sees it. */
  datatype Cell = Cell(planilla: string, day: Day, entry: Entry)

  /** The client names of a visit, in order. */
  function Names(cs: seq<Cell>): (ns: seq<string>)
    ensures |ns| == |cs| && forall i | 0 <= i < |cs| :: ns[i] == cs[i].entry.cliente
  {
    seq(|cs|, i requires 0 <= i < |cs| => cs[i].entry.cliente)
  }

  lemma NamesConcat(a: seq<Cell>, b: seq<Cell>)
    ensures Names(a + b) == Names(a) + Names(b)
  {
  }

  lemma NamesSnoc(cs: seq<Cell>)
    requires |cs| > 0
    ensures Names(cs) == Names(cs[..|cs| - 1]) + [cs[|cs| - 1].entry.cliente]
  {
    assert cs == cs[..|cs| - 1] + [cs[|cs| - 1]];
    NamesConcat(cs[..|cs| - 1], [cs[|cs| - 1]]);
  }

  /** The entries of `dm` on days `lo..MaxDay`, ascending. */
  function DayCells(p: string, dm: DayLedger, lo: int): seq<Cell>
    requires 1 <= lo
    decreases MaxDay + 1 - lo
  {
    if lo > MaxDay then []
    else
      var rest := DayCells(p, dm, lo + 1);
      if lo in dm then [Cell(p, lo, dm[lo])] + rest else rest
  }

  /** The walk over one property meets exactly its entries from day `lo`
      on, each once, in ascending day order. */
  lemma {:induction false} DayCellsFacts(p: string, dm: DayLedger, lo: int)
    requires 1 <= lo
    ensures forall i | 0 <= i < |DayCells(p, dm, lo)| ::
      && DayCells(p, dm, lo)[i].planilla == p && lo <= DayCells(p, dm, lo)[i].day
      && DayCells(p, dm, lo)[i].day in dm && DayCells(p, dm, lo)[i].entry == dm[DayCells(p, dm, lo)[i].day]
    ensures forall d: Day | lo <= d && d in dm :: Cell(p, d, dm[d]) in DayCells(p, dm, lo)
    ensures forall i, j | 0 <= i < j < |DayCells(p, dm, lo)| :: DayCells(p, dm, lo)[i].day < DayCells(p, dm, lo)[j].day
    decreases MaxDay + 1 - lo
  {
    if lo <= MaxDay {
      DayCellsFacts(p, dm, lo + 1);
    }
  }

  /** The month's entries over the properties `ps` under `scheme`: property
      by property, each in day order. */
  function MonthCells(l: Ledger, scheme: KeyScheme, month: string, ps: seq<string>): (cs: seq<Cell>)
    ensures forall i | 0 <= i < |cs| :: cs[i].planilla in ps
    decreases |ps|
  {
    if |ps| == 0 then []
    else
      var p := ps[|ps| - 1];
      DayCellsFacts(p, Sheet(l, SheetKey(scheme, p, month)), 1);
      MonthCells(l, scheme, month, ps[..|ps| - 1]) + DayCells(p, Sheet(l, SheetKey(scheme, p, month)), 1)
  }

  /** A visit meets exactly the entries of the listed properties. */
  lemma {:induction false} MonthCellsMembers(l: Ledger, scheme: KeyScheme, month: string, ps: seq<string>)
    ensures forall c :: c in MonthCells(l, scheme, month, ps) <==>
      c.planilla in ps && c.day in Sheet(l, SheetKey(scheme, c.planilla, month))
      && c.entry == Sheet(l, SheetKey(scheme, c.planilla, month))[c.day]
    decreases |ps|
  {
    if |ps| > 0 {
      var pre, p := ps[..|ps| - 1], ps[|ps| - 1];
      assert ps == pre + [p];
      MonthCellsMembers(l, scheme, month, pre);
      DayCellsFacts(p, Sheet(l, SheetKey(scheme, p, month)), 1);
    }
  }

  /** `a` comes before `b` in a visit of the distinct properties `ps`: an
      earlier property, or the same property and an earlier day. */
  predicate Before(ps: seq<string>, a: Cell, b: Cell)
  {
    IndexOf(ps, a.planilla) < IndexOf(ps, b.planilla) || (a.planilla == b.planilla && a.day < b.day)
  }

  /** The cells `cs` follow the visiting order of `ps`. */
  predicate InVisitOrder(ps: seq<string>, cs: seq<Cell>)
  {
    forall i, k | 0 <= i < k < |cs| :: Before(ps, cs[i], cs[k])
  }

  /** A visit of distinct properties goes property by property, each in day order. */
  lemma {:induction false} MonthCellsOrder(l: Ledger, scheme: KeyScheme, month: string, ps: seq<string>)
    requires Distinct(ps)
    ensures InVisitOrder(ps, MonthCells(l, scheme, month, ps))
    decreases |ps|
  {
    if |ps| > 0 {
      var pre, p := ps[..|ps| - 1], ps[|ps| - 1];
      assert ps == pre + [p];
      DistinctInit(ps);
      MonthCellsOrder(l, scheme, month, pre);
      var cs0 := MonthCells(l, scheme, month, pre);
      var ds := DayCells(p, Sheet(l, SheetKey(scheme, p, month)), 1);
      DayCellsFacts(p, Sheet(l, SheetKey(scheme, p, month)), 1);
      assert MonthCells(l, scheme, month, ps) == cs0 + ds;
      AppendOrder(pre, p, cs0, ds);
    }
  }

  /** Appending the cells of a new last property keeps a visit in order. */
  lemma AppendOrder(pre: seq<string>, p: string, cs0: seq<Cell>, ds: seq<Cell>)
    requires p !in pre
    requires InVisitOrder(pre, cs0)
    requires forall i | 0 <= i < |cs0| :: cs0[i].planilla in pre
    requires forall i | 0 <= i < |ds| :: ds[i].planilla == p
    requires forall i, k | 0 <= i < k < |ds| :: ds[i].day < ds[k].day
    ensures InVisitOrder(pre + [p], cs0 + ds)
  {
    var ps, cs := pre + [p], cs0 + ds;
    IndexOfAppendNew(pre, p);
    forall q | q in pre
      ensures IndexOf(ps, q) == IndexOf(pre, q) < |pre|
    {
      IndexOfAppendPresent(pre, p, q);
    }
    forall i, k | 0 <= i < k < |cs|
      ensures Before(ps, cs[i], cs[k])
    {
      if k < |cs0| {
        assert cs[i] == cs0[i] && cs[k] == cs0[k];
      } else if i < |cs0| {
        assert cs[i] == cs0[i] && cs[k] == ds[k - |cs0|];
      } else {
        assert cs[i] == ds[i - |cs0|] && cs[k] == ds[k - |cs0|];
      }
    }
  }

  // ---------------------------------------------------------------------
  // The conflict scan shared by creation and moves.

  /** One line of the conflict list: `{dia, cliente}`. */
  datatype Occupied = Occupied(day: int, cliente: string)

  /** Day `d` holds a client, and one other than `owner` when there is one. */
  predicate Blocks(dm: DayLedger, d: Day, owner: Option<string>)
  {
    d in dm && dm[d].cliente != "" && (owner.None? || dm[d].cliente != owner.value)
  }

  /** The loop `for (i = lo; i <= hi; i++)` collecting `{dia, cliente}` for
      every day in the range that `Blocks`. */
  function Conflicts(dm: DayLedger, lo: Day, hi: Day, owner: Option<string>): (os: seq<Occupied>)
    ensures forall i | 0 <= i < |os| ::
      lo <= os[i].day <= hi && Blocks(dm, os[i].day, owner) && os[i].cliente == dm[os[i].day].cliente
    ensures forall d: Day | lo <= d <= hi && Blocks(dm, d, owner) :: Occupied(d, dm[d].cliente) in os
    ensures forall i, j | 0 <= i < j < |os| :: os[i].day < os[j].day
    decreases hi - lo
  {
    if lo > hi then []
    else
      var rest := if lo < hi then Conflicts(dm, lo + 1, hi, owner) else [];
      if Blocks(dm, lo, owner) then [Occupied(lo, dm[lo].cliente)] + rest else rest
  }

  /** The scan finds nothing exactly when no day of the range is blocked. */
  lemma NoConflicts(dm: DayLedger, lo: Day, hi: Day, owner: Option<string>)
    ensures Conflicts(dm, lo, hi, owner) == [] <==> forall d: Day | lo <= d <= hi :: !Blocks(dm, d, owner)
  {
    var os := Conflicts(dm, lo, hi, owner);
    if os != [] {
      assert Blocks(dm, os[0].day, owner);
    }
  }

  /** `dm` with each day of `lo..hi` set to `e`: the write loop after a
      clean scan. */
  function Fill(dm: DayLedger, lo: Day, hi: Day, e: Entry): (r: DayLedger)
    ensures forall d: Day :: d in r <==> d in dm || lo <= d <= hi
    ensures forall d: Day | lo <= d <= hi :: r[d] == e
    ensures forall d: Day | d in dm && !(lo <= d <= hi) :: r[d] == dm[d]
    decreases hi - lo
  {
    if lo > hi then dm
    else if lo == hi then dm[lo := e]
    else Fill(dm[lo := e], lo + 1, hi, e)
  }

  // ---------------------------------------------------------------------
  // Creating a booking.

  /** Why a request was turned down before the scan. */
  datatype Rejection =
    | Incomplete                      // a day is not a number or the name is blank
    | OutOfRange(daysInMonth: int)    // the range leaves `1..daysInMonth` or runs backwards

  /** What a write request leads to: the new ledger, or nothing written. */
  datatype Outcome =
    | Saved(ledger: Ledger)
    | Rejected(why: Rejection)
    | Conflict(days: seq<Occupied>)

  /** The request is complete: both days parsed and the trimmed name is not empty. */
  predicate CreateComplete(entrada: Option<int>, salida: Option<int>, cliente: string)
  {
    entrada.Some? && salida.Some? && JsText.Trim(cliente) != ""
  }

  /** A complete request's range lies in `1..dim` and does not run backwards. */
  predicate RangeFits(start: int, end: int, dim: int)
  {
    1 <= start && end <= dim && start <= end
  }

  /** `handleAgendar` on the form's key `SheetKey(scheme, planilla, month)`.
      `entrada`/`salida` are `parseInt` results (None for NaN) and
      `currentYear` is the year `getDaysInMonth` defaults to. */
  function CreateBooking(l: Ledger, scheme: KeyScheme, planilla: string, month: string,
                         currentYear: int, entrada: Option<int>, salida: Option<int>,
                         cliente: string): (r: Outcome)
    ensures r == Rejected(Incomplete) <==> !CreateComplete(entrada, salida, cliente)
    ensures r.Rejected? && r.why.OutOfRange? <==>
      CreateComplete(entrada, salida, cliente)
      && !RangeFits(entrada.value, salida.value, Calendar.DaysInMonth(month, currentYear))
    ensures r.Rejected? && r.why.OutOfRange? ==> r.why.daysInMonth == Calendar.DaysInMonth(month, currentYear)
    ensures r.Conflict? ==> |r.days| > 0
    ensures r.Saved? <==>
      CreateComplete(entrada, salida, cliente)
      && RangeFits(entrada.value, salida.value, Calendar.DaysInMonth(month, currentYear))
      && forall d: Day | entrada.value <= d <= salida.value :: !Blocks(Sheet(l, SheetKey(scheme, planilla, month)), d, None)
  {
    var dim := Calendar.DaysInMonth(month, currentYear);
    if !CreateComplete(entrada, salida, cliente) then Rejected(Incomplete)
    else if !RangeFits(entrada.value, salida.value, dim) then Rejected(OutOfRange(dim))
    else
      var key := SheetKey(scheme, planilla, month);
      var start: Day, end: Day := entrada.value, salida.value;
      var os := Conflicts(Sheet(l, key), start, end, None);
      NoConflicts(Sheet(l, key), start, end, None);
      if |os| > 0 then Conflict(os)
      else
        var e := Entry(JsText.Trim(cliente), ClientColor(cliente), None);
        Saved(l[key := Fill(Sheet(l, key), start, end, e)])
  }

  /** A refused booking lists exactly the days of the range that already
      hold a client, whoever it is, in ascending order. */
  lemma CreateConflictsExact(l: Ledger, scheme: KeyScheme, planilla: string, month: string,
                             currentYear: int, entrada: Option<int>, salida: Option<int>, cliente: string,
                             os: seq<Occupied>)
    requires CreateBooking(l, scheme, planilla, month, currentYear, entrada, salida, cliente) == Conflict(os)
    ensures entrada.Some? && salida.Some?
    ensures var dm := Sheet(l, SheetKey(scheme, planilla, month));
      && (forall i | 0 <= i < |os| ::
            entrada.value <= os[i].day <= salida.value && 1 <= os[i].day <= MaxDay
            && os[i].day in dm && dm[os[i].day].cliente != "" && os[i].cliente == dm[os[i].day].cliente)
      && (forall d: Day | entrada.value <= d <= salida.value && d in dm && dm[d].cliente != "" ::
            Occupied(d, dm[d].cliente) in os)
      && (forall i, j | 0 <= i < j < |os| :: os[i].day < os[j].day)
  {
    CreateConflictScan(l, scheme, planilla, month, currentYear, entrada, salida, cliente, os);
    ScanReportsBooked(Sheet(l, SheetKey(scheme, planilla, month)), entrada.value, salida.value, os);
  }

  /** With no owner exempted, the scan reports exactly the booked days of the
      range, each with its client, in ascending order. */
  lemma ScanReportsBooked(dm: DayLedger, lo: Day, hi: Day, os: seq<Occupied>)
    requires os == Conflicts(dm, lo, hi, None)
    ensures forall i | 0 <= i < |os| ::
      lo <= os[i].day <= hi && 1 <= os[i].day <= MaxDay
      && os[i].day in dm && dm[os[i].day].cliente != "" && os[i].cliente == dm[os[i].day].cliente
    ensures forall d: Day | lo <= d <= hi && d in dm && dm[d].cliente != "" :: Occupied(d, dm[d].cliente) in os
    ensures forall i, j | 0 <= i < j < |os| :: os[i].day < os[j].day
  {
    forall d: Day | lo <= d <= hi && d in dm && dm[d].cliente != ""
      ensures Occupied(d, dm[d].cliente) in os
    {
      assert Blocks(dm, d, None);
    }
  }

  /** A refused booking reports what the scan of the requested range found. */
  lemma CreateConflictScan(l: Ledger, scheme: KeyScheme, planilla: string, month: string,
                           currentYear: int, entrada: Option<int>, salida: Option<int>, cliente: string,
                           os: seq<Occupied>)
    requires CreateBooking(l, scheme, planilla, month, currentYear, entrada, salida, cliente) == Conflict(os)
    ensures entrada.Some? && salida.Some? && 1 <= entrada.value <= salida.value <= MaxDay
    ensures os == Conflicts(Sheet(l, SheetKey(scheme, planilla, month)), entrada.value, salida.value, None)
  {
  }

  /** A saved booking writes the trimmed name, the colour of the untrimmed
      name and no amount on every day of the range; the other days of that
      key and every other key are as they were. */
  lemma CreateWrites(l: Ledger, scheme: KeyScheme, planilla: string, month: string,
                     currentYear: int, entrada: Option<int>, salida: Option<int>, cliente: string, r: Ledger)
    requires CreateBooking(l, scheme, planilla, month, currentYear, entrada, salida, cliente) == Saved(r)
    ensures entrada.Some? && salida.Some? && 1 <= entrada.value <= salida.value <= MaxDay
    ensures var key := SheetKey(scheme, planilla, month);
      && key in r
      && (forall d: Day | entrada.value <= d <= salida.value ::
            d in r[key] && r[key][d] == Entry(JsText.Trim(cliente), ClientColor(cliente), None))
      && (forall d: Day | !(entrada.value <= d <= salida.value) ::
            (d in r[key] <==> d in Sheet(l, key)) && (d in r[key] ==> r[key][d] == Sheet(l, key)[d]))
      && (forall k | k != key :: (k in r <==> k in l) && (k in r ==> r[k] == l[k]))
  {
    CreateSavedLedger(l, scheme, planilla, month, currentYear, entrada, salida, cliente, r);
    FillWrites(l, SheetKey(scheme, planilla, month), entrada.value, salida.value,
               Entry(JsText.Trim(cliente), ClientColor(cliente), None));
  }

  /** A saved booking is exactly the old ledger with the requested range of
      the sheet filled by the trimmed name and its colour. */
  lemma CreateSavedLedger(l: Ledger, scheme: KeyScheme, planilla: string, month: string,
                          currentYear: int, entrada: Option<int>, salida: Option<int>, cliente: string, r: Ledger)
    requires CreateBooking(l, scheme, planilla, month, currentYear, entrada, salida, cliente) == Saved(r)
    ensures entrada.Some? && salida.Some? && 1 <= entrada.value <= salida.value <= MaxDay
    ensures var key := SheetKey(scheme, planilla, month);
      r == l[key := Fill(Sheet(l, key), entrada.value, salida.value, Entry(JsText.Trim(cliente), ClientColor(cliente), None))]
  {
  }

  /** Filling a range of one key with `e`: the range holds `e`, every other
      day of that key and every other key are as they were. */
  lemma FillWrites(l: Ledger, key: string, start: Day, end: Day, e: Entry)
    ensures var r := l[key := Fill(Sheet(l, key), start, end, e)];
      && key in r
      && (forall d: Day | start <= d <= end :: d in r[key] && r[key][d] == e)
      && (forall d: Day | !(start <= d <= end) ::
            (d in r[key] <==> d in Sheet(l, key)) && (d in r[key] ==> r[key][d] == Sheet(l, key)[d]))
      && (forall k | k != key :: (k in r <==> k in l) && (k in r ==> r[k] == l[k]))
  {
  }

  /** A saved booking never overwrites a day that already held a client. */
  lemma CreateKeepsBookings(l: Ledger, scheme: KeyScheme, planilla: string, month: string,
                            currentYear: int, entrada: Option<int>, salida: Option<int>, cliente: string, r: Ledger)
    requires CreateBooking(l, scheme, planilla, month, currentYear, entrada, salida, cliente) == Saved(r)
    ensures forall k, d: Day | k in l && d in l[k] && l[k][d].cliente != "" :: k in r && d in r[k] && r[k][d] == l[k][d]
  {
    CreateSavedLedger(l, scheme, planilla, month, currentYear, entrada, salida, cliente, r);
    var key := SheetKey(scheme, planilla, month);
    assert forall d: Day | entrada.value <= d <= salida.value :: !Blocks(Sheet(l, key), d, None);
    FillKeeps(l, key, entrada.value, salida.value, Entry(JsText.Trim(cliente), ClientColor(cliente), None));
  }

  /** Filling a range that blocks nothing leaves every booked day of every
      key as it was. */
  lemma FillKeeps(l: Ledger, key: string, start: Day, end: Day, e: Entry)
    requires forall d: Day | start <= d <= end :: !Blocks(Sheet(l, key), d, None)
    ensures var r := l[key := Fill(Sheet(l, key), start, end, e)];
      forall k, d: Day | k in l && d in l[k] && l[k][d].cliente != "" :: k in r && d in r[k] && r[k][d] == l[k][d]
  {
    forall k, d: Day | k in l && d in l[k] && l[k][d].cliente != "" && k == key
      ensures !(start <= d <= end)
    {
      assert Blocks(Sheet(l, key), d, None);
    }
  }

  /** The scan flags the client's own days too: booking a client again over
      a day they already hold is a conflict naming them. */
  lemma CreateFlagsOwnDays(l: Ledger, scheme: KeyScheme, planilla: string, month: string,
                           currentYear: int, start: Day, end: Day, cliente: string, d: Day)
    requires JsText.Trim(cliente) != ""
    requires start <= d <= end && end <= Calendar.DaysInMonth(month, currentYear)
    requires d in Sheet(l, SheetKey(scheme, planilla, month))
    requires Sheet(l, SheetKey(scheme, planilla, month))[d].cliente == JsText.Trim(cliente)
    ensures var r := CreateBooking(l, scheme, planilla, month, currentYear, Some(start), Some(end), cliente);
      r.Conflict? && Occupied(d, JsText.Trim(cliente)) in r.days
  {
    var dm := Sheet(l, SheetKey(scheme, planilla, month));
    assert Blocks(dm, d, None);
    CreateSettles(l, scheme, planilla, month, currentYear, start, end, cliente);
  }

  /** A complete request inside the month is settled by the scan of its
      range: the days found, or the range written. */
  lemma CreateSettles(l: Ledger, scheme: KeyScheme, planilla: string, month: string,
                      currentYear: int, start: Day, end: Day, cliente: string)
    requires JsText.Trim(cliente) != ""
    requires start <= end <= Calendar.DaysInMonth(month, currentYear)
    ensures var key := SheetKey(scheme, planilla, month);
      var os := Conflicts(Sheet(l, key), start, end, None);
      CreateBooking(l, scheme, planilla, month, currentYear, Some(start), Some(end), cliente)
        == if |os| > 0 then Conflict(os)
           else Saved(l[key := Fill(Sheet(l, key), start, end, Entry(JsText.Trim(cliente), ClientColor(cliente), None))])
  {
  }
}
