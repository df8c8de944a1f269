/** The client list (`src/components/ListaClientes.jsx`): grouping a month's
    entries by client, deleting a client, setting a client's amount, moving
    a client's booking, and the income total. */
module ClientList {
  import opened JsObject
  import Calendar
  import opened StorageKeys
  import opened Bookings

  /** One line of `agruparPorCliente`: the client's days, amount, properties,
      first and last day, and the property it was first seen in. */
  datatype Group = Group(dias: set<Day>, total: real, planillas: set<string>,
                         firstDay: Day, lastDay: Day, initialPlanilla: string)

  function Min(a: Day, b: Day): Day { if a <= b then a else b }

  function Max(a: Day, b: Day): Day { if a >= b then a else b }

  /** What one of the client's entries does to the client's group: create it
      on first sight (the amount is `total || 0`), then add the day and the
      property and widen the first/last day. */
  function Step(o: Option<Group>, c: Cell): Group
  {
    match o
    case None => Group({c.day}, OrZero(c.entry.total), {c.planilla}, c.day, c.day, c.planilla)
    case Some(x) =>
      Group(x.dias + {c.day}, x.total, x.planillas + {c.planilla},
            Min(x.firstDay, c.day), Max(x.lastDay, c.day), x.initialPlanilla)
  }

  /** The body of the inner `forEach`: entries without a client are skipped. */
  function Gather(g: Assoc<Group>, c: Cell): (r: Assoc<Group>)
    ensures UniqueKeys(g) ==> UniqueKeys(r)
  {
    if c.entry.cliente == "" then g
    else Put(g, c.entry.cliente, Step(Get(g, c.entry.cliente), c))
  }

  /** `agrupado` after visiting the cells `cs` in order. */
  function GroupCells(cs: seq<Cell>): (g: Assoc<Group>)
    ensures UniqueKeys(g)
    decreases |cs|
  {
    if |cs| == 0 then [] else Gather(GroupCells(cs[..|cs| - 1]), cs[|cs| - 1])
  }

  /** `agruparPorCliente()` over the properties `ps` of `month`. */
  function GroupByClient(l: Ledger, scheme: KeyScheme, month: string, ps: seq<string>): Assoc<Group>
  {
    GroupCells(MonthCells(l, scheme, month, ps))
  }

  /** `agrupado` after visiting `cs` as the source runs it. For a name that
      `{}` inherits (`constructor`, `toString`, `__proto__`, ...) the test
      `!agrupado[info.cliente]` sees the inherited member, so no group is
      created and `agrupado[info.cliente].dias.add` throws: the whole call
      fails (None). */
  function GroupCellsAsWritten(cs: seq<Cell>): (o: Option<Assoc<Group>>)
    ensures o.None? <==> InheritedCell(cs)
    ensures o.Some? ==> o.value == GroupCells(cs)
    decreases |cs|
  {
    if |cs| == 0 then Some([])
    else
      var pre := cs[..|cs| - 1];
      var c := cs[|cs| - 1];
      InheritedCellSnoc(cs);
      match GroupCellsAsWritten(pre)
      case None => None
      case Some(g) => if Inherited(c.entry.cliente) then None else Some(Gather(g, c))
  }

  /** Some cell of `cs` carries an inherited name. */
  ghost predicate InheritedCell(cs: seq<Cell>)
  {
    exists i | 0 <= i < |cs| :: Inherited(cs[i].entry.cliente)
  }

  lemma InheritedCellSnoc(cs: seq<Cell>)
    requires |cs| > 0
    ensures InheritedCell(cs) <==> InheritedCell(cs[..|cs| - 1]) || Inherited(cs[|cs| - 1].entry.cliente)
  {
    var pre := cs[..|cs| - 1];
    assert forall i | 0 <= i < |pre| :: pre[i] == cs[i];
  }

  /** Some entry of the listed properties carries an inherited name. */
  ghost predicate InheritedEntry(l: Ledger, scheme: KeyScheme, month: string, ps: seq<string>)
  {
    exists p, d: Day | p in ps && d in Sheet(l, SheetKey(scheme, p, month)) ::
      Inherited(Sheet(l, SheetKey(scheme, p, month))[d].cliente)
  }

  /** `agruparPorCliente()` as written: it fails exactly when one entry of
      the listed properties carries an inherited name, and otherwise is the
      grouping `GroupByClient`. */
  function GroupByClientAsWritten(l: Ledger, scheme: KeyScheme, month: string, ps: seq<string>)
    : (o: Option<Assoc<Group>>)
    ensures o.None? <==> InheritedEntry(l, scheme, month, ps)
    ensures o.Some? ==> o.value == GroupByClient(l, scheme, month, ps)
  {
    InheritedCells(l, scheme, month, ps);
    GroupCellsAsWritten(MonthCells(l, scheme, month, ps))
  }

  /** The visit meets an inherited name exactly when some listed entry
      carries one. */
  lemma InheritedCells(l: Ledger, scheme: KeyScheme, month: string, ps: seq<string>)
    ensures InheritedCell(MonthCells(l, scheme, month, ps)) <==> InheritedEntry(l, scheme, month, ps)
  {
    var cs := MonthCells(l, scheme, month, ps);
    if InheritedCell(cs) {
      var i :| 0 <= i < |cs| && Inherited(cs[i].entry.cliente);
      MonthCellsHas(l, scheme, month, ps, cs[i]);
      assert InheritedEntry(l, scheme, month, ps);
    }
    if InheritedEntry(l, scheme, month, ps) {
      var p, d: Day :| p in ps && d in Sheet(l, SheetKey(scheme, p, month))
        && Inherited(Sheet(l, SheetKey(scheme, p, month))[d].cliente);
      var c := Cell(p, d, Sheet(l, SheetKey(scheme, p, month))[d]);
      MonthCellsHas(l, scheme, month, ps, c);
      var i :| 0 <= i < |cs| && cs[i] == c;
      assert Inherited(cs[i].entry.cliente);
    }
  }

  /** One cell's membership in the visit. */
  lemma MonthCellsHas(l: Ledger, scheme: KeyScheme, month: string, ps: seq<string>, c: Cell)
    ensures c in MonthCells(l, scheme, month, ps) <==>
      c.planilla in ps && c.day in Sheet(l, SheetKey(scheme, c.planilla, month))
      && c.entry == Sheet(l, SheetKey(scheme, c.planilla, month))[c.day]
  {
    MonthCellsMembers(l, scheme, month, ps);
  }

  /** A client named `constructor` empties the client list as written (the
      call throws), while the grouping lists them. */
  lemma InheritedNameBreaksList(l: Ledger, scheme: KeyScheme, month: string, p: string, d: Day, color: string)
    requires l == map[SheetKey(scheme, p, month) := map[d := Entry("constructor", color, None)]]
    ensures GroupByClientAsWritten(l, scheme, month, [p]).None?
    ensures Get(GroupByClient(l, scheme, month, [p]), "constructor").Some?
  {
    assert Holds(l, scheme, month, p, d, "constructor");
    assert InheritedEntry(l, scheme, month, [p]);
    GroupedClients(l, scheme, month, [p], "constructor");
  }

  /** The walk as one client sees it: that client's group after `cs`. */
  function ClientFold(cs: seq<Cell>, n: string): Option<Group>
    decreases |cs|
  {
    if |cs| == 0 then None
    else
      var o := ClientFold(cs[..|cs| - 1], n);
      var c := cs[|cs| - 1];
      if n != "" && c.entry.cliente == n then Some(Step(o, c)) else o
  }

  /** A client's group depends on that client's cells alone. */
  lemma {:induction false} GroupIsClientFold(cs: seq<Cell>, n: string)
    ensures Get(GroupCells(cs), n) == ClientFold(cs, n)
    decreases |cs|
  {
    if |cs| > 0 {
      GroupIsClientFold(cs[..|cs| - 1], n);
    }
  }

  /** The days on which the visit meets client `n`. */
  function DaysOf(cs: seq<Cell>, n: string): set<Day>
  {
    set i | 0 <= i < |cs| && cs[i].entry.cliente == n :: cs[i].day
  }

  /** The properties in which the visit meets client `n`. */
  function PlanillasOf(cs: seq<Cell>, n: string): set<string>
  {
    set i | 0 <= i < |cs| && cs[i].entry.cliente == n :: cs[i].planilla
  }

  lemma OfSnoc(cs: seq<Cell>, n: string)
    requires |cs| > 0
    ensures var c, pre := cs[|cs| - 1], cs[..|cs| - 1];
      && DaysOf(cs, n) == DaysOf(pre, n) + (if c.entry.cliente == n then {c.day} else {})
      && PlanillasOf(cs, n) == PlanillasOf(pre, n) + (if c.entry.cliente == n then {c.planilla} else {})
  {
    var c, pre := cs[|cs| - 1], cs[..|cs| - 1];
    forall d | d in DaysOf(cs, n)
      ensures d in DaysOf(pre, n) + (if c.entry.cliente == n then {c.day} else {})
    {
      var i :| 0 <= i < |cs| && cs[i].entry.cliente == n && cs[i].day == d;
      if i < |pre| { assert pre[i] == cs[i]; }
    }
    forall d | d in DaysOf(pre, n)
      ensures d in DaysOf(cs, n)
    {
      var i :| 0 <= i < |pre| && pre[i].entry.cliente == n && pre[i].day == d;
      assert cs[i] == pre[i];
    }
    forall p | p in PlanillasOf(cs, n)
      ensures p in PlanillasOf(pre, n) + (if c.entry.cliente == n then {c.planilla} else {})
    {
      var i :| 0 <= i < |cs| && cs[i].entry.cliente == n && cs[i].planilla == p;
      if i < |pre| { assert pre[i] == cs[i]; }
    }
    forall p | p in PlanillasOf(pre, n)
      ensures p in PlanillasOf(cs, n)
    {
      var i :| 0 <= i < |pre| && pre[i].entry.cliente == n && pre[i].planilla == p;
      assert cs[i] == pre[i];
    }
  }

  /** A client has a group exactly when the visit meets them. */
  lemma {:induction false} FoldPresent(cs: seq<Cell>, n: string)
    ensures ClientFold(cs, n).Some? <==> n != "" && n in Names(cs)
    decreases |cs|
  {
    if |cs| > 0 {
      var pre := cs[..|cs| - 1];
      FoldPresent(pre, n);
      NamesSnoc(cs);
    }
  }

  /** A group's days and properties are those of the client's cells, and its
      first and last day are the least and greatest of those days. */
  lemma {:induction false} FoldSpan(cs: seq<Cell>, n: string)
    ensures var o := ClientFold(cs, n);
      o.Some? ==>
        && o.value.dias == DaysOf(cs, n) && o.value.planillas == PlanillasOf(cs, n)
        && o.value.firstDay in o.value.dias && o.value.lastDay in o.value.dias
        && forall d | d in o.value.dias :: o.value.firstDay <= d <= o.value.lastDay
    decreases |cs|
  {
    if |cs| > 0 {
      var pre := cs[..|cs| - 1];
      FoldSpan(pre, n);
      OfSnoc(cs, n);
      FoldPresent(pre, n);
      if ClientFold(pre, n).None? && n != "" && cs[|cs| - 1].entry.cliente == n {
        forall i | 0 <= i < |pre|
          ensures pre[i].entry.cliente != n
        {
          assert Names(pre)[i] == pre[i].entry.cliente;
        }
        assert DaysOf(pre, n) == {};
        assert PlanillasOf(pre, n) == {};
      }
    }
  }

  /** A group's amount and initial property are those of the client's first
      cell: later cells never change them. */
  lemma {:induction false} FoldFirst(cs: seq<Cell>, n: string)
    ensures var o := ClientFold(cs, n);
      o.Some? ==>
        var i := IndexOf(Names(cs), n);
        0 <= i && o.value.total == OrZero(cs[i].entry.total) && o.value.initialPlanilla == cs[i].planilla
    decreases |cs|
  {
    if |cs| > 0 {
      var pre := cs[..|cs| - 1];
      var c := cs[|cs| - 1];
      FoldFirst(pre, n);
      FoldPresent(pre, n);
      FoldPresent(cs, n);
      NamesSnoc(cs);
      if n in Names(pre) {
        IndexOfAppendPresent(Names(pre), c.entry.cliente, n);
        assert cs[IndexOf(Names(pre), n)] == pre[IndexOf(Names(pre), n)];
      } else if ClientFold(cs, n).Some? {
        assert Names(cs)[|pre|] == n;
        assert IndexOf(Names(cs), n) == |pre|;
      }
    }
  }

  // ---------------------------------------------------------------------
  // The grouping, read against the ledger.

  /** Day `d` of property `p` is booked to client `n`. */
  predicate Holds(l: Ledger, scheme: KeyScheme, month: string, p: string, d: Day, n: string)
  {
    var dm := Sheet(l, SheetKey(scheme, p, month));
    d in dm && dm[d].cliente == n
  }

  /** The cell a visit makes of day `d` of property `p`. */
  function CellAt(l: Ledger, scheme: KeyScheme, month: string, p: string, d: Day): Cell
    requires d in Sheet(l, SheetKey(scheme, p, month))
  {
    Cell(p, d, Sheet(l, SheetKey(scheme, p, month))[d])
  }

  /** A client is listed exactly when some day of some listed property holds
      that client (a non-empty name). */
  lemma GroupedClients(l: Ledger, scheme: KeyScheme, month: string, ps: seq<string>, n: string)
    ensures Get(GroupByClient(l, scheme, month, ps), n).Some? <==>
      n != "" && exists p, d: Day | p in ps :: Holds(l, scheme, month, p, d, n)
  {
    var cs := MonthCells(l, scheme, month, ps);
    GroupIsClientFold(cs, n);
    FoldPresent(cs, n);
    MonthCellsMembers(l, scheme, month, ps);
    if n in Names(cs) {
      var i :| 0 <= i < |cs| && Names(cs)[i] == n;
      assert cs[i] in cs;
      assert Holds(l, scheme, month, cs[i].planilla, cs[i].day, n);
    }
    if p, d: Day :| p in ps && Holds(l, scheme, month, p, d, n) {
      var c := CellAt(l, scheme, month, p, d);
      assert c in cs;
      var i :| 0 <= i < |cs| && cs[i] == c;
      assert Names(cs)[i] == n;
    }
  }

  /** `g.dias` are the days holding client `n` in the listed properties,
      `g.planillas` the listed properties holding `n`, and `g.firstDay` and
      `g.lastDay` the least and greatest of those days. */
  ghost predicate SpanOf(l: Ledger, scheme: KeyScheme, month: string, ps: seq<string>, n: string, g: Group)
  {
    && (forall d: Day :: d in g.dias <==> exists p | p in ps :: Holds(l, scheme, month, p, d, n))
    && (forall p :: p in g.planillas <==> p in ps && exists d: Day :: Holds(l, scheme, month, p, d, n))
    && g.firstDay in g.dias && g.lastDay in g.dias
    && (forall d | d in g.dias :: g.firstDay <= d <= g.lastDay)
  }

  /** A listed client's group spans exactly the days and properties holding
      that client. */
  lemma GroupedDays(l: Ledger, scheme: KeyScheme, month: string, ps: seq<string>, n: string)
    ensures var o := Get(GroupByClient(l, scheme, month, ps), n);
      o.Some? ==> SpanOf(l, scheme, month, ps, n, o.value)
  {
    var cs := MonthCells(l, scheme, month, ps);
    GroupIsClientFold(cs, n);
    FoldSpan(cs, n);
    MonthCellsMembers(l, scheme, month, ps);
    forall d: Day | d in DaysOf(cs, n)
      ensures exists p | p in ps :: Holds(l, scheme, month, p, d, n)
    {
      var i :| 0 <= i < |cs| && cs[i].entry.cliente == n && cs[i].day == d;
      assert cs[i] in cs;
      assert Holds(l, scheme, month, cs[i].planilla, d, n);
    }
    forall d: Day, p | p in ps && Holds(l, scheme, month, p, d, n)
      ensures d in DaysOf(cs, n) && p in PlanillasOf(cs, n)
    {
      var c := CellAt(l, scheme, month, p, d);
      assert c in cs;
      var i :| 0 <= i < |cs| && cs[i] == c;
    }
    forall p | p in PlanillasOf(cs, n)
      ensures p in ps && exists d: Day :: Holds(l, scheme, month, p, d, n)
    {
      var i :| 0 <= i < |cs| && cs[i].entry.cliente == n && cs[i].planilla == p;
      assert cs[i] in cs;
      assert Holds(l, scheme, month, p, cs[i].day, n);
    }
  }

  /** `(p, d)` is the first place the visit of the distinct properties `ps`
      meets client `n`: every other day holding `n` lies in a later property
      or later in the same one. */
  ghost predicate FirstHeld(l: Ledger, scheme: KeyScheme, month: string, ps: seq<string>, n: string, p: string, d: Day)
  {
    && p in ps && Holds(l, scheme, month, p, d, n)
    && forall p', d': Day | p' in ps && Holds(l, scheme, month, p', d', n) && (p', d') != (p, d) ::
         IndexOf(ps, p) < IndexOf(ps, p') || (p == p' && d < d')
  }

  /** A client's `total` and `initialPlanilla` come from the first entry the
      visit meets: the earliest listed property holding the client, and in
      it the earliest day. */
  lemma GroupedFirst(l: Ledger, scheme: KeyScheme, month: string, ps: seq<string>, n: string)
    requires Distinct(ps)
    ensures var o := Get(GroupByClient(l, scheme, month, ps), n);
      o.Some? ==> exists p, d: Day | FirstHeld(l, scheme, month, ps, n, p, d) ::
        && o.value.total == OrZero(Sheet(l, SheetKey(scheme, p, month))[d].total)
        && o.value.initialPlanilla == p
  {
    var cs := MonthCells(l, scheme, month, ps);
    var o := Get(GroupByClient(l, scheme, month, ps), n);
    GroupIsClientFold(cs, n);
    if o.Some? {
      FoldFirst(cs, n);
      MonthCellsOrder(l, scheme, month, ps);
      var i := IndexOf(Names(cs), n);
      var c := cs[i];
      assert c in cs;
      MonthCellsHas(l, scheme, month, ps, c);
      assert Holds(l, scheme, month, c.planilla, c.day, n);
      forall p', d': Day | p' in ps && Holds(l, scheme, month, p', d', n) && (p', d') != (c.planilla, c.day)
        ensures IndexOf(ps, c.planilla) < IndexOf(ps, p') || (c.planilla == p' && c.day < d')
      {
        FirstCellEarliest(l, scheme, month, ps, n, i, p', d');
      }
      assert FirstHeld(l, scheme, month, ps, n, c.planilla, c.day);
    }
  }

  /** The first cell of client `n` in a visit comes before every other day
      holding `n`. */
  lemma FirstCellEarliest(l: Ledger, scheme: KeyScheme, month: string, ps: seq<string>, n: string,
                          i: int, p': string, d': Day)
    requires InVisitOrder(ps, MonthCells(l, scheme, month, ps))
    requires 0 <= i < |MonthCells(l, scheme, month, ps)|
    requires forall j | 0 <= j < i :: MonthCells(l, scheme, month, ps)[j].entry.cliente != n
    requires p' in ps && Holds(l, scheme, month, p', d', n)
    requires (p', d') != (MonthCells(l, scheme, month, ps)[i].planilla, MonthCells(l, scheme, month, ps)[i].day)
    ensures Before(ps, MonthCells(l, scheme, month, ps)[i], CellAt(l, scheme, month, p', d'))
  {
    var cs := MonthCells(l, scheme, month, ps);
    var c' := CellAt(l, scheme, month, p', d');
    MonthCellsHas(l, scheme, month, ps, c');
    var k :| 0 <= k < |cs| && cs[k] == c';
    assert k != i;
    assert k > i;
  }

  /** Client `n` holds the same days of the same listed properties in `l`
      and in `l'`. */
  ghost predicate SameHolding(l: Ledger, l': Ledger, scheme: KeyScheme, month: string, ps: seq<string>, n: string)
  {
    forall p, d: Day | p in ps :: Holds(l, scheme, month, p, d, n) == Holds(l', scheme, month, p, d, n)
  }

  /** The first place a visit meets a client is unique. */
  lemma FirstHeldUnique(l: Ledger, l': Ledger, scheme: KeyScheme, month: string, ps: seq<string>, n: string,
                        p: string, d: Day, q: string, e: Day)
    requires SameHolding(l, l', scheme, month, ps, n)
    requires FirstHeld(l, scheme, month, ps, n, p, d) && FirstHeld(l', scheme, month, ps, n, q, e)
    ensures p == q && d == e
  {
    assert Holds(l, scheme, month, q, e, n);
    assert Holds(l', scheme, month, p, d, n);
  }

  /** Where a client is determines the group's days, properties and span. */
  lemma SameDays(l: Ledger, l': Ledger, scheme: KeyScheme, month: string, ps: seq<string>, n: string, g: Group, g': Group)
    requires SameHolding(l, l', scheme, month, ps, n)
    requires SpanOf(l, scheme, month, ps, n, g) && SpanOf(l', scheme, month, ps, n, g')
    ensures g.dias == g'.dias && g.planillas == g'.planillas && g.firstDay == g'.firstDay && g.lastDay == g'.lastDay
  {
    SameDias(l, l', scheme, month, ps, n, g, g');
    SamePlanillas(l, l', scheme, month, ps, n, g, g');
    SameBounds(g, g');
  }

  lemma SameDias(l: Ledger, l': Ledger, scheme: KeyScheme, month: string, ps: seq<string>, n: string, g: Group, g': Group)
    requires SameHolding(l, l', scheme, month, ps, n)
    requires SpanOf(l, scheme, month, ps, n, g) && SpanOf(l', scheme, month, ps, n, g')
    ensures g.dias == g'.dias
  {
    forall d: Day ensures d in g.dias <==> d in g'.dias {
      SameHoldingDay(l, l', scheme, month, ps, n, d);
    }
  }

  lemma SamePlanillas(l: Ledger, l': Ledger, scheme: KeyScheme, month: string, ps: seq<string>, n: string, g: Group, g': Group)
    requires SameHolding(l, l', scheme, month, ps, n)
    requires SpanOf(l, scheme, month, ps, n, g) && SpanOf(l', scheme, month, ps, n, g')
    ensures g.planillas == g'.planillas
  {
    forall p ensures p in g.planillas <==> p in g'.planillas {
      SameHoldingProperty(l, l', scheme, month, ps, n, p);
    }
  }

  /** The least and greatest elements of one set of days are unique. */
  lemma SameBounds(g: Group, g': Group)
    requires g.dias == g'.dias
    requires g.firstDay in g.dias && g.lastDay in g.dias && (forall d | d in g.dias :: g.firstDay <= d <= g.lastDay)
    requires g'.firstDay in g'.dias && g'.lastDay in g'.dias && (forall d | d in g'.dias :: g'.firstDay <= d <= g'.lastDay)
    ensures g.firstDay == g'.firstDay && g.lastDay == g'.lastDay
  {
  }

  lemma SameHoldingDay(l: Ledger, l': Ledger, scheme: KeyScheme, month: string, ps: seq<string>, n: string, d: Day)
    requires SameHolding(l, l', scheme, month, ps, n)
    ensures (exists p | p in ps :: Holds(l, scheme, month, p, d, n))
         == (exists p | p in ps :: Holds(l', scheme, month, p, d, n))
  {
  }

  lemma SameHoldingProperty(l: Ledger, l': Ledger, scheme: KeyScheme, month: string, ps: seq<string>, n: string, p: string)
    requires SameHolding(l, l', scheme, month, ps, n)
    ensures (p in ps && exists d: Day :: Holds(l, scheme, month, p, d, n))
         == (p in ps && exists d: Day :: Holds(l', scheme, month, p, d, n))
  {
  }

  /** Two ledgers in which client `n` holds the same days of the same listed
      properties give `n` groups that agree in everything but the amount,
      and both amounts are read from the same first entry. */
  lemma SameSpan(l: Ledger, l': Ledger, scheme: KeyScheme, month: string, ps: seq<string>, n: string)
    requires Distinct(ps)
    requires SameHolding(l, l', scheme, month, ps, n)
    ensures var o, o' := Get(GroupByClient(l, scheme, month, ps), n), Get(GroupByClient(l', scheme, month, ps), n);
      && o.Some? == o'.Some?
      && (o.Some? ==>
            && o'.value == o.value.(total := o'.value.total)
            && exists p, d: Day | FirstHeld(l, scheme, month, ps, n, p, d) ::
                 && o.value.total == OrZero(Sheet(l, SheetKey(scheme, p, month))[d].total)
                 && o'.value.total == OrZero(Sheet(l', SheetKey(scheme, p, month))[d].total))
  {
    var o, o' := Get(GroupByClient(l, scheme, month, ps), n), Get(GroupByClient(l', scheme, month, ps), n);
    GroupedClients(l, scheme, month, ps, n);
    GroupedClients(l', scheme, month, ps, n);
    assert o.Some? == o'.Some? by {
      if p, d: Day :| p in ps && Holds(l, scheme, month, p, d, n) {
        assert Holds(l', scheme, month, p, d, n);
      }
      if p, d: Day :| p in ps && Holds(l', scheme, month, p, d, n) {
        assert Holds(l, scheme, month, p, d, n);
      }
    }
    if o.Some? {
      GroupedDays(l, scheme, month, ps, n);
      GroupedDays(l', scheme, month, ps, n);
      SameDays(l, l', scheme, month, ps, n, o.value, o'.value);
      GroupedFirst(l, scheme, month, ps, n);
      GroupedFirst(l', scheme, month, ps, n);
      var g, g' := o.value, o'.value;
      var p, d: Day :| FirstHeld(l, scheme, month, ps, n, p, d)
        && g.total == OrZero(Sheet(l, SheetKey(scheme, p, month))[d].total) && g.initialPlanilla == p;
      var q, e: Day :| FirstHeld(l', scheme, month, ps, n, q, e)
        && g'.total == OrZero(Sheet(l', SheetKey(scheme, q, month))[e].total) && g'.initialPlanilla == q;
      FirstHeldUnique(l, l', scheme, month, ps, n, p, d, q, e);
    }
  }

  /** Two ledgers that agree on where client `n` is and on the amounts of
      those entries give `n` the same group. */
  lemma SameGroup(l: Ledger, l': Ledger, scheme: KeyScheme, month: string, ps: seq<string>, n: string)
    requires Distinct(ps)
    requires SameHolding(l, l', scheme, month, ps, n)
    requires forall p, d: Day | p in ps && Holds(l, scheme, month, p, d, n) && Holds(l', scheme, month, p, d, n) ::
      Sheet(l, SheetKey(scheme, p, month))[d].total == Sheet(l', SheetKey(scheme, p, month))[d].total
    ensures Get(GroupByClient(l, scheme, month, ps), n) == Get(GroupByClient(l', scheme, month, ps), n)
  {
    SameSpan(l, l', scheme, month, ps, n);
  }

  // ---------------------------------------------------------------------
  // Deleting a client.

  /** The keys the client list walks for `month`. */
  function ListedKeys(scheme: KeyScheme, month: string, ps: seq<string>): set<string>
  {
    set p | p in ps :: SheetKey(scheme, p, month)
  }

  /** A day map without the entries of client `name`. */
  function Without(dm: DayLedger, name: string): DayLedger
  {
    map d | d in dm && dm[d].cliente != name :: dm[d]
  }

  /** `handleEliminarCliente(name)` once the confirmation is accepted: the
      entries of `name` leave every listed property's month, and nothing else
      changes. */
  function DeleteClient(l: Ledger, scheme: KeyScheme, month: string, ps: seq<string>, name: string): (r: Ledger)
    ensures r.Keys == l.Keys
    ensures forall k, d: Day | k in l ::
      d in r[k] <==> d in l[k] && !(k in ListedKeys(scheme, month, ps) && l[k][d].cliente == name)
    ensures forall k, d: Day | k in l && d in r[k] :: r[k][d] == l[k][d]
  {
    map k | k in l :: if k in ListedKeys(scheme, month, ps) then Without(l[k], name) else l[k]
  }

  /** After the delete no listed property holds the client, so the client
      list no longer shows them. */
  lemma DeleteUngroups(l: Ledger, scheme: KeyScheme, month: string, ps: seq<string>, name: string)
    ensures var r := DeleteClient(l, scheme, month, ps, name);
      && (forall p, d: Day | p in ps :: !Holds(r, scheme, month, p, d, name))
      && Get(GroupByClient(r, scheme, month, ps), name).None?
  {
    var r := DeleteClient(l, scheme, month, ps, name);
    forall p, d: Day | p in ps
      ensures !Holds(r, scheme, month, p, d, name)
    {
      assert SheetKey(scheme, p, month) in ListedKeys(scheme, month, ps);
    }
    GroupedClients(r, scheme, month, ps, name);
  }

  /** Every other client keeps the group they had. */
  lemma DeleteKeepsOthers(l: Ledger, scheme: KeyScheme, month: string, ps: seq<string>, name: string, n: string)
    requires Distinct(ps) && n != name
    ensures Get(GroupByClient(DeleteClient(l, scheme, month, ps, name), scheme, month, ps), n)
         == Get(GroupByClient(l, scheme, month, ps), n)
  {
    var r := DeleteClient(l, scheme, month, ps, name);
    forall p, d: Day | p in ps
      ensures Holds(r, scheme, month, p, d, n) == Holds(l, scheme, month, p, d, n)
    {
      assert SheetKey(scheme, p, month) in ListedKeys(scheme, month, ps);
    }
    SameGroup(l, r, scheme, month, ps, n);
  }

  /** Deleting a client twice deletes nothing more. */
  lemma DeleteIdempotent(l: Ledger, scheme: KeyScheme, month: string, ps: seq<string>, name: string)
    ensures var r := DeleteClient(l, scheme, month, ps, name);
      DeleteClient(r, scheme, month, ps, name) == r
  {
    var r := DeleteClient(l, scheme, month, ps, name);
    var r2 := DeleteClient(r, scheme, month, ps, name);
    forall k | k in r ensures r2[k] == r[k] {
      assert r2[k].Keys == r[k].Keys;
    }
  }

  // ---------------------------------------------------------------------
  // Amounts.

  function GroupAmount(g: Group): real { g.total }

  /** `agrupado[name]?.total || 0`. */
  function GroupTotal(groups: Assoc<Group>, name: string): real
  {
    match Get(groups, name)
    case Some(g) => g.total
    case None => 0.0
  }

  /** `ingresoTotal`: the amounts of all listed clients added up, in the
      order the clients were first met. */
  function IncomeTotal(groups: Assoc<Group>): real
  {
    Sum(groups, GroupAmount)
  }

  /** A group with its amount replaced. */
  function WithTotal(o: Option<Group>, v: real): Option<Group>
  {
    match o
    case Some(g) => Some(g.(total := v))
    case None => None
  }

  /** A day map with the amount of every entry of `name` set to `v`. */
  function Retotal(dm: DayLedger, name: string, v: real): DayLedger
  {
    map d | d in dm :: if dm[d].cliente == name then dm[d].(total := Some(v)) else dm[d]
  }

  /** `handleMontoChange(name, nuevoMonto)`, where `parsed` is
      `parseFloat(nuevoMonto)` (None for NaN): every entry of `name` in the
      listed properties takes the amount `parsed || 0`, and nothing else
      changes. */
  function SetAmount(l: Ledger, scheme: KeyScheme, month: string, ps: seq<string>, name: string,
                     parsed: Option<real>): (r: Ledger)
    ensures r.Keys == l.Keys
    ensures forall k | k in l :: r[k].Keys == l[k].Keys
    ensures forall k, d: Day | k in l && d in l[k] ::
      && r[k][d].cliente == l[k][d].cliente && r[k][d].color == l[k][d].color
      && r[k][d].total == if k in ListedKeys(scheme, month, ps) && l[k][d].cliente == name
                          then Some(OrZero(parsed)) else l[k][d].total
  {
    map k | k in l :: if k in ListedKeys(scheme, month, ps) then Retotal(l[k], name, OrZero(parsed)) else l[k]
  }

  /** The client whose amount was set shows exactly that amount (`parsed || 0`)
      and the same days as before; every other client's group is unchanged. */
  lemma SetAmountGroups(l: Ledger, scheme: KeyScheme, month: string, ps: seq<string>, name: string,
                        parsed: Option<real>, n: string)
    requires Distinct(ps)
    ensures var before := Get(GroupByClient(l, scheme, month, ps), n);
      var after := Get(GroupByClient(SetAmount(l, scheme, month, ps, name, parsed), scheme, month, ps), n);
      after == if n == name then WithTotal(before, OrZero(parsed)) else before
  {
    var r := SetAmount(l, scheme, month, ps, name, parsed);
    forall p, d: Day | p in ps
      ensures Holds(l, scheme, month, p, d, n) == Holds(r, scheme, month, p, d, n)
    {
      assert SheetKey(scheme, p, month) in ListedKeys(scheme, month, ps);
    }
    if n == name {
      SameSpan(l, r, scheme, month, ps, n);
      forall p, d: Day | p in ps && Holds(l, scheme, month, p, d, n)
        ensures Sheet(r, SheetKey(scheme, p, month))[d].total == Some(OrZero(parsed))
      {
        assert SheetKey(scheme, p, month) in ListedKeys(scheme, month, ps);
      }
    } else {
      forall p, d: Day | p in ps && Holds(l, scheme, month, p, d, n)
        ensures Sheet(r, SheetKey(scheme, p, month))[d].total == Sheet(l, SheetKey(scheme, p, month))[d].total
      {
        assert SheetKey(scheme, p, month) in ListedKeys(scheme, month, ps);
      }
      SameGroup(l, r, scheme, month, ps, n);
    }
  }

  /** Setting a listed client's amount moves the income total by the change
      in that client's amount, and leaves the client order as it was. */
  lemma SetAmountIncome(l: Ledger, scheme: KeyScheme, month: string, ps: seq<string>, name: string,
                        parsed: Option<real>)
    requires Distinct(ps)
    ensures var before := GroupByClient(l, scheme, month, ps);
      var after := GroupByClient(SetAmount(l, scheme, month, ps, name, parsed), scheme, month, ps);
      && KeysOf(after) == KeysOf(before)
      && IncomeTotal(after) == IncomeTotal(before) - GroupTotal(before, name)
           + (if Get(before, name).Some? then OrZero(parsed) else 0.0)
  {
    var r := SetAmount(l, scheme, month, ps, name, parsed);
    var before, after := GroupByClient(l, scheme, month, ps), GroupByClient(r, scheme, month, ps);
    forall p | p in ps
      ensures SameClients(Sheet(l, SheetKey(scheme, p, month)), Sheet(r, SheetKey(scheme, p, month)))
    {
      assert SheetKey(scheme, p, month) in ListedKeys(scheme, month, ps);
    }
    MonthCellsNames(l, r, scheme, month, ps);
    GroupKeysByNames(MonthCells(l, scheme, month, ps), MonthCells(r, scheme, month, ps));
    forall n | n != name ensures Get(before, n) == Get(after, n) {
      SetAmountGroups(l, scheme, month, ps, name, parsed, n);
    }
    SetAmountGroups(l, scheme, month, ps, name, parsed, name);
    SumAgree(before, after, name, GroupAmount);
  }

  // ---------------------------------------------------------------------
  // The client order depends on the names met alone.

  /** Two day maps with the same days held by the same names. */
  predicate SameClients(a: DayLedger, b: DayLedger)
  {
    a.Keys == b.Keys && forall d | d in a :: a[d].cliente == b[d].cliente
  }

  lemma {:induction false} DayCellsNames(p: string, a: DayLedger, b: DayLedger, lo: int)
    requires 1 <= lo && SameClients(a, b)
    ensures Names(DayCells(p, a, lo)) == Names(DayCells(p, b, lo))
    decreases MaxDay + 1 - lo
  {
    if lo <= MaxDay {
      DayCellsNames(p, a, b, lo + 1);
      var ra, rb := DayCells(p, a, lo + 1), DayCells(p, b, lo + 1);
      if lo in a {
        var ca, cb := Cell(p, lo, a[lo]), Cell(p, lo, b[lo]);
        assert DayCells(p, a, lo) == [ca] + ra;
        assert DayCells(p, b, lo) == [cb] + rb;
        NamesConcat([ca], ra);
        NamesConcat([cb], rb);
        assert Names([ca]) == Names([cb]);
      } else {
        assert DayCells(p, a, lo) == ra;
        assert DayCells(p, b, lo) == rb;
      }
    }
  }

  lemma {:induction false} MonthCellsNames(l: Ledger, l': Ledger, scheme: KeyScheme, month: string, ps: seq<string>)
    requires forall p | p in ps :: SameClients(Sheet(l, SheetKey(scheme, p, month)), Sheet(l', SheetKey(scheme, p, month)))
    ensures Names(MonthCells(l, scheme, month, ps)) == Names(MonthCells(l', scheme, month, ps))
    decreases |ps|
  {
    if |ps| > 0 {
      var pre, p := ps[..|ps| - 1], ps[|ps| - 1];
      MonthCellsNames(l, l', scheme, month, pre);
      DayCellsNames(p, Sheet(l, SheetKey(scheme, p, month)), Sheet(l', SheetKey(scheme, p, month)), 1);
      NamesConcat(MonthCells(l, scheme, month, pre), DayCells(p, Sheet(l, SheetKey(scheme, p, month)), 1));
      NamesConcat(MonthCells(l', scheme, month, pre), DayCells(p, Sheet(l', SheetKey(scheme, p, month)), 1));
    }
  }

  /** The keys of `agrupado`, in order, are fixed by the names the walk meets. */
  lemma {:induction false} GroupKeysByNames(cs: seq<Cell>, cs': seq<Cell>)
    requires Names(cs) == Names(cs')
    ensures KeysOf(GroupCells(cs)) == KeysOf(GroupCells(cs'))
    decreases |cs|
  {
    if |cs| > 0 {
      var pre, pre' := cs[..|cs| - 1], cs'[..|cs'| - 1];
      assert Names(pre) == Names(cs)[..|cs| - 1];
      assert Names(pre') == Names(cs')[..|cs'| - 1];
      GroupKeysByNames(pre, pre');
      var g, g' := GroupCells(pre), GroupCells(pre');
      var n := cs[|cs| - 1].entry.cliente;
      assert cs'[|cs'| - 1].entry.cliente == n by {
        assert Names(cs)[|cs| - 1] == Names(cs')[|cs| - 1];
      }
      assert Get(g, n).Some? == Get(g', n).Some? by {
        assert forall i | 0 <= i < |g| :: KeysOf(g)[i] == g[i].0;
        assert forall i | 0 <= i < |g'| :: KeysOf(g')[i] == g'[i].0;
      }
    }
  }

  // ---------------------------------------------------------------------
  // Moving a client's booking.

  /** The move request is complete: both days parsed and in order, and a
      target property chosen. */
  predicate MoveComplete(entrada: Option<int>, salida: Option<int>, target: string)
  {
    entrada.Some? && salida.Some? && entrada.value <= salida.value && target != ""
  }

  /** An entry of `name` that carries a colour. */
  predicate Painted(c: Cell, name: string)
  {
    c.entry.cliente == name && c.entry.color != ""
  }

  /** The colour the delete loop captures (`if (!clienteColor)`): that of the
      first entry of `name` with a non-empty colour, in visiting order. */
  function FirstColor(cs: seq<Cell>, name: string): (o: Option<string>)
    ensures o.None? <==> forall i | 0 <= i < |cs| :: !Painted(cs[i], name)
    ensures o.Some? ==> exists i | 0 <= i < |cs| ::
      Painted(cs[i], name) && cs[i].entry.color == o.value && forall j | 0 <= j < i :: !Painted(cs[j], name)
    decreases |cs|
  {
    if |cs| == 0 then None
    else if Painted(cs[0], name) then Some(cs[0].entry.color)
    else
      var o := FirstColor(cs[1..], name);
      assert forall i | 1 <= i < |cs| :: cs[i] == cs[1..][i - 1];
      if o.Some? then
        var i :| 0 <= i < |cs[1..]| && Painted(cs[1..][i], name) && cs[1..][i].entry.color == o.value
          && forall j | 0 <= j < i :: !Painted(cs[1..][j], name);
        assert Painted(cs[i + 1], name) && forall j | 0 <= j < i + 1 :: !Painted(cs[j], name);
        o
      else o
  }

  /** `clienteColor`: the captured colour, or the client's hashed colour
      when no entry of theirs carries one. */
  function MoveColor(l: Ledger, scheme: KeyScheme, month: string, ps: seq<string>, name: string): (c: string)
    ensures c != ""
    ensures c == ClientColor(name)
      || exists p, d: Day | p in ps && Holds(l, scheme, month, p, d, name) ::
           Sheet(l, SheetKey(scheme, p, month))[d].color == c
    ensures (forall p, d: Day | p in ps && Holds(l, scheme, month, p, d, name) ::
               Sheet(l, SheetKey(scheme, p, month))[d].color == "")
            ==> c == ClientColor(name)
    ensures var o := FirstColor(MonthCells(l, scheme, month, ps), name);
      o.Some? ==> c == o.value
  {
    var cs := MonthCells(l, scheme, month, ps);
    match FirstColor(cs, name)
    case Some(c) =>
      MonthCellsMembers(l, scheme, month, ps);
      var i :| 0 <= i < |cs| && Painted(cs[i], name) && cs[i].entry.color == c;
      assert cs[i] in cs;
      assert Holds(l, scheme, month, cs[i].planilla, cs[i].day, name);
      c
    case None => ClientColor(name)
  }

  /** The amount the rewritten days carry: `agrupado[name]?.total || 0`,
      with `agrupado` computed after the delete (`afterDelete`, as in the
      source) or before it. */
  function WrittenAmount(l: Ledger, scheme: KeyScheme, month: string, ps: seq<string>, name: string,
                         afterDelete: bool): real
  {
    var source := if afterDelete then DeleteClient(l, scheme, month, ps, name) else l;
    GroupTotal(GroupByClient(source, scheme, month, ps), name)
  }

  /** `handleGuardarEdicion(name)` with the edit form's `entrada`, `salida`
      (`parseInt` results, None for NaN) and target property: the checks in
      order, then the delete of `name`'s entries in the listed properties
      and the rewrite of the range in the target. The month length is
      computed inline there, `new Date(currentYear, MESES.indexOf(month) + 1,
      0).getDate()`, without a guard for a name outside `MESES`; by
      `Calendar.DaysInMonthIsLastDate` it is `getDaysInMonth` all the same. */
  function MoveWith(l: Ledger, scheme: KeyScheme, month: string, ps: seq<string>, currentYear: int,
                    name: string, entrada: Option<int>, salida: Option<int>, target: string,
                    afterDelete: bool): (r: Outcome)
    ensures r == Rejected(Incomplete) <==> !MoveComplete(entrada, salida, target)
    ensures r.Rejected? && r.why.OutOfRange? <==>
      MoveComplete(entrada, salida, target)
      && !RangeFits(entrada.value, salida.value, Calendar.DaysInMonth(month, currentYear))
    ensures r.Rejected? && r.why.OutOfRange? ==> r.why.daysInMonth == Calendar.DaysInMonth(month, currentYear)
    ensures r.Conflict? ==> |r.days| > 0
    ensures r.Saved? <==>
      MoveComplete(entrada, salida, target)
      && RangeFits(entrada.value, salida.value, Calendar.DaysInMonth(month, currentYear))
      && forall d: Day | entrada.value <= d <= salida.value ::
           !Blocks(Sheet(l, SheetKey(scheme, target, month)), d, Some(name))
  {
    if !MoveComplete(entrada, salida, target) then Rejected(Incomplete)
    else
      var dim := Calendar.DaysInMonth(month, currentYear);
      if entrada.value < 1 || salida.value > dim then Rejected(OutOfRange(dim))
      else
        var start: Day, end: Day := entrada.value, salida.value;
        var key := SheetKey(scheme, target, month);
        var os := Conflicts(Sheet(l, key), start, end, Some(name));
        NoConflicts(Sheet(l, key), start, end, Some(name));
        if |os| > 0 then Conflict(os)
        else
          var color := MoveColor(l, scheme, month, ps, name);
          var cleared := DeleteClient(l, scheme, month, ps, name);
          var e := Entry(name, color, Some(WrittenAmount(l, scheme, month, ps, name, afterDelete)));
          Saved(cleared[key := Fill(Sheet(cleared, key), start, end, e)])
  }

  /** A refused move lists exactly the days of the range in the target that
      hold a client other than `name`, each with that client, in ascending
      order; the client's own days never block the move. */
  lemma MoveConflictsExact(l: Ledger, scheme: KeyScheme, month: string, ps: seq<string>, currentYear: int,
                           name: string, entrada: Option<int>, salida: Option<int>, target: string,
                           afterDelete: bool, os: seq<Occupied>)
    requires MoveWith(l, scheme, month, ps, currentYear, name, entrada, salida, target, afterDelete) == Conflict(os)
    ensures entrada.Some? && salida.Some? && 1 <= entrada.value <= salida.value <= MaxDay
    ensures var dm := Sheet(l, SheetKey(scheme, target, month));
      && (forall i | 0 <= i < |os| ::
            entrada.value <= os[i].day <= salida.value && 1 <= os[i].day <= MaxDay
            && os[i].day in dm && dm[os[i].day].cliente != "" && dm[os[i].day].cliente != name
            && os[i].cliente == dm[os[i].day].cliente)
      && (forall d: Day | entrada.value <= d <= salida.value && d in dm && dm[d].cliente != ""
                          && dm[d].cliente != name ::
            Occupied(d, dm[d].cliente) in os)
      && (forall i, j | 0 <= i < j < |os| :: os[i].day < os[j].day)
  {
    MoveConflictScan(l, scheme, month, ps, currentYear, name, entrada, salida, target, afterDelete, os);
    ScanReportsOthers(Sheet(l, SheetKey(scheme, target, month)), entrada.value, salida.value, name, os);
  }

  /** A refused move reports what the scan of the requested range in the
      target found, with `name` exempted. */
  lemma MoveConflictScan(l: Ledger, scheme: KeyScheme, month: string, ps: seq<string>, currentYear: int,
                         name: string, entrada: Option<int>, salida: Option<int>, target: string,
                         afterDelete: bool, os: seq<Occupied>)
    requires MoveWith(l, scheme, month, ps, currentYear, name, entrada, salida, target, afterDelete) == Conflict(os)
    ensures entrada.Some? && salida.Some? && 1 <= entrada.value <= salida.value <= MaxDay
    ensures os == Conflicts(Sheet(l, SheetKey(scheme, target, month)), entrada.value, salida.value, Some(name))
  {
  }

  /** With `name` exempted, the scan reports exactly the range's days booked
      to someone else, each with its client, in ascending order. */
  lemma ScanReportsOthers(dm: DayLedger, lo: Day, hi: Day, name: string, os: seq<Occupied>)
    requires os == Conflicts(dm, lo, hi, Some(name))
    ensures forall i | 0 <= i < |os| ::
      lo <= os[i].day <= hi && 1 <= os[i].day <= MaxDay
      && os[i].day in dm && dm[os[i].day].cliente != "" && dm[os[i].day].cliente != name
      && os[i].cliente == dm[os[i].day].cliente
    ensures forall d: Day | lo <= d <= hi && d in dm && dm[d].cliente != "" && dm[d].cliente != name ::
      Occupied(d, dm[d].cliente) in os
    ensures forall i, j | 0 <= i < j < |os| :: os[i].day < os[j].day
  {
    forall d: Day | lo <= d <= hi && d in dm && dm[d].cliente != "" && dm[d].cliente != name
      ensures Occupied(d, dm[d].cliente) in os
    {
      assert Blocks(dm, d, Some(name));
    }
  }

  /** A saved move writes `name`, the captured colour and the amount on every
      day of the range in the target; elsewhere it only removes `name`'s
      entries from the listed properties. */
  lemma MoveWrites(l: Ledger, scheme: KeyScheme, month: string, ps: seq<string>, currentYear: int,
                   name: string, entrada: Option<int>, salida: Option<int>, target: string, afterDelete: bool)
    requires MoveWith(l, scheme, month, ps, currentYear, name, entrada, salida, target, afterDelete).Saved?
    ensures var r := MoveWith(l, scheme, month, ps, currentYear, name, entrada, salida, target, afterDelete).ledger;
      var key := SheetKey(scheme, target, month);
      var e := Entry(name, MoveColor(l, scheme, month, ps, name),
                     Some(WrittenAmount(l, scheme, month, ps, name, afterDelete)));
      && key in r
      && (forall d: Day | entrada.value <= d <= salida.value :: d in r[key] && r[key][d] == e)
      && (forall k, d: Day | !(k == key && entrada.value <= d <= salida.value) ::
            && (d in Sheet(r, k) <==>
                  d in Sheet(l, k) && !(k in ListedKeys(scheme, month, ps) && Sheet(l, k)[d].cliente == name))
            && (d in Sheet(r, k) ==> Sheet(r, k)[d] == Sheet(l, k)[d]))
  {
    MoveSaved(l, scheme, month, ps, currentYear, name, entrada, salida, target, afterDelete);
    FillCleared(l, scheme, month, ps, name, SheetKey(scheme, target, month), entrada.value, salida.value,
                Entry(name, MoveColor(l, scheme, month, ps, name),
                      Some(WrittenAmount(l, scheme, month, ps, name, afterDelete))));
  }

  /** Deleting a client and then filling a range of one key with `e`: the
      range holds `e`, every other day is what the delete left. */
  lemma FillCleared(l: Ledger, scheme: KeyScheme, month: string, ps: seq<string>, name: string,
                    key: string, start: Day, end: Day, e: Entry)
    ensures var c := DeleteClient(l, scheme, month, ps, name);
      var r := c[key := Fill(Sheet(c, key), start, end, e)];
      && key in r
      && (forall d: Day | start <= d <= end :: d in r[key] && r[key][d] == e)
      && (forall k, d: Day | !(k == key && start <= d <= end) ::
            && (d in Sheet(r, k) <==>
                  d in Sheet(l, k) && !(k in ListedKeys(scheme, month, ps) && Sheet(l, k)[d].cliente == name))
            && (d in Sheet(r, k) ==> Sheet(r, k)[d] == Sheet(l, k)[d]))
  {
    var c := DeleteClient(l, scheme, month, ps, name);
    var r := c[key := Fill(Sheet(c, key), start, end, e)];
    forall k, d: Day | !(k == key && start <= d <= end)
      ensures && (d in Sheet(r, k) <==>
                  d in Sheet(l, k) && !(k in ListedKeys(scheme, month, ps) && Sheet(l, k)[d].cliente == name))
              && (d in Sheet(r, k) ==> Sheet(r, k)[d] == Sheet(l, k)[d])
    {
      ClearedSheet(l, scheme, month, ps, name, k, d);
      assert k != key ==> Sheet(r, k) == Sheet(c, k);
    }
  }

  /** The ledger a saved move writes: the client deleted, then the range
      filled in the target. */
  lemma MoveSaved(l: Ledger, scheme: KeyScheme, month: string, ps: seq<string>, currentYear: int,
                  name: string, entrada: Option<int>, salida: Option<int>, target: string, afterDelete: bool)
    requires MoveWith(l, scheme, month, ps, currentYear, name, entrada, salida, target, afterDelete).Saved?
    ensures MoveWith(l, scheme, month, ps, currentYear, name, entrada, salida, target, afterDelete).ledger
         == DeleteClient(l, scheme, month, ps, name)[SheetKey(scheme, target, month) :=
              Fill(Sheet(DeleteClient(l, scheme, month, ps, name), SheetKey(scheme, target, month)),
                   entrada.value, salida.value,
                   Entry(name, MoveColor(l, scheme, month, ps, name),
                         Some(WrittenAmount(l, scheme, month, ps, name, afterDelete))))]
  {
  }

  /** One day of one key after the delete. */
  lemma ClearedSheet(l: Ledger, scheme: KeyScheme, month: string, ps: seq<string>, name: string, k: string, d: Day)
    ensures var c := DeleteClient(l, scheme, month, ps, name);
      && (d in Sheet(c, k) <==> d in Sheet(l, k) && !(k in ListedKeys(scheme, month, ps) && Sheet(l, k)[d].cliente == name))
      && (d in Sheet(c, k) ==> Sheet(c, k)[d] == Sheet(l, k)[d])
  {
  }

  /** Property names and a month name that keep their keys apart. */
  predicate Separable(ps: seq<string>, month: string)
  {
    NoSeparator(month) && forall i | 0 <= i < |ps| :: NoSeparator(ps[i])
  }

  /** After a saved move to a listed target, the client holds exactly the
      range in the target and nothing else in the listed properties. */
  lemma MoveHolds(l: Ledger, scheme: KeyScheme, month: string, ps: seq<string>, currentYear: int,
                  name: string, entrada: Option<int>, salida: Option<int>, target: string, afterDelete: bool)
    requires MoveWith(l, scheme, month, ps, currentYear, name, entrada, salida, target, afterDelete).Saved?
    requires target in ps && Separable(ps, month)
    ensures var r := MoveWith(l, scheme, month, ps, currentYear, name, entrada, salida, target, afterDelete).ledger;
      forall p, d: Day | p in ps :: Holds(r, scheme, month, p, d, name) <==> p == target && entrada.value <= d <= salida.value
  {
    MoveSaved(l, scheme, month, ps, currentYear, name, entrada, salida, target, afterDelete);
    FillClearedHolds(l, scheme, month, ps, name, target, entrada.value, salida.value,
                     Entry(name, MoveColor(l, scheme, month, ps, name),
                           Some(WrittenAmount(l, scheme, month, ps, name, afterDelete))));
  }

  /** Deleting a client and then filling a range of a listed property with
      one of their entries: they hold exactly that range there and nothing
      else in the listed properties. */
  lemma FillClearedHolds(l: Ledger, scheme: KeyScheme, month: string, ps: seq<string>, name: string,
                         target: string, start: Day, end: Day, e: Entry)
    requires target in ps && Separable(ps, month) && e.cliente == name
    ensures var c := DeleteClient(l, scheme, month, ps, name);
      var key := SheetKey(scheme, target, month);
      var r := c[key := Fill(Sheet(c, key), start, end, e)];
      && (forall p, d: Day | p in ps :: Holds(r, scheme, month, p, d, name) <==> p == target && start <= d <= end)
      && (start <= end ==> start in Sheet(r, key) && Sheet(r, key)[start] == e)
  {
    var c := DeleteClient(l, scheme, month, ps, name);
    var key := SheetKey(scheme, target, month);
    var r := c[key := Fill(Sheet(c, key), start, end, e)];
    FillCleared(l, scheme, month, ps, name, key, start, end, e);
    forall p, d: Day | p in ps
      ensures Holds(r, scheme, month, p, d, name) <==> p == target && start <= d <= end
    {
      var i :| 0 <= i < |ps| && ps[i] == p;
      var j :| 0 <= j < |ps| && ps[j] == target;
      SheetKeyInjective(scheme, p, target, month);
      assert SheetKey(scheme, p, month) in ListedKeys(scheme, month, ps);
    }
  }

  /** After a saved move to a listed target the client's line is exactly the
      new stay: the range as days, the target as only property, first and
      last day the ends of the range, and the written amount. */
  lemma MoveRelocates(l: Ledger, scheme: KeyScheme, month: string, ps: seq<string>, currentYear: int,
                      name: string, entrada: Option<int>, salida: Option<int>, target: string, afterDelete: bool)
    requires MoveWith(l, scheme, month, ps, currentYear, name, entrada, salida, target, afterDelete).Saved?
    requires target in ps && Separable(ps, month) && Distinct(ps) && name != ""
    ensures var r := MoveWith(l, scheme, month, ps, currentYear, name, entrada, salida, target, afterDelete).ledger;
      var o := Get(GroupByClient(r, scheme, month, ps), name);
      && o.Some?
      && (forall d: Day :: d in o.value.dias <==> entrada.value <= d <= salida.value)
      && o.value.planillas == {target}
      && o.value.firstDay == entrada.value && o.value.lastDay == salida.value
      && o.value.initialPlanilla == target
      && o.value.total == WrittenAmount(l, scheme, month, ps, name, afterDelete)
  {
    var r := MoveWith(l, scheme, month, ps, currentYear, name, entrada, salida, target, afterDelete).ledger;
    var start: Day, end: Day := entrada.value, salida.value;
    MoveSaved(l, scheme, month, ps, currentYear, name, entrada, salida, target, afterDelete);
    FillClearedHolds(l, scheme, month, ps, name, target, start, end,
                     Entry(name, MoveColor(l, scheme, month, ps, name),
                           Some(WrittenAmount(l, scheme, month, ps, name, afterDelete))));
    SoleStaySpan(r, scheme, month, ps, name, target, start, end);
    SoleStayFirst(r, scheme, month, ps, name, target, start, end);
  }

  /** A client holding exactly the days `start..end` of one listed property. */
  ghost predicate SoleStay(l: Ledger, scheme: KeyScheme, month: string, ps: seq<string>, n: string,
                           target: string, start: Day, end: Day)
  {
    forall p, d: Day | p in ps :: Holds(l, scheme, month, p, d, n) <==> p == target && start <= d <= end
  }

  /** Such a client's line spans exactly that stay. */
  lemma SoleStaySpan(l: Ledger, scheme: KeyScheme, month: string, ps: seq<string>, n: string,
                     target: string, start: Day, end: Day)
    requires n != "" && target in ps && start <= end
    requires SoleStay(l, scheme, month, ps, n, target, start, end)
    ensures var o := Get(GroupByClient(l, scheme, month, ps), n);
      && o.Some?
      && (forall d: Day :: d in o.value.dias <==> start <= d <= end)
      && o.value.planillas == {target}
      && o.value.firstDay == start && o.value.lastDay == end
  {
    assert Holds(l, scheme, month, target, start, n);
    GroupedClients(l, scheme, month, ps, n);
    GroupedDays(l, scheme, month, ps, n);
    var g := Get(GroupByClient(l, scheme, month, ps), n).value;
    forall d: Day ensures d in g.dias <==> start <= d <= end {
      if start <= d <= end {
        assert Holds(l, scheme, month, target, d, n);
      }
    }
    forall p ensures p in g.planillas <==> p == target {
      if p == target {
        assert Holds(l, scheme, month, target, start, n);
      }
    }
    assert start in g.dias && end in g.dias;
  }

  /** Such a client's line starts at the first day of the stay, and takes
      its property and that day's amount. */
  lemma SoleStayFirst(l: Ledger, scheme: KeyScheme, month: string, ps: seq<string>, n: string,
                      target: string, start: Day, end: Day)
    requires Distinct(ps) && n != "" && target in ps && start <= end
    requires SoleStay(l, scheme, month, ps, n, target, start, end)
    ensures var o := Get(GroupByClient(l, scheme, month, ps), n);
      && o.Some?
      && o.value.initialPlanilla == target
      && start in Sheet(l, SheetKey(scheme, target, month))
      && o.value.total == OrZero(Sheet(l, SheetKey(scheme, target, month))[start].total)
  {
    assert Holds(l, scheme, month, target, start, n);
    GroupedClients(l, scheme, month, ps, n);
    GroupedFirst(l, scheme, month, ps, n);
    var p, d: Day :| FirstHeld(l, scheme, month, ps, n, p, d)
      && Get(GroupByClient(l, scheme, month, ps), n).value.total == OrZero(Sheet(l, SheetKey(scheme, p, month))[d].total)
      && Get(GroupByClient(l, scheme, month, ps), n).value.initialPlanilla == p;
    assert p == target && start <= d;
  }

  /** A move leaves every other client's line as it was. */
  lemma MoveKeepsOthers(l: Ledger, scheme: KeyScheme, month: string, ps: seq<string>, currentYear: int,
                        name: string, entrada: Option<int>, salida: Option<int>, target: string,
                        afterDelete: bool, n: string)
    requires MoveWith(l, scheme, month, ps, currentYear, name, entrada, salida, target, afterDelete).Saved?
    requires Distinct(ps) && n != name
    ensures var r := MoveWith(l, scheme, month, ps, currentYear, name, entrada, salida, target, afterDelete).ledger;
      Get(GroupByClient(r, scheme, month, ps), n) == Get(GroupByClient(l, scheme, month, ps), n)
  {
    var r := MoveWith(l, scheme, month, ps, currentYear, name, entrada, salida, target, afterDelete).ledger;
    MoveWrites(l, scheme, month, ps, currentYear, name, entrada, salida, target, afterDelete);
    if n == "" {
      GroupedClients(l, scheme, month, ps, n);
      GroupedClients(r, scheme, month, ps, n);
    } else {
      var key := SheetKey(scheme, target, month);
      forall p, d: Day | p in ps
        ensures Holds(r, scheme, month, p, d, n) == Holds(l, scheme, month, p, d, n)
      {
        assert SheetKey(scheme, p, month) in ListedKeys(scheme, month, ps);
        if SheetKey(scheme, p, month) == key && entrada.value <= d <= salida.value {
          assert !Blocks(Sheet(l, key), d, Some(name));
        }
      }
      SameGroup(l, r, scheme, month, ps, n);
    }
  }

  /** `handleGuardarEdicion` as written: `agrupado` is computed after the
      delete loop, which mutates the shared day maps, so the moved days
      always carry the amount 0. */
  function MoveBooking(l: Ledger, scheme: KeyScheme, month: string, ps: seq<string>, currentYear: int,
                       name: string, entrada: Option<int>, salida: Option<int>, target: string): (r: Outcome)
    ensures r.Saved? ==> MoveComplete(entrada, salida, target)
    ensures r.Saved? ==> forall d: Day | entrada.value <= d <= salida.value ::
      var dm := Sheet(r.ledger, SheetKey(scheme, target, month));
      d in dm && dm[d].cliente == name && dm[d].total == Some(0.0)
  {
    var r := MoveWith(l, scheme, month, ps, currentYear, name, entrada, salida, target, true);
    if r.Saved? then
      MoveWrites(l, scheme, month, ps, currentYear, name, entrada, salida, target, true);
      DeleteUngroups(l, scheme, month, ps, name);
      r
    else r
  }

  /** The move as evidently intended: the amount is read before the delete,
      so the moved days carry the client's amount. */
  function MoveBookingKeepingAmount(l: Ledger, scheme: KeyScheme, month: string, ps: seq<string>,
                                    currentYear: int, name: string, entrada: Option<int>,
                                    salida: Option<int>, target: string): (r: Outcome)
    ensures r.Saved? ==> MoveComplete(entrada, salida, target)
    ensures r.Saved? ==> forall d: Day | entrada.value <= d <= salida.value ::
      var dm := Sheet(r.ledger, SheetKey(scheme, target, month));
      d in dm && dm[d].cliente == name && dm[d].total == Some(GroupTotal(GroupByClient(l, scheme, month, ps), name))
  {
    var r := MoveWith(l, scheme, month, ps, currentYear, name, entrada, salida, target, false);
    if r.Saved? then
      MoveWrites(l, scheme, month, ps, currentYear, name, entrada, salida, target, false);
      r
    else r
  }

  /** The move as written loses a client's amount: a client listed with a
      non-zero amount who moves within the listed properties is listed
      afterwards with amount 0, and the income total drops accordingly. */
  lemma MoveLosesAmount(l: Ledger, scheme: KeyScheme, month: string, ps: seq<string>, currentYear: int,
                        name: string, entrada: Option<int>, salida: Option<int>, target: string)
    requires MoveBooking(l, scheme, month, ps, currentYear, name, entrada, salida, target).Saved?
    requires target in ps && Separable(ps, month) && Distinct(ps) && name != ""
    requires GroupTotal(GroupByClient(l, scheme, month, ps), name) != 0.0
    ensures var r := MoveBooking(l, scheme, month, ps, currentYear, name, entrada, salida, target).ledger;
      GroupTotal(GroupByClient(r, scheme, month, ps), name) == 0.0
      != GroupTotal(GroupByClient(l, scheme, month, ps), name)
  {
    MoveRelocates(l, scheme, month, ps, currentYear, name, entrada, salida, target, true);
    DeleteUngroups(l, scheme, month, ps, name);
  }

  /** The corrected move keeps the client's amount: after it the client is
      listed with the amount they had before. */
  lemma MoveKeepsAmount(l: Ledger, scheme: KeyScheme, month: string, ps: seq<string>, currentYear: int,
                        name: string, entrada: Option<int>, salida: Option<int>, target: string)
    requires MoveBookingKeepingAmount(l, scheme, month, ps, currentYear, name, entrada, salida, target).Saved?
    requires target in ps && Separable(ps, month) && Distinct(ps) && name != ""
    ensures var r := MoveBookingKeepingAmount(l, scheme, month, ps, currentYear, name, entrada, salida, target).ledger;
      GroupTotal(GroupByClient(r, scheme, month, ps), name) == GroupTotal(GroupByClient(l, scheme, month, ps), name)
  {
    MoveRelocates(l, scheme, month, ps, currentYear, name, entrada, salida, target, false);
  }
}
