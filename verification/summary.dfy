/** The monthly summary (`src/components/ResumenMensual.jsx`): occupied days
    and income per property, the month's expense set, and the balance. */
module Summary {
  import opened JsObject
  import opened StorageKeys
  import opened Bookings

  /** The summary's own property list, two longer than the others. */
  const SummaryProperties: seq<string> :=
    ["Depto 1", "Depto 2", "Depto 3", "Depto 4", "Depto 5", "Depto 6", "Casa"]

  /** The expense categories of `GASTOS`. */
  const Categories: seq<string> :=
    ["Gas", "Luz", "Agua", "Cable", "Municipalidad", "Rentas",
     "Varios", "Impuestos", "Jardinero", "Empleada", "Piletero", "Marketing"]

  /** The expense set shown when the month has none stored: every category at 0. */
  const DefaultExpenses: Assoc<real> :=
    [("Gas", 0.0), ("Luz", 0.0), ("Agua", 0.0), ("Cable", 0.0), ("Municipalidad", 0.0), ("Rentas", 0.0),
     ("Varios", 0.0), ("Impuestos", 0.0), ("Jardinero", 0.0), ("Empleada", 0.0), ("Piletero", 0.0),
     ("Marketing", 0.0)]

  /** `gastosMensuales`: expense sets under `${month}_${year}` keys. */
  type ExpenseBook = map<string, Assoc<real>>

  /** `gastos`: the stored set for the month, or the default one. Any stored
      object, even an empty one, is truthy and is used as it is. */
  function MonthExpenses(book: ExpenseBook, month: string, year: int): (g: Assoc<real>)
    ensures GastosKey(month, year) !in book ==>
      KeysOf(g) == Categories && forall i | 0 <= i < |g| :: g[i].1 == 0.0
    ensures GastosKey(month, year) in book ==> g == book[GastosKey(month, year)]
  {
    var key := GastosKey(month, year);
    if key in book then book[key] else DefaultExpenses
  }

  /** An expense's value as `Sum` adds it. A named function rather than a
      lambda, so that every total and every lemma about it name the same
      function value. */
  function Amount(x: real): real { x }

  /** `totalGastos`: the month's expenses added up. */
  function ExpenseTotal(g: Assoc<real>): real
  {
    Sum(g, Amount)
  }

  /** An expense set whose values are all 0 adds up to 0. */
  lemma {:induction false} ZeroSum(g: Assoc<real>)
    requires forall i | 0 <= i < |g| :: g[i].1 == 0.0
    ensures ExpenseTotal(g) == 0.0
    decreases |g|
  {
    if |g| > 0 {
      ZeroSum(g[..|g| - 1]);
    }
  }

  /** A month without stored expenses costs nothing. */
  lemma DefaultExpensesCostNothing(book: ExpenseBook, month: string, year: int)
    requires GastosKey(month, year) !in book
    ensures ExpenseTotal(MonthExpenses(book, month, year)) == 0.0
  {
    ZeroSum(MonthExpenses(book, month, year));
  }

  /** `handleGastoChange(nombre, valor)`, where `parsed` is `parseFloat(valor)`
      (None for NaN): the month's set, stored or default, with `nombre` set
      to `parsed || 0`, written back under the month's key. */
  function SetExpense(book: ExpenseBook, month: string, year: int, nombre: string,
                      parsed: Option<real>): (r: ExpenseBook)
    ensures r.Keys == book.Keys + {GastosKey(month, year)}
    ensures forall k | k in book && k != GastosKey(month, year) :: r[k] == book[k]
    ensures Get(r[GastosKey(month, year)], nombre) == Some(OrZero(parsed))
    ensures forall c | c != nombre ::
      Get(r[GastosKey(month, year)], c) == Get(MonthExpenses(book, month, year), c)
  {
    var key := GastosKey(month, year);
    book[key := Put(MonthExpenses(book, month, year), nombre, OrZero(parsed))]
  }

  /** Setting one category moves the month's expense total by the change in
      that category. */
  lemma SetExpenseTotal(book: ExpenseBook, month: string, year: int, nombre: string, parsed: Option<real>)
    ensures var before := MonthExpenses(book, month, year);
      ExpenseTotal(MonthExpenses(SetExpense(book, month, year, nombre, parsed), month, year))
        == ExpenseTotal(before) + OrZero(parsed)
           - (match Get(before, nombre) case Some(v) => v case None => 0.0)
  {
    SumPut(MonthExpenses(book, month, year), nombre, OrZero(parsed), Amount);
  }

  // ---------------------------------------------------------------------
  // Per-property figures.

  /** One row of `resumen`: the number of booked days and the income. */
  datatype PropertySummary = PropertySummary(dias: nat, ingreso: real)

  /** `clientes` of one property after visiting `cs`: each client mapped to
      the `total` of their last entry. The guard's second half,
      `total !== undefined || total !== null`, always holds, so every entry
      with a client is taken. */
  function ClientAmounts(cs: seq<Cell>): (c: Assoc<Option<real>>)
    ensures UniqueKeys(c)
    decreases |cs|
  {
    if |cs| == 0 then []
    else
      var pre := ClientAmounts(cs[..|cs| - 1]);
      var x := cs[|cs| - 1];
      if x.entry.cliente == "" then pre else Put(pre, x.entry.cliente, x.entry.total)
  }

  /** `calcularResumen` for one property's day map: `dias` counts the day
      keys, `ingreso` adds each client's last amount once (`parseFloat(x) || 0`). */
  function Summarize(p: string, dm: DayLedger): (s: PropertySummary)
    ensures s.dias == |dm|
    ensures (forall d | d in dm :: dm[d].cliente == "") ==> s.ingreso == 0.0
  {
    DayCellsFacts(p, dm, 1);
    NamelessAmounts(DayCells(p, dm, 1));
    PropertySummary(|dm|, Sum(ClientAmounts(DayCells(p, dm, 1)), OrZero))
  }

  /** Entries without a client name never enter `clientes`. */
  lemma {:induction false} NamelessAmounts(cs: seq<Cell>)
    ensures (forall i | 0 <= i < |cs| :: cs[i].entry.cliente == "") ==> ClientAmounts(cs) == []
    decreases |cs|
  {
    if |cs| > 0 {
      NamelessAmounts(cs[..|cs| - 1]);
    }
  }

  /** One step of the walk: the last entry's client takes its amount, every
      other client keeps theirs. */
  lemma ClientAmountsStep(cs: seq<Cell>, n: string)
    requires |cs| > 0
    ensures Get(ClientAmounts(cs), n)
         == if cs[|cs| - 1].entry.cliente == n && n != "" then Some(cs[|cs| - 1].entry.total)
            else Get(ClientAmounts(cs[..|cs| - 1]), n)
  {
    var a := ClientAmounts(cs[..|cs| - 1]);
    var x := cs[|cs| - 1];
    assert ClientAmounts(cs) == if x.entry.cliente == "" then a else Put(a, x.entry.cliente, x.entry.total);
  }

  /** A client appears in `clientes` exactly when some entry holds them. */
  lemma {:induction false} ClientAmountsKeys(cs: seq<Cell>, n: string)
    ensures Get(ClientAmounts(cs), n).Some? <==> n != "" && n in Names(cs)
    decreases |cs|
  {
    if |cs| > 0 {
      var pre := cs[..|cs| - 1];
      ClientAmountsKeys(pre, n);
      ClientAmountsStep(cs, n);
      NamesSnoc(cs);
    }
  }

  /** A client in `clientes` carries the amount of their last entry. */
  lemma {:induction false} ClientAmountsLast(cs: seq<Cell>, n: string)
    requires Get(ClientAmounts(cs), n).Some?
    ensures exists i | 0 <= i < |cs| ::
      && cs[i].entry.cliente == n && Get(ClientAmounts(cs), n).value == cs[i].entry.total
      && forall j | i < j < |cs| :: cs[j].entry.cliente != n
    decreases |cs|
  {
    ClientAmountsKeys(cs, n);
    var pre, x := cs[..|cs| - 1], cs[|cs| - 1];
    var o := Get(ClientAmounts(cs), n);
    ClientAmountsStep(cs, n);
    if x.entry.cliente == n {
      assert cs[|cs| - 1].entry.cliente == n && o.value == cs[|cs| - 1].entry.total;
    } else {
      ClientAmountsLast(pre, n);
      var i :| 0 <= i < |pre| && pre[i].entry.cliente == n && o.value == pre[i].entry.total
        && forall j | i < j < |pre| :: pre[j].entry.cliente != n;
      StillLast(pre, cs, n, i);
    }
  }

  /** The last entry of client `n` before a final entry of someone else is
      still their last. */
  lemma StillLast(pre: seq<Cell>, cs: seq<Cell>, n: string, i: int)
    requires |cs| > 0 && pre == cs[..|cs| - 1] && 0 <= i < |pre|
    requires cs[|cs| - 1].entry.cliente != n
    requires forall j | i < j < |pre| :: pre[j].entry.cliente != n
    ensures forall j | i < j < |cs| :: cs[j].entry.cliente != n
  {
    forall j | i < j < |cs| ensures cs[j].entry.cliente != n {
      if j < |pre| { assert cs[j] == pre[j]; }
    }
  }

  /** A walk meeting only client `n`, always with amount `v`, leaves `n` as
      the only client, with amount `v`. */
  lemma {:induction false} OneClientAmounts(cs: seq<Cell>, n: string, v: Option<real>)
    requires |cs| > 0 && n != ""
    requires forall i | 0 <= i < |cs| :: cs[i].entry.cliente == n && cs[i].entry.total == v
    ensures ClientAmounts(cs) == [(n, v)]
    decreases |cs|
  {
    if |cs| > 1 {
      OneClientAmounts(cs[..|cs| - 1], n, v);
      PutOne(n, v);
      assert ClientAmounts(cs) == Put([(n, v)], n, v);
    } else {
      PutOne(n, v);
      assert ClientAmounts(cs) == Put([], n, v);
    }
  }

  /** A client booked on several days of one property counts once: a
      property whose every entry is client `n` with amount `t` earns `t`,
      whatever the number of days. */
  lemma IncomeCountsClientOnce(p: string, dm: DayLedger, n: string, t: real)
    requires n != "" && |dm| > 0
    requires forall d | d in dm :: dm[d].cliente == n && dm[d].total == Some(t)
    ensures Summarize(p, dm).ingreso == t
    ensures Summarize(p, dm).dias == |dm|
  {
    var cs := DayCells(p, dm, 1);
    DayCellsFacts(p, dm, 1);
    var d :| d in dm;
    assert Cell(p, d, dm[d]) in cs;
    OneClientAmounts(cs, n, Some(t));
    assert Sum(ClientAmounts(cs), OrZero) == Sum([], OrZero) + OrZero(Some(t));
  }

  /** `clientes` after visiting `cs` as the source builds it: for a client
      named `__proto__`, `clientes[info.cliente] = info.total` goes to the
      inherited accessor, which ignores a number or `undefined`, so that
      client never gets a property. Every other client is as in
      `ClientAmounts`. */
  function ClientAmountsAsWritten(cs: seq<Cell>): (c: Assoc<Option<real>>)
    ensures forall n :: Get(c, n) == if n == ProtoName then None else Get(ClientAmounts(cs), n)
    decreases |cs|
  {
    if |cs| == 0 then []
    else
      var pre := ClientAmountsAsWritten(cs[..|cs| - 1]);
      var x := cs[|cs| - 1];
      var c := if x.entry.cliente == "" || x.entry.cliente == ProtoName then pre
               else Put(pre, x.entry.cliente, x.entry.total);
      assert forall n :: Get(c, n) == if n == ProtoName then None else Get(ClientAmounts(cs), n) by {
        forall n ensures Get(c, n) == if n == ProtoName then None else Get(ClientAmounts(cs), n) {
          ClientAmountsStep(cs, n);
        }
      }
      c
  }

  /** `calcularResumen` for one property's day map as written: a client
      named `__proto__` adds nothing to `ingreso`. */
  function SummarizeAsWritten(p: string, dm: DayLedger): (s: PropertySummary)
    ensures s.dias == Summarize(p, dm).dias
  {
    PropertySummary(|dm|, Sum(ClientAmountsAsWritten(DayCells(p, dm, 1)), OrZero))
  }

  /** Without a client named `__proto__` the walk as written builds the
      same `clientes`. */
  lemma {:induction false} ProtoFreeAmounts(cs: seq<Cell>)
    requires forall i | 0 <= i < |cs| :: cs[i].entry.cliente != ProtoName
    ensures ClientAmountsAsWritten(cs) == ClientAmounts(cs)
    decreases |cs|
  {
    if |cs| > 0 {
      ProtoFreeAmounts(cs[..|cs| - 1]);
    }
  }

  /** A walk meeting only `__proto__` leaves `clientes` empty as written. */
  lemma {:induction false} ProtoOnlyAmounts(cs: seq<Cell>)
    requires forall i | 0 <= i < |cs| :: cs[i].entry.cliente == ProtoName
    ensures ClientAmountsAsWritten(cs) == []
    decreases |cs|
  {
    if |cs| > 0 {
      ProtoOnlyAmounts(cs[..|cs| - 1]);
    }
  }

  /** The summary as written agrees with `Summarize` on every property
      without a client named `__proto__`. */
  lemma SummarizeAsWrittenAgrees(p: string, dm: DayLedger)
    requires forall d | d in dm :: dm[d].cliente != ProtoName
    ensures SummarizeAsWritten(p, dm) == Summarize(p, dm)
  {
    DayCellsFacts(p, dm, 1);
    ProtoFreeAmounts(DayCells(p, dm, 1));
  }

  /** A property booked only by a client named `__proto__` for amount `t`
      earns `t` in `Summarize`, and nothing as written. */
  lemma ProtoClientEarnsNothing(p: string, dm: DayLedger, t: real)
    requires |dm| > 0
    requires forall d | d in dm :: dm[d].cliente == ProtoName && dm[d].total == Some(t)
    ensures SummarizeAsWritten(p, dm).ingreso == 0.0
    ensures Summarize(p, dm).ingreso == t
  {
    DayCellsFacts(p, dm, 1);
    ProtoOnlyAmounts(DayCells(p, dm, 1));
    IncomeCountsClientOnce(p, dm, ProtoName, t);
  }

  /** `resumen` after the properties `ps`, in order. */
  function Resumen(l: Ledger, scheme: KeyScheme, month: string, ps: seq<string>): Assoc<PropertySummary>
    decreases |ps|
  {
    if |ps| == 0 then []
    else
      var p := ps[|ps| - 1];
      Put(Resumen(l, scheme, month, ps[..|ps| - 1]), p, Summarize(p, Sheet(l, SheetKey(scheme, p, month))))
  }

  /** Every listed property has its summary in `resumen`, and nothing else
      does (an absent key reads as an empty month: 0 days, no income). */
  lemma {:induction false} ResumenGet(l: Ledger, scheme: KeyScheme, month: string, ps: seq<string>, p: string)
    ensures Get(Resumen(l, scheme, month, ps), p)
         == if p in ps then Some(Summarize(p, Sheet(l, SheetKey(scheme, p, month)))) else None
    decreases |ps|
  {
    if |ps| > 0 {
      var pre := ps[..|ps| - 1];
      assert ps == pre + [ps[|ps| - 1]];
      ResumenGet(l, scheme, month, pre, p);
    }
  }

  /** A property not listed has no row. */
  lemma ResumenAbsent(l: Ledger, scheme: KeyScheme, month: string, ps: seq<string>, p: string)
    requires p !in ps
    ensures Get(Resumen(l, scheme, month, ps), p).None?
  {
    ResumenGet(l, scheme, month, ps, p);
  }

  /** With distinct properties, `resumen` lists them in order. */
  lemma {:induction false} ResumenKeys(l: Ledger, scheme: KeyScheme, month: string, ps: seq<string>)
    requires Distinct(ps)
    ensures KeysOf(Resumen(l, scheme, month, ps)) == ps
    decreases |ps|
  {
    if |ps| > 0 {
      var pre, p := ps[..|ps| - 1], ps[|ps| - 1];
      assert ps == pre + [p];
      DistinctInit(ps);
      ResumenKeys(l, scheme, month, pre);
      ResumenAbsent(l, scheme, month, pre, p);
    }
  }

  /** With distinct properties, `resumen` has one row per property, in order,
      each the summary of that property's day map. */
  lemma ResumenRows(l: Ledger, scheme: KeyScheme, month: string, ps: seq<string>)
    requires Distinct(ps)
    ensures var r := Resumen(l, scheme, month, ps);
      |r| == |ps| && forall i | 0 <= i < |ps| :: r[i] == (ps[i], Summarize(ps[i], Sheet(l, SheetKey(scheme, ps[i], month))))
  {
    var r := Resumen(l, scheme, month, ps);
    ResumenKeys(l, scheme, month, ps);
    UniqueKeysDistinct(r);
    forall i | 0 <= i < |ps|
      ensures r[i] == (ps[i], Summarize(ps[i], Sheet(l, SheetKey(scheme, ps[i], month))))
    {
      assert KeysOf(r)[i] == r[i].0;
      GetAt(r, i);
      ResumenGet(l, scheme, month, ps, ps[i]);
    }
  }

  function Dias(s: PropertySummary): real { s.dias as real }

  function Ingreso(s: PropertySummary): real { s.ingreso }

  /** `totalIngresos`. */
  function TotalIncome(r: Assoc<PropertySummary>): real { Sum(r, Ingreso) }

  /** `totalDias`. */
  function TotalDays(r: Assoc<PropertySummary>): real { Sum(r, Dias) }

  /** The number of day keys over the properties `ps`. */
  function BookedDays(l: Ledger, scheme: KeyScheme, month: string, ps: seq<string>): nat
    decreases |ps|
  {
    if |ps| == 0 then 0
    else BookedDays(l, scheme, month, ps[..|ps| - 1]) + |Sheet(l, SheetKey(scheme, ps[|ps| - 1], month))|
  }

  /** `totalDias` counts every day key of every listed property once. */
  lemma {:induction false} TotalDaysCountsKeys(l: Ledger, scheme: KeyScheme, month: string, ps: seq<string>)
    requires Distinct(ps)
    ensures TotalDays(Resumen(l, scheme, month, ps)) == BookedDays(l, scheme, month, ps) as real
    decreases |ps|
  {
    if |ps| > 0 {
      var pre, p := ps[..|ps| - 1], ps[|ps| - 1];
      DistinctInit(ps);
      TotalDaysCountsKeys(l, scheme, month, pre);
      ResumenGet(l, scheme, month, pre, p);
      SumPut(Resumen(l, scheme, month, pre), p, Summarize(p, Sheet(l, SheetKey(scheme, p, month))), Dias);
    }
  }

  /** `balanceFinal`. */
  function Balance(l: Ledger, book: ExpenseBook, year: int, month: string, ps: seq<string>): real
  {
    TotalIncome(Resumen(l, MonthAndYear(year), month, ps)) - ExpenseTotal(MonthExpenses(book, month, year))
  }

  /** Raising one expense by `x` lowers the balance by `x`; bookings are untouched. */
  lemma SetExpenseBalance(l: Ledger, book: ExpenseBook, year: int, month: string, ps: seq<string>,
                          nombre: string, parsed: Option<real>)
    ensures var before := MonthExpenses(book, month, year);
      Balance(l, SetExpense(book, month, year, nombre, parsed), year, month, ps)
        == Balance(l, book, year, month, ps) - OrZero(parsed)
           + (match Get(before, nombre) case Some(v) => v case None => 0.0)
  {
    SetExpenseTotal(book, month, year, nombre, parsed);
  }

  /** With no expenses stored for the month, the balance is the income. */
  lemma BalanceWithoutExpenses(l: Ledger, book: ExpenseBook, year: int, month: string, ps: seq<string>)
    requires GastosKey(month, year) !in book
    ensures Balance(l, book, year, month, ps) == TotalIncome(Resumen(l, MonthAndYear(year), month, ps))
  {
    DefaultExpensesCostNothing(book, month, year);
  }
}
