# Booking ledger of a holiday rental (reservas-brisas)

A Dafny model of the bookkeeping logic of a small React application. The application keeps bookings and expenses for a handful of rental units ("planillas": `Depto 1` … `Casa`).

The bookings live in one object (`planillasData`). It maps a storage key to a day map `{ day: { cliente, color, total } }`. The monthly expenses live in a second object (`gastosMensuales`), keyed by `${month}_${year}`. The model covers the pure logic of five files:

- `src/utils/dateUtils.js`, the calendar arithmetic. This is module `Calendar`, with the key builders in `StorageKeys`. The month length and the first weekday are derived from ECMA-262's `MakeDay`/`Date` arithmetic rather than assumed.
- `src/components/Calendar.jsx`, the booking form. This is module `Bookings`: validation, the conflict scan, and the write of a stay.
- `src/components/ListaClientes.jsx`, the client list. This is module `ClientList`: grouping the month's entries by client, deleting a client, setting a client's amount, and moving a client's booking.
- `src/components/ResumenMensual.jsx`, the monthly summary. This is module `Summary`: per-unit occupied days and income, the expense set, and the balance.
- `src/components/VistaMensual.jsx`, the monthly overview. This is module `Overview`: a day's entry, the occupancy statistics, and the client legend.

Two small support modules model the JavaScript behaviour these files lean on:

- `JsObject` covers insertion-ordered objects, `indexOf`, `Object.values(...).reduce` sums, and the names every plain object inherits.
- `JsText` covers `trim`, `charCodeAt`, and decimal rendering of a year.

React state, rendering and `localStorage` are outside the model. Every handler is a pure function from the old ledger to an outcome or a new ledger.

Two key schemes are used for the day maps:

- `MonthOnly` is `${planilla}_${month}`. The form and the client list use it.
- `MonthAndYear(year)` is `${planilla}_${month}_${year}`. The overview and the summary use it.

Both schemes are parameters of the handlers, so every lemma holds under either one. `StorageKeys.SchemesNeverMeet` proves that the two schemes never produce the same key.

## Model

| member | source | states |
|---|---|---|
| JsObject.IndexOf | src/utils/dateUtils.js:13 | `indexOf` gives the first position holding the value, or -1 exactly when no position holds it |
| JsObject.Get | src/components/ListaClientes.jsx:19 | an own property read is absent exactly when no pair has the key, and otherwise returns the paired value |
| JsObject.Put | src/components/ResumenMensual.jsx:122 | `{...o, [k]: v}` reads `v` at `k` and leaves every other key's value alone; an existing key keeps its place and a new key goes last; distinct keys stay distinct |
| JsObject.SumPut | src/components/ResumenMensual.jsx:135 | the `reduce` sum after an assignment moves by the new value minus the key's old value (0 for a new key) |
| JsText.TrimSpec | src/components/Calendar.jsx:43 | `trim` returns an inner slice with only whitespace around it; it is empty exactly when the string is all whitespace; otherwise it starts and ends with a non-space |
| JsText.TrimIdempotent | src/components/Calendar.jsx:76 | trimming a trimmed name changes nothing |
| JsText.FirstCodeUnit | src/components/Calendar.jsx:12 | `charCodeAt(0)` of a code point is the code point itself below U+10000, and a high surrogate above it |
| JsText.CharCodeSumConcat | src/components/Calendar.jsx:12 | the code-unit sum of a concatenation is the sum of the parts' sums |
| JsText.IntDecimalRoundTrip | src/utils/dateUtils.js:106 | the decimal text a year is rendered as reads back as that year |
| JsText.IntToDecimalInjective | src/utils/dateUtils.js:106 | two years render alike exactly when they are equal |
| Calendar.MonthIndex | src/utils/dateUtils.js:1-4 | the index of a Spanish month name in `MESES` is in -1..11; it names that month, and -1 means no month has that name |
| Calendar.MonthIndexOf | src/utils/dateUtils.js:13 | looking up the i-th month name gives back i |
| Calendar.MonthsDistinct | src/utils/dateUtils.js:1-4 | the twelve month names are pairwise different |
| Calendar.DaysInYearIsLeap | src/utils/dateUtils.js:41-43 | a year counts 366 days in the Date arithmetic exactly when `isLeapYear` holds |
| Calendar.DayFromYearStep | src/utils/dateUtils.js:23 | the day number of 1 January advances by the length of the year |
| Calendar.NextMonthStart | src/utils/dateUtils.js:23 | the first of the next month is the first of this month plus the month's length, December included |
| Calendar.LastDateIsMonthLength | src/utils/dateUtils.js:23 | day 0 of the following month is the month's last date; for month index -1 it is 31 December |
| Calendar.DaysInMonth | src/utils/dateUtils.js:12-34 | the month length is 28..31, and 31 for a name outside `MESES` |
| Calendar.DaysInMonthIsLastDate | src/utils/dateUtils.js:23-24 | the month length equals `new Date(year, m + 1, 0).getDate()` under Date's rules, including the 0..99 year offset |
| Calendar.FullYearLeap | src/utils/dateUtils.js:23 | Date's treatment of years 1..99 as 1901..1999 keeps leap-ness for every year except 0 |
| Calendar.FebruaryLength | src/utils/dateUtils.js:12-34 | February has 29 days exactly in leap years (year 0 aside) |
| Calendar.YearZeroFebruary | src/utils/dateUtils.js:41-43 | year 0 counts as leap, yet its February has 28 days, because Date reads it as 1900 |
| Calendar.FebruaryExamples | src/utils/dateUtils.js:12-34 | February 2024 has 29 days and February 2023 has 28 |
| Calendar.CenturyFebruaries | src/utils/dateUtils.js:12-34 | February 2000 has 29 days; February 1900 and February 2100 have 28 |
| Calendar.FirstDayOfWeek | src/utils/dateUtils.js:51-68 | the weekday of the first is in 0..6 (Sunday = 0), and 0 for an unknown name |
| Calendar.NextMonthWeekday | src/utils/dateUtils.js:51-68 | next month starts the given number of days (this month's length) later in the week |
| Calendar.NewYearWeekday | src/utils/dateUtils.js:51-68 | January of the next year starts 31 days after December's first weekday (outside the years where Date's 0..99 offset jumps) |
| Calendar.January2024 | src/utils/dateUtils.js:51-68 | January 2024 starts on a Monday and has 31 days |
| Calendar.IsValidDay | src/utils/dateUtils.js:128-139 | a parsed value is a valid day exactly when it is a whole number in 1..month length |
| Calendar.ValidDayNumber | src/utils/dateUtils.js:128-139 | a whole day number is valid exactly when it is within the month |
| Calendar.Grid | src/utils/dateUtils.js:80-90 | the grid has the blanks first, then days 1..n in order, and holds a day exactly when it is in 1..n |
| Calendar.CreateCalendarDays | src/utils/dateUtils.js:76-96 | the grid has first-weekday blanks and then every valid day of the month once, in order |
| Calendar.FebruaryFlag | src/utils/dateUtils.js:147-160 | the leap flag agrees with a 29-day February |
| Calendar.GetMonthInfo | src/utils/dateUtils.js:147-160 | the month info carries the name and year, a length in 28..31, a weekday in 0..6, a display name of month and decimal year, and the defaults for an unknown month |
| StorageKeys.StorageKeyInjective | src/utils/dateUtils.js:105-109 | `${planilla}_${month}_${year}` keys are equal exactly when unit, month and year are equal (names without `_`) |
| StorageKeys.GastosKeyInjective | src/utils/dateUtils.js:117-119 | expense keys are equal exactly when month and year are equal |
| StorageKeys.SheetKeyInjective | src/components/Calendar.jsx:35 | under one scheme and month, two units share a key exactly when they are the same unit |
| StorageKeys.SchemesNeverMeet | src/components/VistaMensual.jsx:39 | a form key never equals an overview or summary key |
| Bookings.ClientColor | src/components/Calendar.jsx:10-14 | a client's colour is one of the eight palette entries |
| Bookings.ClientColorSwap | src/components/Calendar.jsx:12 | swapping the two halves of a name keeps its colour, since the hash adds code units |
| Bookings.ColorOfValue | src/components/VistaMensual.jsx:49-53 | a non-string name gets the empty colour, and a string gets its hashed colour |
| Bookings.MonthCellsMembers | src/components/ListaClientes.jsx:14-17 | the month's walk meets exactly the stored entries of the listed units with days 1..31 |
| Bookings.MonthCellsOrder | src/components/ListaClientes.jsx:14-17 | the walk visits units in list order and days in ascending order |
| Bookings.Conflicts | src/components/Calendar.jsx:54-62 | the conflict list holds exactly the range's days that carry a client (other than the owner), with that client, in ascending order |
| Bookings.NoConflicts | src/components/Calendar.jsx:64 | the list is empty exactly when no day of the range is taken |
| Bookings.Fill | src/components/Calendar.jsx:74-77 | writing a range puts the entry on every day in the range and keeps every other day |
| Bookings.CreateBooking | src/components/Calendar.jsx:39-84 | `handleAgendar` rejects an incomplete form, rejects a range outside 1..month length (naming the length), reports conflicts, and saves exactly when the range is free |
| Bookings.CreateConflictsExact | src/components/Calendar.jsx:53-71 | a refused booking lists exactly the range's days already holding a client, with that client, in ascending order |
| Bookings.CreateConflictScan | src/components/Calendar.jsx:54-64 | a refusal comes from a scan of the parsed range within the month |
| Bookings.CreateWrites | src/components/Calendar.jsx:73-84 | a saved booking writes the trimmed name and the colour of the untrimmed name, without an amount, on every day of the range, and changes no other key |
| Bookings.CreateSavedLedger | src/components/Calendar.jsx:73-84 | a saved booking is the old ledger with the form's unit rewritten over the range |
| Bookings.CreateKeepsBookings | src/components/Calendar.jsx:53-84 | a saved booking never overwrites or drops a day that held a client |
| Bookings.CreateFlagsOwnDays | src/components/Calendar.jsx:55-60 | booking a client over a day they already hold is refused, and the refusal names them |
| Bookings.CreateSettles | src/components/Calendar.jsx:53-84 | a complete request inside the month is settled by the scan alone |
| ClientList.GroupCellsAsWritten | src/components/ListaClientes.jsx:17-33 | the grouping loop as written fails exactly when some entry's client is an inherited object name, and otherwise gives the corrected grouping |
| ClientList.GroupByClientAsWritten | src/components/ListaClientes.jsx:12-37 | `agruparPorCliente` as written fails exactly when a listed unit holds an inherited name, and otherwise agrees with `GroupByClient` |
| ClientList.InheritedNameBreaksList | src/components/ListaClientes.jsx:19-29 | one booking for a client named `constructor` makes the as-written grouping fail, while the corrected grouping lists that client |
| ClientList.GroupIsClientFold | src/components/ListaClientes.jsx:17-33 | a client's group is the fold of the loop body over that client's entries alone |
| ClientList.FoldPresent | src/components/ListaClientes.jsx:18-19 | a client gets a group exactly when they have a non-empty name and some entry |
| ClientList.FoldSpan | src/components/ListaClientes.jsx:29-32 | a group's days and units are exactly those of its entries; first and last day are the minimum and maximum of those days |
| ClientList.FoldFirst | src/components/ListaClientes.jsx:20-27 | a group's amount and initial unit come from the client's first entry in visiting order |
| ClientList.GroupedClients | src/components/ListaClientes.jsx:12-37 | the client list names a client exactly when that client holds a day of a listed unit |
| ClientList.GroupedDays | src/components/ListaClientes.jsx:29-32 | a client's days and units are exactly those they hold, and first and last day bound them |
| ClientList.GroupedFirst | src/components/ListaClientes.jsx:19-27 | a client's amount (`total` or 0) and initial unit come from their first held day, with units in list order and days ascending |
| ClientList.SameGroup | src/components/ListaClientes.jsx:12-37 | a client's group depends only on the days they hold and on the first such day's amount |
| ClientList.DeleteClient | src/components/ListaClientes.jsx:39-55 | deleting a client removes exactly their entries from the listed units of the month and changes nothing else |
| ClientList.DeleteUngroups | src/components/ListaClientes.jsx:42-51 | after the delete no listed unit holds the client, and the list no longer shows them |
| ClientList.DeleteKeepsOthers | src/components/ListaClientes.jsx:42-51 | every other client keeps their group |
| ClientList.DeleteIdempotent | src/components/ListaClientes.jsx:39-55 | deleting a client twice is the same as deleting once |
| ClientList.SetAmount | src/components/ListaClientes.jsx:57-70 | every entry of the client in the listed units takes `parseFloat(v)`, or 0 for NaN; names, colours, other entries and all keys stay |
| ClientList.SetAmountGroups | src/components/ListaClientes.jsx:57-70 | the client's group shows the new amount with the same days; every other group is unchanged |
| ClientList.SetAmountIncome | src/components/ListaClientes.jsx:186-188 | the client order is kept, and the income total moves by the change in that client's amount |
| ClientList.GroupKeysByNames | src/components/ListaClientes.jsx:17-19 | the client order depends only on the sequence of names met |
| ClientList.FirstColor | src/components/ListaClientes.jsx:127-131 | the captured colour is that of the client's first coloured entry in visiting order, and none exactly when no entry carries one |
| ClientList.MoveColor | src/components/ListaClientes.jsx:123-149 | the moved days' colour is the captured colour if any, and otherwise the client's hashed colour; it is never empty |
| ClientList.MoveWith | src/components/ListaClientes.jsx:79-165 | the move rejects an incomplete or reversed form, rejects a range outside the month (naming the length), refuses with a non-empty list otherwise when the target range is taken, and saves exactly when no day of the target range holds another client |
| ClientList.MoveConflictsExact | src/components/ListaClientes.jsx:99-121 | a refused move lists exactly the days of the range in the target that hold a client other than the one moving, each with that client, in ascending order |
| ClientList.MoveConflictScan | src/components/ListaClientes.jsx:99-112 | a refusal comes from the scan of the parsed range within the month in the target, with the moving client exempted |
| ClientList.MoveWrites | src/components/ListaClientes.jsx:123-165 | a saved move writes name, colour and amount on the range in the target, and elsewhere only removes the client's entries |
| ClientList.MoveHolds | src/components/ListaClientes.jsx:123-165 | after a saved move the client holds exactly the range in the target |
| ClientList.MoveRelocates | src/components/ListaClientes.jsx:156-165 | after a saved move the client's line is exactly the new stay: its days, the target alone, the range's ends, and the written amount |
| ClientList.MoveKeepsOthers | src/components/ListaClientes.jsx:123-165 | a move leaves every other client's line as it was |
| ClientList.MoveBooking | src/components/ListaClientes.jsx:79-177 | the move as written saves only complete requests, and every moved day carries amount 0 |
| ClientList.MoveBookingKeepingAmount | src/components/ListaClientes.jsx:156-163 | the corrected move writes the client's amount from before the move on every moved day |
| ClientList.MoveLosesAmount | src/components/ListaClientes.jsx:96-157 | a client listed with a non-zero amount is listed with 0 after the move as written |
| ClientList.MoveKeepsAmount | src/components/ListaClientes.jsx:156-163 | after the corrected move the client is listed with the amount they had |
| Summary.MonthExpenses | src/components/ResumenMensual.jsx:78-91 | the stored set is used when the key exists; otherwise the twelve categories at 0, in order |
| Summary.ZeroSum | src/components/ResumenMensual.jsx:135 | a set of zero expenses totals 0 |
| Summary.DefaultExpensesCostNothing | src/components/ResumenMensual.jsx:78-91 | a month without stored expenses has expense total 0 |
| Summary.SetExpense | src/components/ResumenMensual.jsx:120-128 | changing one expense stores `parseFloat(v)` (0 for NaN) under it in this month's set, keeps the other entries, and leaves other months alone |
| Summary.SetExpenseTotal | src/components/ResumenMensual.jsx:120-135 | the expense total moves by the new value minus the old one |
| Summary.Summarize | src/components/ResumenMensual.jsx:96-113 | a unit's days are its number of day keys, and a unit whose entries have no client earns nothing |
| Summary.NamelessAmounts | src/components/ResumenMensual.jsx:102 | entries without a client never enter `clientes` |
| Summary.ClientAmountsStep | src/components/ResumenMensual.jsx:101-104 | each entry with a client assigns that client's amount and leaves the others |
| Summary.ClientAmountsKeys | src/components/ResumenMensual.jsx:100-105 | `clientes` has a client exactly when some entry holds them |
| Summary.ClientAmountsLast | src/components/ResumenMensual.jsx:101-104 | a client's amount is that of their last entry |
| Summary.OneClientAmounts | src/components/ResumenMensual.jsx:100-105 | entries of one client with one amount leave that client alone in `clientes` |
| Summary.IncomeCountsClientOnce | src/components/ResumenMensual.jsx:100-111 | a client booked on many days of one unit counts once: the unit earns their amount, not amount × days |
| Summary.ClientAmountsAsWritten | src/components/ResumenMensual.jsx:103 | as written, `clientes` never records `__proto__` and agrees with the corrected map for every other name |
| Summary.SummarizeAsWritten | src/components/ResumenMensual.jsx:96-113 | the summary as written counts the same days |
| Summary.ProtoFreeAmounts | src/components/ResumenMensual.jsx:100-105 | without a `__proto__` client the as-written `clientes` is the corrected one |
| Summary.ProtoOnlyAmounts | src/components/ResumenMensual.jsx:103 | a unit booked only by `__proto__` gets an empty `clientes` as written |
| Summary.SummarizeAsWrittenAgrees | src/components/ResumenMensual.jsx:93-117 | as written and corrected summaries agree on every unit without a `__proto__` client |
| Summary.ProtoClientEarnsNothing | src/components/ResumenMensual.jsx:103-111 | a unit booked only by `__proto__` for t earns 0 as written and t corrected |
| Summary.ResumenGet | src/components/ResumenMensual.jsx:96-113 | the summary has a row for a unit exactly when it is listed, holding that unit's figures |
| Summary.ResumenAbsent | src/components/ResumenMensual.jsx:96 | an unlisted unit has no row |
| Summary.ResumenKeys | src/components/ResumenMensual.jsx:94-116 | the rows follow the unit list |
| Summary.ResumenRows | src/components/ResumenMensual.jsx:93-117 | row i is unit i with its own figures |
| Summary.TotalDaysCountsKeys | src/components/ResumenMensual.jsx:137-140 | the day total is the number of stored day keys over the listed units |
| Summary.SetExpenseBalance | src/components/ResumenMensual.jsx:130-136 | the balance moves by the opposite of an expense's change |
| Summary.BalanceWithoutExpenses | src/components/ResumenMensual.jsx:78-136 | in a month without stored expenses the balance is the income total |
| Overview.DayData | src/components/VistaMensual.jsx:37-42 | a day shows an entry exactly when the unit's month map has that day, and it is the stored entry |
| Overview.DayDataShowsCreated | src/components/VistaMensual.jsx:37-42 | a booking saved under the overview's key scheme shows the trimmed client on each day of its range |
| Overview.Stats | src/components/VistaMensual.jsx:56-68 | occupied days are the day keys, occupied plus free is the month length, and free is the count of the month's days without a key |
| Overview.PropertyStats | src/components/VistaMensual.jsx:56-68 | a unit's statistics count its stored days against the month length |
| Overview.LegendIsClientOrder | src/components/VistaMensual.jsx:183-192 | the legend lists clients in the same order as the client list |
| Overview.LegendMembers | src/components/VistaMensual.jsx:183-192 | the legend has no repeats and lists exactly the clients holding a day in a listed unit |

## Left out

- React state, rendering, `useState` resets and `localStorage` persistence (`src/data/localStorageUtils.jsx` is not part of this model). Handlers return the new ledger instead of calling `updatePlanillasData`.
- `alert`, `confirm` and `console` are dropped. `ClientList.DeleteClient` is the path where the confirmation is accepted; a refused confirmation changes nothing. The alert texts of the booking and move handlers become the `Outcome` values.
- `debugCalendar` in `src/utils/dateUtils.js` only logs to the console.
- `handleEditClick` and `handleCancelarEdicion` only set form state.
- Bookings.DayCells: day keys are modelled as integers in 1..31 only. The source iterates whatever keys the stored object has (`Object.entries` and `Object.keys` at src/components/ListaClientes.jsx:17, 45 and 62, src/components/ResumenMensual.jsx:107, src/components/VistaMensual.jsx:59). So a stored day key outside 1..31, or not a number, is counted there but not here. The handlers of this application only ever write days 1..31.
- Summary.Summarize: amounts are Dafny `real`s, not IEEE doubles, so rounding in the sums is not modelled. `parseInt`/`parseFloat` results are parameters of type `Option` (None for NaN), so the string parsing itself is not modelled.
- Summary.Summarize: this is the corrected behaviour. As written, `clientes[info.cliente] = total` (src/components/ResumenMensual.jsx:103) with the client `__proto__` sets the prototype instead of a property, so that client's income is lost. `Summary.SummarizeAsWritten` models this (see Findings).
- Summary.ExpenseTotal: stored expenses are numbers here. A stored set holding a string would make `acc + val` (src/components/ResumenMensual.jsx:135) concatenate text. `handleGastoChange` only stores numbers.
- Overview.Stats: `porcentaje` (`toFixed(1)` of a float ratio, src/components/VistaMensual.jsx:60 and 65) is left out, because it is floating-point formatting.
- Overview.PropertyStats: the model takes `year: int`. In src/App.jsx:72-89, `VistaMensual` and `ResumenMensual` receive no `displayYear`. So in the running application their keys end in `_undefined`, `daysInMonth` is NaN, `libres` and `porcentaje` are NaN, and the calendar grid is empty. The model describes the components as written for a defined year.
- StorageKeys.SchemesNeverMeet: because the form and the client list write `${planilla}_${month}` while the overview and summary read `${planilla}_${month}_${year}`, bookings made in the form never appear in the overview or the summary. The model keeps the scheme as a parameter and proves the two never meet. It does not pick one.
- Bookings.CreateBooking: `getDaysInMonth(selectedMonth)` without a year uses the current year from the clock. This is the `currentYear` parameter, and so is the year of the inline month length in `handleGuardarEdicion`.
- JsText.FirstCodeUnit: Dafny `char`s are Unicode scalar values, so names holding lone surrogates are not modelled.
- Calendar.DaysInMonth: years are unbounded here. `Date` only covers about ±275760 years around 1970 and gives NaN beyond, so `Calendar.FirstDayOfWeek` is likewise unbounded.
- ClientList.GroupByClient: this is the corrected grouping. As written, a client named after an `Object.prototype` member (`constructor`, `toString`, `__proto__`, …) makes `agrupado[info.cliente].dias.add` throw (src/components/ListaClientes.jsx:19 and 29). That empties the client list and makes a move throw at line 156. `ClientList.GroupByClientAsWritten` models this (see Findings).
- ClientList.GroupByClient: `Object.keys` lists integer-like property names first, in ascending order, before the rest in insertion order. The model keeps insertion order for every name, so for clients named like `"12"` the list order (and `Overview.LegendIsClientOrder`) differs from the browser's.
- ClientList.MoveWith: the shallow copy `{ ...planillasData }` shares the day maps, so the delete loop also mutates the previous state. The model returns a new ledger; the one visible effect of the sharing, the lost amount, is the first finding.
- Summary.Resumen: the summary's unit list has seven units while the other components list five. Every handler takes the unit list as a parameter.

## Findings

| source | as written | input that shows it | evidently intended | confidence | as-written member | corrected member |
|---|---|---|---|---|---|---|
| src/components/ListaClientes.jsx:96-157 | the delete loop runs on a shallow copy that shares the day maps, so `agruparPorCliente()` at line 156 no longer sees the client and `totalOriginal` is always 0 | client `Ana` holds day 3 of `Depto 1` with `total: 500`; move her to days 5..6 of `Depto 2` | the moved days keep Ana's amount 500 | not executed | ClientList.MoveLosesAmount | ClientList.MoveKeepsAmount |
| src/components/ListaClientes.jsx:19-29 | `!agrupado[info.cliente]` is false for an inherited name, so no group is created and `.dias.add` throws | one booking for client `constructor` in `Depto 1` | `constructor` is listed like any other client | not executed | ClientList.InheritedNameBreaksList | ClientList.GroupedClients |
| src/components/ResumenMensual.jsx:103 | `clientes["__proto__"] = total` sets the prototype instead of a property, so the amount is not summed | `Depto 1` booked only by client `__proto__` with `total: 300` | the unit's income is 300 | not executed | Summary.ProtoClientEarnsNothing | Summary.IncomeCountsClientOnce |
