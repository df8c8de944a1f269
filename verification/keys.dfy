/** Storage keys of `src/utils/dateUtils.js` and the two key shapes the
    components actually build for the booking ledger. */
module StorageKeys {
  import JsText
  import JsObject

  /** A key component that cannot be confused with the separator. */
  predicate NoSeparator(s: string)
  {
    '_' !in s
  }

  /** `generateStorageKey`: `${planilla}_${monthName}_${year}`. */
  function StorageKey(planilla: string, month: string, year: int): string
  {
    planilla + "_" + month + "_" + JsText.IntToDecimal(year)
  }

  /** `generateGastosKey`: `${monthName}_${year}`. */
  function GastosKey(month: string, year: int): string
  {
    month + "_" + JsText.IntToDecimal(year)
  }

  /** The two ways the components key a property's month: the booking form
      and the client list use `${planilla}_${month}`, the overview and the
      summary `${planilla}_${month}_${year}`. */
  datatype KeyScheme = MonthOnly | MonthAndYear(year: int)

  function SheetKey(scheme: KeyScheme, planilla: string, month: string): string
  {
    match scheme
    case MonthOnly => planilla + "_" + month
    case MonthAndYear(year) => StorageKey(planilla, month, year)
  }

  /** A key splits uniquely at the first separator. */
  lemma SplitAtSeparator(a: string, b: string, c: string, d: string)
    requires NoSeparator(a) && NoSeparator(c)
    ensures a + "_" + b == c + "_" + d <==> a == c && b == d
  {
    if a + "_" + b == c + "_" + d {
      var s := a + "_" + b;
      SeparatorPosition(a, b);
      SeparatorPosition(c, d);
      assert a == s[..|a|] == c;
      assert b == s[|a| + 1..] == d;
    }
  }

  /** The first separator of `a + "_" + b` is the one after `a`. */
  lemma SeparatorPosition(a: string, b: string)
    requires NoSeparator(a)
    ensures JsObject.IndexOf(a + "_" + b, '_') == |a|
  {
    var s := a + "_" + b;
    assert s[|a|] == '_';
    assert forall j | 0 <= j < |a| :: s[j] == a[j];
  }

  /** Storage keys of components free of `_` identify their components. */
  lemma StorageKeyInjective(p: string, m: string, y: int, p': string, m': string, y': int)
    requires NoSeparator(p) && NoSeparator(m) && NoSeparator(p') && NoSeparator(m')
    ensures StorageKey(p, m, y) == StorageKey(p', m', y') <==> p == p' && m == m' && y == y'
  {
    var t, t' := JsText.IntToDecimal(y), JsText.IntToDecimal(y');
    assert StorageKey(p, m, y) == p + "_" + (m + "_" + t);
    assert StorageKey(p', m', y') == p' + "_" + (m' + "_" + t');
    SplitAtSeparator(p, m + "_" + t, p', m' + "_" + t');
    SplitAtSeparator(m, t, m', t');
    JsText.IntToDecimalInjective(y, y');
  }

  /** Expense keys of months free of `_` identify month and year. */
  lemma GastosKeyInjective(m: string, y: int, m': string, y': int)
    requires NoSeparator(m) && NoSeparator(m')
    ensures GastosKey(m, y) == GastosKey(m', y') <==> m == m' && y == y'
  {
    SplitAtSeparator(m, JsText.IntToDecimal(y), m', JsText.IntToDecimal(y'));
    JsText.IntToDecimalInjective(y, y');
  }

  /** Under either scheme, distinct properties of one month never share a key. */
  lemma SheetKeyInjective(scheme: KeyScheme, p: string, p': string, month: string)
    requires NoSeparator(p) && NoSeparator(p') && NoSeparator(month)
    ensures SheetKey(scheme, p, month) == SheetKey(scheme, p', month) <==> p == p'
  {
    match scheme {
      case MonthOnly =>
        SplitAtSeparator(p, month, p', month);
      case MonthAndYear(y) =>
        StorageKeyInjective(p, month, y, p', month, y);
    }
  }

  /** A key written under `${planilla}_${month}` is never read back under
      `${planilla}_${month}_${year}`, whatever the year. */
  lemma SchemesNeverMeet(p: string, p': string, month: string, month': string, year: int)
    requires NoSeparator(p) && NoSeparator(p') && NoSeparator(month) && NoSeparator(month')
    ensures SheetKey(MonthOnly, p, month) != SheetKey(MonthAndYear(year), p', month')
  {
    var t := JsText.IntToDecimal(year);
    assert SheetKey(MonthAndYear(year), p', month') == p' + "_" + (month' + "_" + t);
    SplitAtSeparator(p, month, p', month' + "_" + t);
    assert (month' + "_" + t)[|month'|] == '_';
  }
}
