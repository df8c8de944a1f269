/** JavaScript values as the booking code uses them: `undefined`, the `x || 0`
    fallback of its numeric fields, `Array.prototype.indexOf`, and plain objects
    whose string keys keep insertion order. */
module JsObject {

  /** `undefined` (None) or a present value. */
  datatype Option<+T> = None | Some(value: T)

  /** `n || 0` on a number that may be `undefined` or NaN: both read as 0. */
  function OrZero(n: Option<real>): real
  {
    if n.Some? then n.value else 0.0
  }

  /** `xs.indexOf(x)`: the first position holding `x`, or -1. */
  function IndexOf<T(==)>(xs: seq<T>, x: T): (i: int)
    ensures -1 <= i < |xs|
    ensures i >= 0 ==> xs[i] == x && forall j | 0 <= j < i :: xs[j] != x
    ensures i == -1 ==> forall j | 0 <= j < |xs| :: xs[j] != x
    decreases |xs|
  {
    if |xs| == 0 then -1
    else if xs[0] == x then 0
    else
      var i := IndexOf(xs[1..], x);
      assert xs == [xs[0]] + xs[1..];
      if i == -1 then -1 else i + 1
  }

  /** Appending a different element does not move the first occurrence. */
  lemma IndexOfAppend<T>(xs: seq<T>, y: T, x: T)
    requires x != y
    ensures IndexOf(xs + [y], x) == IndexOf(xs, x)
  {
    var i, j := IndexOf(xs + [y], x), IndexOf(xs, x);
    if i >= 0 {
      assert i < |xs| && xs[i] == x;
      assert j >= 0;
      assert (xs + [y])[j] == x;
    } else {
      assert forall k | 0 <= k < |xs| :: (xs + [y])[k] == xs[k];
    }
  }

  /** Appending anything keeps the first occurrence of an element already present. */
  lemma IndexOfAppendPresent<T>(xs: seq<T>, y: T, x: T)
    requires x in xs
    ensures IndexOf(xs + [y], x) == IndexOf(xs, x)
  {
    var i, j := IndexOf(xs + [y], x), IndexOf(xs, x);
    assert (xs + [y])[j] == x;
    assert forall k | 0 <= k < |xs| :: (xs + [y])[k] == xs[k];
  }

  /** An element missing from `xs` is first found at the end of `xs + [x]`. */
  lemma IndexOfAppendNew<T>(xs: seq<T>, x: T)
    requires x !in xs
    ensures IndexOf(xs + [x], x) == |xs|
  {
    assert (xs + [x])[|xs|] == x;
    assert forall k | 0 <= k < |xs| :: (xs + [x])[k] == xs[k];
  }

  /** No element occurs twice. */
  predicate Distinct<T(==)>(xs: seq<T>)
  {
    forall i, j | 0 <= i < j < |xs| :: xs[i] != xs[j]
  }

  /** Dropping the last element keeps a sequence distinct, and the dropped
      element is not among the rest. */
  lemma DistinctInit<T>(xs: seq<T>)
    requires Distinct(xs) && |xs| > 0
    ensures Distinct(xs[..|xs| - 1]) && xs[|xs| - 1] !in xs[..|xs| - 1]
  {
    var pre := xs[..|xs| - 1];
    forall i, j | 0 <= i < j < |pre| ensures pre[i] != pre[j] {
      assert pre[i] == xs[i] && pre[j] == xs[j];
    }
    forall j | 0 <= j < |pre| ensures pre[j] != xs[|xs| - 1] {
      assert pre[j] == xs[j];
    }
  }

  /** A plain object's own properties, in the order `Object.keys` lists them. */
  type Assoc<V> = seq<(string, V)>

  /** The properties a plain object `{}` inherits from `Object.prototype`:
      reading `o[k]` for one of these names finds the inherited member (a
      function, or the prototype itself) when `o` has no own property `k`. */
  const InheritedNames: set<string> :=
    {"constructor", "hasOwnProperty", "isPrototypeOf", "propertyIsEnumerable",
     "toString", "toLocaleString", "valueOf", "__proto__",
     "__defineGetter__", "__defineSetter__", "__lookupGetter__", "__lookupSetter__"}

  /** `k` names a property every plain object inherits. */
  predicate Inherited(k: string)
  {
    k in InheritedNames
  }

  /** The inherited accessor: `o["__proto__"] = v` with a number or
      `undefined` as `v` creates no property and is silently ignored. */
  const ProtoName: string := "__proto__"

  function KeysOf<V>(a: Assoc<V>): (ks: seq<string>)
    ensures |ks| == |a|
    ensures forall i | 0 <= i < |a| :: ks[i] == a[i].0
  {
    seq(|a|, i requires 0 <= i < |a| => a[i].0)
  }

  /** No key occurs twice, as in every JavaScript object. */
  predicate UniqueKeys<V>(a: Assoc<V>)
  {
    forall i, j | 0 <= i < j < |a| :: a[i].0 != a[j].0
  }

  /** Unique keys are a distinct key list. */
  lemma UniqueKeysDistinct<V>(a: Assoc<V>)
    ensures UniqueKeys(a) <==> Distinct(KeysOf(a))
  {
    assert forall i | 0 <= i < |a| :: KeysOf(a)[i] == a[i].0;
  }

  /** `o[k]`. */
  function Get<V>(a: Assoc<V>, k: string): (r: Option<V>)
    ensures r.None? <==> forall i | 0 <= i < |a| :: a[i].0 != k
    ensures r.Some? ==> exists i | 0 <= i < |a| :: a[i] == (k, r.value)
  {
    var i := IndexOf(KeysOf(a), k);
    if i < 0 then None else Some(a[i].1)
  }

  /** Writing a key into an empty object, or writing the same value again
      into the object that holds only it. */
  lemma PutOne<V>(k: string, v: V)
    ensures Put([], k, v) == [(k, v)]
    ensures Put([(k, v)], k, v) == [(k, v)]
  {
    assert IndexOf(KeysOf([(k, v)]), k) == 0 by {
      assert KeysOf([(k, v)])[0] == k;
    }
  }

  /** `{...o, [k]: v}`: an existing key keeps its place and takes the new
      value, a new key goes last. */
  function Put<V>(a: Assoc<V>, k: string, v: V): (r: Assoc<V>)
    ensures Get(r, k) == Some(v)
    ensures forall k' | k' != k :: Get(r, k') == Get(a, k')
    ensures KeysOf(r) == if Get(a, k).Some? then KeysOf(a) else KeysOf(a) + [k]
    ensures UniqueKeys(a) ==> UniqueKeys(r)
  {
    var i := IndexOf(KeysOf(a), k);
    if i < 0 then
      var r := a + [(k, v)];
      assert KeysOf(r) == KeysOf(a) + [k];
      assert KeysOf(r)[|a|] == k;
      assert IndexOf(KeysOf(r), k) == |a|;
      forall k' | k' != k
        ensures IndexOf(KeysOf(r), k') == IndexOf(KeysOf(a), k')
      {
        IndexOfAppend(KeysOf(a), k, k');
      }
      r
    else
      var r := a[i := (k, v)];
      assert KeysOf(r) == KeysOf(a);
      r
  }

  /** `Object.values(o).reduce((acc, v) => acc + f(v), 0)`. */
  function Sum<V>(a: Assoc<V>, f: V -> real): real
    decreases |a|
  {
    if |a| == 0 then 0.0 else Sum(a[..|a| - 1], f) + f(a[|a| - 1].1)
  }

  /** Replacing one property's value moves the sum by the difference. */
  lemma {:induction false} SumUpdate<V>(a: Assoc<V>, i: nat, x: (string, V), f: V -> real)
    requires i < |a|
    ensures Sum(a[i := x], f) == Sum(a, f) - f(a[i].1) + f(x.1)
    decreases |a|
  {
    var n := |a| - 1;
    if i < n {
      SumUpdate(a[..n], i, x, f);
      assert a[i := x][..n] == a[..n][i := x];
    } else {
      assert a[i := x][..n] == a[..n];
    }
  }

  /** Writing `v` under `k` moves the sum by `f(v)` minus what `k` held before. */
  lemma SumPut<V>(a: Assoc<V>, k: string, v: V, f: V -> real)
    ensures Sum(Put(a, k, v), f)
         == Sum(a, f) + f(v) - (match Get(a, k) case Some(w) => f(w) case None => 0.0)
  {
    var i := IndexOf(KeysOf(a), k);
    if i < 0 {
      assert (a + [(k, v)])[..|a|] == a;
    } else {
      SumUpdate(a, i, (k, v), f);
    }
  }

  /** With unique keys, a key's value is the one stored beside it. */
  lemma GetAt<V>(a: Assoc<V>, j: nat)
    requires UniqueKeys(a) && j < |a|
    ensures Get(a, a[j].0) == Some(a[j].1)
  {
    var i := IndexOf(KeysOf(a), a[j].0);
    assert KeysOf(a)[j] == a[j].0;
  }

  /** Two objects with the same keys in the same order whose values differ at
      most under `k` have sums that differ by exactly that value's change. */
  lemma SumAgree<V>(a: Assoc<V>, b: Assoc<V>, k: string, f: V -> real)
    requires KeysOf(a) == KeysOf(b) && UniqueKeys(a)
    requires forall k' | k' != k :: Get(a, k') == Get(b, k')
    ensures Sum(b, f) == Sum(a, f)
      - (match Get(a, k) case Some(w) => f(w) case None => 0.0)
      + (match Get(b, k) case Some(w) => f(w) case None => 0.0)
  {
    assert |a| == |KeysOf(a)| == |b|;
    assert UniqueKeys(b) by {
      forall i, j | 0 <= i < j < |b| ensures b[i].0 != b[j].0 {
        assert KeysOf(a)[i] == a[i].0 && KeysOf(b)[i] == b[i].0;
        assert KeysOf(a)[j] == a[j].0 && KeysOf(b)[j] == b[j].0;
      }
    }
    forall j | 0 <= j < |a| && a[j].0 != k
      ensures a[j] == b[j]
    {
      assert KeysOf(a)[j] == a[j].0 && KeysOf(b)[j] == b[j].0;
      GetAt(a, j);
      GetAt(b, j);
    }
    var i := IndexOf(KeysOf(a), k);
    if i < 0 {
      assert forall j | 0 <= j < |a| :: KeysOf(a)[j] == a[j].0;
      assert a == b;
    } else {
      assert KeysOf(a)[i] == a[i].0 && KeysOf(b)[i] == b[i].0;
      GetAt(a, i);
      GetAt(b, i);
      assert b == a[i := b[i]];
      SumUpdate(a, i, b[i], f);
    }
  }
}
