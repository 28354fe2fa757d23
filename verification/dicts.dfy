/**
 * A JSON-ready dictionary as the flatteners build it: an insertion-ordered
 * list of (key, value) entries, the way a Python dict literal keeps its keys
 * in the order they are written and `json.dump` writes them in that order.
 */
module Dicts {
  import opened Wrappers

  /** A floating-point attribute of a parsed record; it is only ever copied. */
  type Float

  /** The values a flattened record holds. */
  datatype Value = Text(s: string) | Real(x: Float) | Integer(n: int)

  type Entry = (string, Value)
  type Dict = seq<Entry>

  /** The keys of a dictionary, in insertion order. */
  function Keys(d: Dict): seq<string>
  {
    seq(|d|, i requires 0 <= i < |d| => d[i].0)
  }

  predicate Distinct(ks: seq<string>)
  {
    forall i, j :: 0 <= i < j < |ks| ==> ks[i] != ks[j]
  }

  /** `d[k]`: the value stored under `k`, or None when `k` is not a key. */
  function Lookup(d: Dict, k: string): Option<Value>
  {
    if d == [] then None
    else if d[0].0 == k then Some(d[0].1)
    else Lookup(d[1..], k)
  }

  /** With distinct keys, the value stored under the i-th key is the i-th value. */
  lemma {:induction false} LookupAt(d: Dict, i: nat)
    requires Distinct(Keys(d))
    requires i < |d|
    ensures Lookup(d, d[i].0) == Some(d[i].1)
  {
    if i > 0 {
      assert Keys(d)[0] != Keys(d)[i];
      assert Keys(d[1..]) == Keys(d)[1..];
      LookupAt(d[1..], i - 1);
    }
  }

  /** A key that is not among the keys is absent. */
  lemma {:induction false} LookupAbsent(d: Dict, k: string)
    requires k !in Keys(d)
    ensures Lookup(d, k) == None
  {
    if d != [] {
      assert Keys(d)[0] == d[0].0;
      assert Keys(d[1..]) == Keys(d)[1..];
      LookupAbsent(d[1..], k);
    }
  }

  /**
   * Two dictionaries with the same distinct keys in the same order and the
   * same value under every key are the same dictionary.
   */
  lemma {:induction false} Extensionality(d1: Dict, d2: Dict)
    requires Keys(d1) == Keys(d2)
    requires Distinct(Keys(d1))
    requires forall k :: k in Keys(d1) ==> Lookup(d1, k) == Lookup(d2, k)
    ensures d1 == d2
  {
    assert |d1| == |Keys(d1)| == |Keys(d2)| == |d2|;
    forall i | 0 <= i < |d1|
      ensures d1[i] == d2[i]
    {
      assert d1[i].0 == Keys(d1)[i] == Keys(d2)[i] == d2[i].0;
      assert d2[i].0 in Keys(d1);
      LookupAt(d1, i);
      LookupAt(d2, i);
    }
  }

  /** `d[k]` when it holds a string. */
  function GetText(d: Dict, k: string): Option<string>
  {
    match Lookup(d, k)
    case Some(Text(s)) => Some(s)
    case _ => None
  }

  /** `d[k]` when it holds a float. */
  function GetReal(d: Dict, k: string): Option<Float>
  {
    match Lookup(d, k)
    case Some(Real(x)) => Some(x)
    case _ => None
  }

  /** `d[k]` when it holds an integer. */
  function GetInt(d: Dict, k: string): Option<int>
  {
    match Lookup(d, k)
    case Some(Integer(n)) => Some(n)
    case _ => None
  }
}
