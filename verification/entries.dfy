/** Ordered key/value lists: the model of a JavaScript object with string keys,
    whose own keys enumerate in insertion order. The generator builds its rule
    maps with `Object.fromEntries`, and the key order is part of its output. */
module Entries {
  import opened Wrappers

  type Entries<V> = seq<(string, V)>

  function Keys<V>(m: Entries<V>): (ks: seq<string>)
    ensures |ks| == |m| && forall i {:trigger ks[i]} :: 0 <= i < |m| ==> ks[i] == m[i].0
  {
    seq(|m|, i requires 0 <= i < |m| => m[i].0)
  }

  /** No string occurs twice. */
  predicate Distinct(s: seq<string>)
  {
    forall i, j :: 0 <= i < j < |s| ==> s[i] != s[j]
  }

  predicate DistinctKeys<V>(m: Entries<V>)
  {
    Distinct(Keys(m))
  }

  /** Property read `obj[k]`. */
  function Get<V>(m: Entries<V>, k: string): Option<V>
  {
    if |m| == 0 then None
    else if m[0].0 == k then Some(m[0].1)
    else Get(m[1..], k)
  }

  /** The value a list of entries gives `k` when read from left to right:
      the last entry for `k` wins. */
  function LastValue<V>(es: Entries<V>, k: string): Option<V>
  {
    if |es| == 0 then None
    else if es[|es| - 1].0 == k then Some(es[|es| - 1].1)
    else LastValue(es[..|es| - 1], k)
  }

  /** The keys in order of first appearance, each once. */
  function FirstOccurrences(ks: seq<string>): seq<string>
  {
    if |ks| == 0 then []
    else
      var seen := FirstOccurrences(ks[..|ks| - 1]);
      if ks[|ks| - 1] in seen then seen else seen + [ks[|ks| - 1]]
  }

  /** Property assignment `obj[k] = v`: an existing key keeps its position and
      takes the new value, a new key goes last. */
  function Put<V>(m: Entries<V>, k: string, v: V): (r: Entries<V>)
    ensures Get(r, k) == Some(v)
    ensures forall k' :: k' != k ==> Get(r, k') == Get(m, k')
    ensures k in Keys(m) ==> Keys(r) == Keys(m)
    ensures k !in Keys(m) ==> Keys(r) == Keys(m) + [k]
    ensures DistinctKeys(m) ==> DistinctKeys(r)
  {
    if |m| == 0 then [(k, v)]
    else if m[0].0 == k then
      assert Keys(m)[0] == k;
      assert Keys([(k, v)] + m[1..]) == Keys(m);
      [(k, v)] + m[1..]
    else
      var rest := Put(m[1..], k, v);
      assert Keys(m) == [m[0].0] + Keys(m[1..]);
      assert Keys([m[0]] + rest) == [m[0].0] + Keys(rest);
      assert DistinctKeys(m) ==> DistinctKeys([m[0]] + rest) by {
        if DistinctKeys(m) {
          assert Keys(m[1..]) == Keys(m)[1..];
          assert DistinctKeys(m[1..]);
          forall j | 0 <= j < |m| - 1
            ensures Keys(m[1..])[j] != m[0].0
          {
            assert Keys(m)[0] != Keys(m)[j + 1];
          }
          ConsDistinct(m[0], rest);
        }
      }
      [m[0]] + rest
  }

  lemma ConsDistinct<V>(e: (string, V), m: Entries<V>)
    requires DistinctKeys(m)
    requires e.0 !in Keys(m)
    ensures DistinctKeys([e] + m)
  {
    var ks := Keys([e] + m);
    forall i, j | 0 <= i < j < |ks|
      ensures ks[i] != ks[j]
    {
      if i == 0 {
        assert ks[j] == Keys(m)[j - 1];
      } else {
        assert ks[i] == Keys(m)[i - 1] && ks[j] == Keys(m)[j - 1];
      }
    }
  }

  /** `Object.fromEntries(es)`: entries are assigned from left to right. */
  function FromEntries<V>(es: Entries<V>): (r: Entries<V>)
    ensures DistinctKeys(r)
    ensures Keys(r) == FirstOccurrences(Keys(es))
    ensures forall k :: Get(r, k) == LastValue(es, k)
  {
    if |es| == 0 then []
    else
      assert Keys(es[..|es| - 1]) == Keys(es)[..|es| - 1];
      Put(FromEntries(es[..|es| - 1]), es[|es| - 1].0, es[|es| - 1].1)
  }

  /** Appending a key that is not yet present puts it last. */
  lemma {:induction false} PutFresh<V>(m: Entries<V>, k: string, v: V)
    requires k !in Keys(m)
    ensures Put(m, k, v) == m + [(k, v)]
  {
    if |m| > 0 {
      assert Keys(m)[0] == m[0].0;
      assert Keys(m) == [m[0].0] + Keys(m[1..]);
      PutFresh(m[1..], k, v);
      assert m == [m[0]] + m[1..];
    }
  }

  /** Entries whose keys are already distinct come out of `Object.fromEntries`
      unchanged: same keys, same order, same values. */
  lemma {:induction false} FromEntriesOfDistinct<V>(es: Entries<V>)
    requires DistinctKeys(es)
    ensures FromEntries(es) == es
  {
    if |es| > 0 {
      var init := es[..|es| - 1];
      assert Keys(init) == Keys(es)[..|es| - 1];
      assert DistinctKeys(init);
      FromEntriesOfDistinct(init);
      assert es[|es| - 1].0 !in Keys(init) by {
        forall i | 0 <= i < |init|
          ensures Keys(init)[i] != es[|es| - 1].0
        {
          assert Keys(es)[i] != Keys(es)[|es| - 1];
        }
      }
      PutFresh(init, es[|es| - 1].0, es[|es| - 1].1);
      assert init + [es[|es| - 1]] == es;
    }
  }

  /** The entry at `i` decides the value of its key when no later entry has
      the same key. */
  lemma {:induction false} LastValueAt<V>(es: Entries<V>, i: nat)
    requires i < |es|
    requires forall j :: i < j < |es| ==> es[j].0 != es[i].0
    ensures LastValue(es, es[i].0) == Some(es[i].1)
  {
    if i < |es| - 1 {
      LastValueAt(es[..|es| - 1], i);
    }
  }

  /** In a list with distinct keys, reading a key finds its entry. */
  lemma {:induction false} GetAt<V>(m: Entries<V>, i: nat)
    requires DistinctKeys(m)
    requires i < |m|
    ensures Get(m, m[i].0) == Some(m[i].1)
  {
    if i > 0 {
      assert Keys(m)[0] != Keys(m)[i];
      assert Keys(m[1..]) == Keys(m)[1..];
      GetAt(m[1..], i - 1);
    }
  }

  /** A key has a value exactly when some entry carries it, and the value is
      that of one of its entries. */
  lemma {:induction false} LastValueFound<V>(es: Entries<V>, k: string)
    ensures LastValue(es, k).Some? <==> k in Keys(es)
    ensures LastValue(es, k).Some? ==>
              exists j :: 0 <= j < |es| && es[j].0 == k && es[j].1 == LastValue(es, k).value
  {
    if |es| > 0 {
      var init := es[..|es| - 1];
      LastValueFound(init, k);
      assert Keys(es) == Keys(init) + [es[|es| - 1].0];
      if LastValue(es, k).Some? && es[|es| - 1].0 != k {
        var j :| 0 <= j < |init| && init[j].0 == k && init[j].1 == LastValue(init, k).value;
        assert es[j] == init[j];
      }
    }
  }

  /** With distinct keys, reading left to right and looking up agree. */
  lemma {:induction false} LastValueOfDistinct<V>(m: Entries<V>, k: string)
    requires DistinctKeys(m)
    ensures LastValue(m, k) == Get(m, k)
  {
    LastValueFound(m, k);
    if LastValue(m, k).Some? {
      var j :| 0 <= j < |m| && m[j].0 == k && m[j].1 == LastValue(m, k).value;
      GetAt(m, j);
    } else {
      GetAbsent(m, k);
    }
  }

  lemma {:induction false} GetAbsent<V>(m: Entries<V>, k: string)
    requires k !in Keys(m)
    ensures Get(m, k) == None
  {
    if |m| > 0 {
      assert Keys(m)[0] == m[0].0;
      assert Keys(m[1..]) == Keys(m)[1..];
      GetAbsent(m[1..], k);
    }
  }
}
