/** Storing key/value pairs into a Python dict one after another
    (`d[k] = v` in a loop), where a later pair for the same key overwrites an
    earlier one. */
module PyDict {
  import opened PyText

  /** `for k, v in kvs: d[k] = v`, starting from `m`. */
  function Update<K(==), V>(m: map<K, V>, kvs: seq<(K, V)>): map<K, V>
    decreases |kvs|
  {
    if |kvs| == 0 then m else Update(m[kvs[0].0 := kvs[0].1], kvs[1..])
  }

  /** The reference reading of "last wins": the value of the last pair whose
      key is `k`, searched from the end. */
  function LastValue<K(==), V>(kvs: seq<(K, V)>, k: K): Option<V>
  {
    if |kvs| == 0 then None
    else if kvs[|kvs| - 1].0 == k then Some(kvs[|kvs| - 1].1)
    else LastValue(kvs[..|kvs| - 1], k)
  }

  /** Storing `a` and then `b` is storing `a + b`. */
  lemma {:induction false} UpdateAppend<K, V>(m: map<K, V>, a: seq<(K, V)>, b: seq<(K, V)>)
    ensures Update(m, a + b) == Update(Update(m, a), b)
    decreases |a|
  {
    if |a| == 0 {
      assert a + b == b;
    } else {
      assert (a + b)[1..] == a[1..] + b;
      UpdateAppend(m[a[0].0 := a[0].1], a[1..], b);
    }
  }

  /** One more pair is one more store. */
  lemma UpdateSnoc<K, V>(m: map<K, V>, kvs: seq<(K, V)>, p: (K, V))
    ensures Update(m, kvs + [p]) == Update(m, kvs)[p.0 := p.1]
  {
    UpdateAppend(m, kvs, [p]);
    assert Update(Update(m, kvs), [p]) == Update(Update(m, kvs)[p.0 := p.1], []);
  }

  /** After the stores, a key is present exactly when it was already there or
      some pair names it, and its value is that of the LAST pair naming it. */
  lemma {:induction false} UpdateLastWins<K, V>(m: map<K, V>, kvs: seq<(K, V)>, k: K)
    ensures k in Update(m, kvs) <==> k in m || LastValue(kvs, k).Some?
    ensures LastValue(kvs, k).Some? ==> Update(m, kvs)[k] == LastValue(kvs, k).value
    ensures LastValue(kvs, k).None? && k in m ==> Update(m, kvs)[k] == m[k]
    decreases |kvs|
  {
    if |kvs| > 0 {
      var init := kvs[..|kvs| - 1];
      var p := kvs[|kvs| - 1];
      assert kvs == init + [p];
      UpdateSnoc(m, init, p);
      UpdateLastWins(m, init, k);
    }
  }

  /** Pairs for other keys never disturb a key's value. */
  lemma UpdateOtherKeys<K, V>(m: map<K, V>, kvs: seq<(K, V)>, k: K)
    requires forall i :: 0 <= i < |kvs| ==> kvs[i].0 != k
    ensures k in Update(m, kvs) <==> k in m
    ensures k in m ==> Update(m, kvs)[k] == m[k]
  {
    UpdateLastWins(m, kvs, k);
    LastValueNone(kvs, k);
  }

  lemma {:induction false} LastValueNone<K, V>(kvs: seq<(K, V)>, k: K)
    requires forall i :: 0 <= i < |kvs| ==> kvs[i].0 != k
    ensures LastValue(kvs, k).None?
    decreases |kvs|
  {
    if |kvs| > 0 {
      LastValueNone(kvs[..|kvs| - 1], k);
    }
  }
}
