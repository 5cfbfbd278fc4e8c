/** An insertion-ordered multimap, the shape shared by the handler's
    LinkedHashMap<String, List<String>> of headers and the forward client's
    LinkedMultiValueMap<String, String> of form fields: a sequence of entries,
    each a key with its values in insertion order. */
module MultiMaps {

  type MultiMap = seq<(string, seq<string>)>

  function Keys(m: MultiMap): (ks: seq<string>)
    ensures |ks| == |m|
    ensures forall i :: 0 <= i < |m| ==> ks[i] == m[i].0
  {
    seq(|m|, i requires 0 <= i < |m| => m[i].0)
  }

  lemma KeysConcat(a: MultiMap, b: MultiMap)
    ensures Keys(a + b) == Keys(a) + Keys(b)
  {
  }

  /** A Java map never holds one key twice. */
  predicate DistinctKeys(m: MultiMap) {
    forall i, j :: 0 <= i < j < |m| ==> m[i].0 != m[j].0
  }

  /** get(key), with an absent key read as no values. */
  function Lookup(m: MultiMap, k: string): seq<string>
  {
    if m == [] then []
    else if m[0].0 == k then m[0].1
    else Lookup(m[1..], k)
  }

  /** computeIfAbsent(k, ...).add(v), and LinkedMultiValueMap.add(k, v):
      a present key gets v appended to its values in place, a new key is
      appended as the last entry with the single value v. */
  function Add(m: MultiMap, k: string, v: string): MultiMap
  {
    if m == [] then [(k, [v])]
    else if m[0].0 == k then [(k, m[0].1 + [v])] + m[1..]
    else [m[0]] + Add(m[1..], k, v)
  }

  /** Add keeps the key order and appends a key it has not seen. */
  lemma {:induction false} AddKeys(m: MultiMap, k: string, v: string)
    ensures Keys(Add(m, k, v)) == if k in Keys(m) then Keys(m) else Keys(m) + [k]
  {
    if m != [] {
      var head, rest := [m[0]], m[1..];
      assert Keys(m) == [m[0].0] + Keys(rest) by {
        assert m == head + rest;
        KeysConcat(head, rest);
      }
      if m[0].0 == k {
        assert Add(m, k, v) == [(k, m[0].1 + [v])] + rest;
        KeysConcat([(k, m[0].1 + [v])], rest);
      } else {
        assert Add(m, k, v) == head + Add(rest, k, v);
        AddKeys(rest, k, v);
        KeysConcat(head, Add(rest, k, v));
      }
    }
  }

  /** Add appends v to the values of k and changes no other key. */
  lemma {:induction false} AddLookup(m: MultiMap, k: string, v: string, key: string)
    ensures Lookup(Add(m, k, v), key) == if key == k then Lookup(m, k) + [v] else Lookup(m, key)
  {
    if m != [] && m[0].0 != k {
      AddLookup(m[1..], k, v, key);
      assert ([m[0]] + Add(m[1..], k, v))[1..] == Add(m[1..], k, v);
    }
  }

  lemma AddDistinct(m: MultiMap, k: string, v: string)
    requires DistinctKeys(m)
    ensures DistinctKeys(Add(m, k, v))
  {
    AddKeys(m, k, v);
    var r := Add(m, k, v);
    assert forall i :: 0 <= i < |r| ==> r[i].0 == Keys(r)[i];
  }

  lemma {:induction false} LookupAbsent(m: MultiMap, k: string)
    requires k !in Keys(m)
    ensures Lookup(m, k) == []
  {
    if m != [] {
      assert Keys(m[1..]) == Keys(m)[1..];
      LookupAbsent(m[1..], k);
    }
  }

  /** Adding a key the multimap does not hold yet appends a one-value entry. */
  lemma AddNew(m: MultiMap, k: string, v: string)
    requires DistinctKeys(m) && k !in Keys(m)
    ensures DistinctKeys(Add(m, k, v))
    ensures Keys(Add(m, k, v)) == Keys(m) + [k]
    ensures Lookup(Add(m, k, v), k) == [v]
    ensures forall key :: key != k ==> Lookup(Add(m, k, v), key) == Lookup(m, key)
  {
    AddKeys(m, k, v);
    AddDistinct(m, k, v);
    LookupAbsent(m, k);
    AddLookup(m, k, v, k);
    forall key | key != k
      ensures Lookup(Add(m, k, v), key) == Lookup(m, key)
    {
      AddLookup(m, k, v, key);
    }
  }

  /** Appending an entry for a new key keeps the keys distinct. */
  lemma DistinctAppend(m: MultiMap, entry: (string, seq<string>))
    requires DistinctKeys(m) && entry.0 !in Keys(m)
    ensures DistinctKeys(m + [entry])
  {
    assert forall i :: 0 <= i < |m| ==> m[i].0 == Keys(m)[i];
  }

  /** The total number of values held. */
  function Size(m: MultiMap): nat
  {
    if m == [] then 0 else |m[0].1| + Size(m[1..])
  }

  /** Adding a value grows the multimap by exactly one value. */
  lemma {:induction false} SizeAdd(m: MultiMap, k: string, v: string)
    ensures Size(Add(m, k, v)) == Size(m) + 1
  {
    if m != [] && m[0].0 != k {
      SizeAdd(m[1..], k, v);
      assert ([m[0]] + Add(m[1..], k, v))[1..] == Add(m[1..], k, v);
    }
  }

  /** With distinct keys, each entry holds exactly what Lookup returns for its key. */
  lemma {:induction false} LookupAt(m: MultiMap, i: nat)
    requires DistinctKeys(m) && i < |m|
    ensures Lookup(m, m[i].0) == m[i].1
  {
    if i > 0 {
      LookupAt(m[1..], i - 1);
    }
  }
}
