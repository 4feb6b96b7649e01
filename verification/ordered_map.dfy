/** Insertion-ordered string-keyed maps, the way a Python `dict` behaves:
    assigning to a key that is present replaces its value where it stands,
    assigning to a new key appends it at the end. */
module OrderedMap {
  import opened Wrappers

  datatype Entry<V> = Entry(key: string, value: V)

  /** The keys in order. */
  function Keys<V>(m: seq<Entry<V>>): (ks: seq<string>)
    ensures |ks| == |m|
    ensures forall i :: 0 <= i < |m| ==> ks[i] == m[i].key
  {
    if |m| == 0 then [] else [m[0].key] + Keys(m[1..])
  }

  predicate HasKey<V>(m: seq<Entry<V>>, k: string)
  {
    k in Keys(m)
  }

  predicate Distinct(s: seq<string>)
  {
    forall i, j :: 0 <= i < j < |s| ==> s[i] != s[j]
  }

  /** No key occurs twice, as in every Python dict. */
  predicate UniqueKeys<V>(m: seq<Entry<V>>)
  {
    Distinct(Keys(m))
  }

  /** `m.get(k)`. */
  function Get<V>(m: seq<Entry<V>>, k: string): Option<V>
  {
    if |m| == 0 then None
    else if m[0].key == k then Some(m[0].value)
    else Get(m[1..], k)
  }

  /** A lookup finds a value exactly when the key is present. */
  lemma {:induction false} GetFindsKeys<V>(m: seq<Entry<V>>, k: string)
    ensures Get(m, k).Some? <==> HasKey(m, k)
  {
    if |m| > 0 {
      GetFindsKeys(m[1..], k);
      assert Keys(m) == [m[0].key] + Keys(m[1..]);
    }
  }

  /** The position of `k` in `m`, as the lookups of `Get` find it. */
  function Find<V>(m: seq<Entry<V>>, k: string): (r: Option<nat>)
    ensures r.Some? ==> r.value < |m| && m[r.value].key == k
  {
    if |m| == 0 then None
    else if m[0].key == k then Some(0)
    else match Find(m[1..], k)
      case Some(i) => Some(i + 1)
      case None => None
  }

  /** `Find` and `Get` agree, and `Find` fails only on a missing key. */
  lemma {:induction false} FindGet<V>(m: seq<Entry<V>>, k: string)
    ensures Get(m, k) == if Find(m, k).Some? then Some(m[Find(m, k).value].value) else None
    ensures Find(m, k).None? <==> !HasKey(m, k)
  {
    if |m| > 0 {
      FindGet(m[1..], k);
      assert Keys(m) == [m[0].key] + Keys(m[1..]);
    }
  }

  /** The entries after `m[k] = v`. */
  function Assign<V>(m: seq<Entry<V>>, k: string, v: V): seq<Entry<V>>
  {
    if |m| == 0 then [Entry(k, v)]
    else if m[0].key == k then [Entry(k, v)] + m[1..]
    else [m[0]] + Assign(m[1..], k, v)
  }

  lemma {:induction false} AssignGet<V>(m: seq<Entry<V>>, k: string, v: V)
    ensures Get(Assign(m, k, v), k) == Some(v)
    ensures forall k' :: k' != k ==> Get(Assign(m, k, v), k') == Get(m, k')
  {
    if |m| > 0 && m[0].key != k {
      AssignGet(m[1..], k, v);
      assert Assign(m, k, v)[1..] == Assign(m[1..], k, v);
    } else if |m| > 0 {
      assert Assign(m, k, v)[1..] == m[1..];
    }
  }

  lemma {:induction false} AssignKeys<V>(m: seq<Entry<V>>, k: string, v: V)
    ensures Keys(Assign(m, k, v)) == if HasKey(m, k) then Keys(m) else Keys(m) + [k]
  {
    if |m| > 0 && m[0].key != k {
      AssignKeys(m[1..], k, v);
      assert Assign(m, k, v)[1..] == Assign(m[1..], k, v);
      assert Keys(m) == [m[0].key] + Keys(m[1..]);
    } else if |m| > 0 {
      assert Assign(m, k, v)[1..] == m[1..];
    }
  }

  /** `m[k] = v`: the value at `k` becomes `v`, nothing else is looked up
      differently, and the key order only grows by `k` when it was new. */
  function Put<V>(m: seq<Entry<V>>, k: string, v: V): (r: seq<Entry<V>>)
    ensures Get(r, k) == Some(v)
    ensures forall k' :: k' != k ==> Get(r, k') == Get(m, k')
    ensures Keys(r) == if HasKey(m, k) then Keys(m) else Keys(m) + [k]
  {
    AssignGet(m, k, v);
    AssignKeys(m, k, v);
    Assign(m, k, v)
  }

  /** The map built by assigning the entries of `es` one after the other,
      as a dict comprehension or a loop of assignments does. */
  function FromEntries<V>(es: seq<Entry<V>>): seq<Entry<V>>
  {
    if |es| == 0 then []
    else Put(FromEntries(es[..|es| - 1]), es[|es| - 1].key, es[|es| - 1].value)
  }

  /** `s` keeping only the first occurrence of every string. */
  function Dedup(s: seq<string>): seq<string>
  {
    if |s| == 0 then []
    else if s[|s| - 1] in Dedup(s[..|s| - 1]) then Dedup(s[..|s| - 1])
    else Dedup(s[..|s| - 1]) + [s[|s| - 1]]
  }

  /** The value of the last entry of `es` with key `k`. */
  function LastValue<V>(es: seq<Entry<V>>, k: string): Option<V>
  {
    if |es| == 0 then None
    else if es[|es| - 1].key == k then Some(es[|es| - 1].value)
    else LastValue(es[..|es| - 1], k)
  }

  lemma PutKeepsUniqueKeys<V>(m: seq<Entry<V>>, k: string, v: V)
    requires UniqueKeys(m)
    ensures UniqueKeys(Put(m, k, v))
  {
  }

  /** Assigning a new key appends it. */
  lemma {:induction false} PutNewKey<V>(m: seq<Entry<V>>, k: string, v: V)
    requires !HasKey(m, k)
    ensures Put(m, k, v) == m + [Entry(k, v)]
  {
    AssignNewKey(m, k, v);
  }

  lemma {:induction false} AssignNewKey<V>(m: seq<Entry<V>>, k: string, v: V)
    requires !HasKey(m, k)
    ensures Assign(m, k, v) == m + [Entry(k, v)]
  {
    if |m| > 0 {
      assert m[0].key == Keys(m)[0];
      assert !HasKey(m[1..], k) by {
        assert forall i :: 0 <= i < |m[1..]| ==> Keys(m[1..])[i] == Keys(m)[i + 1];
      }
      AssignNewKey(m[1..], k, v);
      calc {
        Assign(m, k, v);
        [m[0]] + Assign(m[1..], k, v);
        [m[0]] + (m[1..] + [Entry(k, v)]);
        { assert m == [m[0]] + m[1..]; }
        m + [Entry(k, v)];
      }
    }
  }

  /** Assigning the value a key already has changes nothing. */
  lemma {:induction false} PutSameValue<V>(m: seq<Entry<V>>, k: string, v: V)
    requires Get(m, k) == Some(v)
    ensures Put(m, k, v) == m
  {
    if m[0].key != k {
      PutSameValue(m[1..], k, v);
    }
  }

  /** A second assignment to the same key overrides the first. */
  lemma {:induction false} PutPut<V>(m: seq<Entry<V>>, k: string, a: V, b: V)
    ensures Put(Put(m, k, a), k, b) == Put(m, k, b)
  {
    if |m| > 0 && m[0].key != k {
      PutPut(m[1..], k, a, b);
    }
  }

  /** The entries appended one after the other: the last value of a key wins,
      but the key keeps the place of its first occurrence. */
  lemma {:induction false} FromEntriesKeys<V>(es: seq<Entry<V>>)
    ensures Keys(FromEntries(es)) == Dedup(Keys(es))
    ensures forall k :: Get(FromEntries(es), k) == LastValue(es, k)
  {
    if |es| > 0 {
      var init := es[..|es| - 1];
      FromEntriesKeys(init);
      assert Keys(init) == Keys(es)[..|es| - 1];
      assert HasKey(FromEntries(init), es[|es| - 1].key) <==> es[|es| - 1].key in Dedup(Keys(init)) by {
        DedupSameElements(Keys(init));
      }
    }
  }

  /** A lookup in the map built from `es` finds the last value given. */
  lemma GetFromEntries<V>(es: seq<Entry<V>>, k: string)
    ensures Get(FromEntries(es), k) == LastValue(es, k)
  {
    FromEntriesKeys(es);
  }

  lemma {:induction false} DedupSameElements(s: seq<string>)
    ensures forall x :: x in Dedup(s) <==> x in s
  {
    if |s| > 0 {
      DedupSameElements(s[..|s| - 1]);
      assert s == s[..|s| - 1] + [s[|s| - 1]];
    }
  }

  /** The last string of a sequence without repetitions is not among the
      others, and they have no repetitions either. */
  lemma DistinctLast(s: seq<string>)
    requires Distinct(s) && |s| > 0
    ensures Distinct(s[..|s| - 1]) && s[|s| - 1] !in s[..|s| - 1]
  {
  }

  lemma UniqueInit<V>(es: seq<Entry<V>>)
    requires UniqueKeys(es) && |es| > 0
    ensures UniqueKeys(es[..|es| - 1]) && !HasKey(es[..|es| - 1], es[|es| - 1].key)
  {
    assert Keys(es[..|es| - 1]) == Keys(es)[..|es| - 1];
    DistinctLast(Keys(es));
  }

  /** Without repeated keys, appending the entries one by one rebuilds them. */
  lemma {:induction false} FromEntriesOfUnique<V>(es: seq<Entry<V>>)
    requires UniqueKeys(es)
    ensures FromEntries(es) == es
  {
    if |es| > 0 {
      var init := es[..|es| - 1];
      var last := es[|es| - 1];
      UniqueInit(es);
      calc {
        FromEntries(es);
        Put(FromEntries(init), last.key, last.value);
        { FromEntriesOfUnique(init); }
        Put(init, last.key, last.value);
        { PutNewKey(init, last.key, last.value); }
        init + [Entry(last.key, last.value)];
        { assert last == Entry(last.key, last.value); }
        init + [last];
        es;
      }
    }
  }

  lemma KeysAppend<V>(a: seq<Entry<V>>, b: seq<Entry<V>>)
    ensures Keys(a + b) == Keys(a) + Keys(b)
  {
  }

  /** Every entry after an assignment was there before or is the new one. */
  lemma {:induction false} AssignEntries<V>(m: seq<Entry<V>>, k: string, v: V)
    ensures forall e :: e in Assign(m, k, v) ==> e in m || e == Entry(k, v)
  {
    if |m| > 0 && m[0].key != k {
      AssignEntries(m[1..], k, v);
      assert Assign(m, k, v) == [m[0]] + Assign(m[1..], k, v);
    }
  }

  /** The entries of the map built from `es` are entries of `es`. */
  lemma {:induction false} FromEntriesEntries<V>(es: seq<Entry<V>>)
    ensures forall e :: e in FromEntries(es) ==> e in es
  {
    if |es| > 0 {
      var init := es[..|es| - 1];
      var last := es[|es| - 1];
      FromEntriesEntries(init);
      AssignEntries(FromEntries(init), last.key, last.value);
      assert forall e :: e in init ==> e in es;
    }
  }

  /** The map built from any entries has no repeated key. */
  lemma {:induction false} FromEntriesUniqueKeys<V>(es: seq<Entry<V>>)
    ensures UniqueKeys(FromEntries(es))
  {
    if |es| > 0 {
      FromEntriesUniqueKeys(es[..|es| - 1]);
      PutKeepsUniqueKeys(FromEntries(es[..|es| - 1]), es[|es| - 1].key, es[|es| - 1].value);
    }
  }

  /** Appending one more entry assigns it. */
  lemma FromEntriesSnoc<V>(es: seq<Entry<V>>, e: Entry<V>)
    ensures FromEntries(es + [e]) == Put(FromEntries(es), e.key, e.value)
  {
    assert (es + [e])[..|es|] == es;
  }

  /** The last value in a concatenation comes from the second part when
      that part gives the key a value. */
  lemma {:induction false} LastValueAppend<V>(a: seq<Entry<V>>, b: seq<Entry<V>>, k: string)
    ensures LastValue(a + b, k) == if LastValue(b, k).Some? then LastValue(b, k) else LastValue(a, k)
  {
    if |b| > 0 {
      assert (a + b)[..|a + b| - 1] == a + b[..|b| - 1];
      LastValueAppend(a, b[..|b| - 1], k);
    } else {
      assert a + b == a;
    }
  }

  /** In a dict without repeated keys the first and the last occurrence of
      a key are the same. */
  lemma GetIsLastValue<V>(fs: seq<Entry<V>>, k: string)
    requires UniqueKeys(fs)
    ensures Get(fs, k) == LastValue(fs, k)
  {
    FromEntriesKeys(fs);
    FromEntriesOfUnique(fs);
  }

  /** Past the first entry of a dict without repeated keys, no entry has the
      first one's key. */
  lemma UniqueTail<V>(fs: seq<Entry<V>>)
    requires UniqueKeys(fs) && |fs| > 0
    ensures UniqueKeys(fs[1..]) && Get(fs[1..], fs[0].key) == None
  {
    assert Keys(fs[1..]) == Keys(fs)[1..];
    GetFindsKeys(fs[1..], fs[0].key);
  }
}
