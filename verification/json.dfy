/** JSON values as the Python code handles them after `json.loads`: objects
    are insertion-ordered dicts with string keys. */
module JsonValue {
  import opened OrderedMap

  /** Numbers are integers here; floats behave the same for every rule in the
      model except that `0.0` is also falsy. */
  datatype Json =
    | JNull
    | JBool(b: bool)
    | JNum(n: int)
    | JStr(s: string)
    | JArr(items: seq<Json>)
    | JObj(fields: seq<Entry<Json>>)

  type Fields = seq<Entry<Json>>

  const EmptyObject: Json := JObj([])

  /** Python truthiness: `None`, `False`, `0`, `""`, `[]` and `{}` are falsy. */
  predicate Truthy(j: Json)
  {
    match j
    case JNull => false
    case JBool(b) => b
    case JNum(n) => n != 0
    case JStr(s) => s != ""
    case JArr(xs) => |xs| > 0
    case JObj(fs) => |fs| > 0
  }

  /** `isinstance(j, (dict, list))`. */
  predicate IsContainer(j: Json)
  {
    j.JArr? || j.JObj?
  }

  /** Every object inside `j` has distinct keys, as every Python dict does. */
  predicate WellFormed(j: Json)
  {
    match j
    case JObj(fs) => UniqueKeys(fs) && forall i :: 0 <= i < |fs| ==> WellFormed(fs[i].value)
    case JArr(xs) => forall i :: 0 <= i < |xs| ==> WellFormed(xs[i])
    case _ => true
  }

  /** `j` with every object entry whose key satisfies `drop` removed, at any
      depth. */
  function Prune(j: Json, drop: string -> bool): Json
  {
    match j
    case JObj(fs) => JObj(PruneFields(fs, drop))
    case JArr(xs) => JArr(PruneItems(xs, drop))
    case _ => j
  }

  function PruneFields(fs: Fields, drop: string -> bool): Fields
  {
    if |fs| == 0 then []
    else if drop(fs[0].key) then PruneFields(fs[1..], drop)
    else [Entry(fs[0].key, Prune(fs[0].value, drop))] + PruneFields(fs[1..], drop)
  }

  function PruneItems(xs: seq<Json>, drop: string -> bool): seq<Json>
  {
    if |xs| == 0 then [] else [Prune(xs[0], drop)] + PruneItems(xs[1..], drop)
  }

  /** No object inside `j` has a key that `drop` selects. */
  predicate NoKeyDeep(j: Json, drop: string -> bool)
  {
    match j
    case JObj(fs) => forall i :: 0 <= i < |fs| ==> !drop(fs[i].key) && NoKeyDeep(fs[i].value, drop)
    case JArr(xs) => forall i :: 0 <= i < |xs| ==> NoKeyDeep(xs[i], drop)
    case _ => true
  }

  /** Pruning keys that do not occur changes nothing. */
  lemma {:induction false} PruneUnchanged(j: Json, drop: string -> bool)
    requires NoKeyDeep(j, drop)
    ensures Prune(j, drop) == j
  {
    match j
    case JObj(fs) => PruneFieldsUnchanged(fs, drop);
    case JArr(xs) => PruneItemsUnchanged(xs, drop);
    case _ =>
  }

  lemma {:induction false} PruneFieldsUnchanged(fs: Fields, drop: string -> bool)
    requires forall i :: 0 <= i < |fs| ==> !drop(fs[i].key) && NoKeyDeep(fs[i].value, drop)
    ensures PruneFields(fs, drop) == fs
  {
    if |fs| > 0 {
      PruneUnchanged(fs[0].value, drop);
      PruneFieldsUnchanged(fs[1..], drop);
      assert fs == [fs[0]] + fs[1..];
    }
  }

  lemma {:induction false} PruneItemsUnchanged(xs: seq<Json>, drop: string -> bool)
    requires forall i :: 0 <= i < |xs| ==> NoKeyDeep(xs[i], drop)
    ensures PruneItems(xs, drop) == xs
  {
    if |xs| > 0 {
      PruneUnchanged(xs[0], drop);
      PruneItemsUnchanged(xs[1..], drop);
      assert xs == [xs[0]] + xs[1..];
    }
  }

  /** Assigning a pruned key leaves no trace after pruning. */
  lemma {:induction false} PrunePutDropped(fs: Fields, k: string, v: Json, drop: string -> bool)
    requires drop(k)
    ensures PruneFields(Put(fs, k, v), drop) == PruneFields(fs, drop)
  {
    if |fs| > 0 && fs[0].key != k {
      PrunePutDropped(fs[1..], k, v, drop);
      assert Put(fs, k, v)[1..] == Put(fs[1..], k, v);
    }
  }

  /** Assigning a kept key commutes with pruning. */
  lemma {:induction false} PrunePutKept(fs: Fields, k: string, v: Json, drop: string -> bool)
    requires !drop(k)
    ensures PruneFields(Put(fs, k, v), drop) == Put(PruneFields(fs, drop), k, Prune(v, drop))
  {
    if |fs| > 0 && fs[0].key != k {
      PrunePutKept(fs[1..], k, v, drop);
      assert Put(fs, k, v)[1..] == Put(fs[1..], k, v);
    }
  }

  /** Pruning an object with no pruned key at its top level keeps its order. */
  lemma {:induction false} PruneFieldsAppend(fs: Fields, e: Entry<Json>, drop: string -> bool)
    ensures PruneFields(fs + [e], drop)
         == PruneFields(fs, drop) + (if drop(e.key) then [] else [Entry(e.key, Prune(e.value, drop))])
  {
    if |fs| > 0 {
      assert (fs + [e])[1..] == fs[1..] + [e];
      PruneFieldsAppend(fs[1..], e, drop);
    } else {
      assert fs + [e] == [e];
    }
  }

  lemma {:induction false} PruneFieldsConcat(a: Fields, b: Fields, drop: string -> bool)
    ensures PruneFields(a + b, drop) == PruneFields(a, drop) + PruneFields(b, drop)
  {
    if |a| > 0 {
      assert (a + b)[1..] == a[1..] + b;
      PruneFieldsConcat(a[1..], b, drop);
    } else {
      assert a + b == b;
    }
  }

  /** Pruning commutes with building a dict from its assignments. */
  lemma {:induction false} PruneFromEntries(es: Fields, drop: string -> bool)
    ensures PruneFields(FromEntries(es), drop) == FromEntries(PruneFields(es, drop))
  {
    if |es| > 0 {
      var init := es[..|es| - 1];
      var last := es[|es| - 1];
      assert es == init + [last];
      var m := FromEntries(init);
      assert FromEntries(es) == Put(m, last.key, last.value);
      PruneFromEntries(init, drop);
      PruneFieldsAppend(init, last, drop);
      if drop(last.key) {
        calc {
          PruneFields(FromEntries(es), drop);
          { PrunePutDropped(m, last.key, last.value, drop); }
          PruneFields(m, drop);
          FromEntries(PruneFields(init, drop));
          { assert PruneFields(init, drop) + [] == PruneFields(init, drop); }
          FromEntries(PruneFields(es, drop));
        }
      } else {
        var e := Entry(last.key, Prune(last.value, drop));
        calc {
          PruneFields(FromEntries(es), drop);
          { PrunePutKept(m, last.key, last.value, drop); }
          Put(PruneFields(m, drop), e.key, e.value);
          Put(FromEntries(PruneFields(init, drop)), e.key, e.value);
          { FromEntriesSnoc(PruneFields(init, drop), e); }
          FromEntries(PruneFields(init, drop) + [e]);
          FromEntries(PruneFields(es, drop));
        }
      }
    }
  }
}
