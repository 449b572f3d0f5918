/** Ordered, string-keyed tables.

    The detector keeps its configuration in plain JavaScript objects and walks
    them with `Object.entries`, so the order in which keys were first added
    decides which entry wins. A table here is the sequence of entries in that
    order; assigning to a key replaces the entry in place when the key is
    already present and appends it otherwise. */
module Tables {

  datatype Option<+T> = None | Some(value: T)

  type Table<V> = seq<(string, V)>

  /** The keys of a JavaScript object are distinct. */
  ghost predicate UniqueKeys<V>(t: Table<V>)
  {
    forall i, j :: 0 <= i < j < |t| ==> t[i].0 != t[j].0
  }

  predicate HasKey<V>(t: Table<V>, k: string)
  {
    exists i :: 0 <= i < |t| && t[i].0 == k
  }

  /** The position of the entry with key `k`, if any. */
  function KeyIndex<V>(t: Table<V>, k: string): (r: Option<nat>)
    ensures r.Some? ==> r.value < |t| && t[r.value].0 == k
                        && forall j :: 0 <= j < r.value ==> t[j].0 != k
    ensures r.None? <==> !HasKey(t, k)
  {
    if t == [] then None
    else if t[0].0 == k then Some(0)
    else match KeyIndex(t[1..], k)
      case None => None
      case Some(i) => Some(i + 1)
  }

  /** Property read `obj[k]`. */
  function Get<V>(t: Table<V>, k: string): Option<V>
  {
    match KeyIndex(t, k)
    case None => None
    case Some(i) => Some(t[i].1)
  }

  /** Property assignment `obj[k] = v`: an existing key keeps its position,
      a new key goes last. */
  function Put<V>(t: Table<V>, k: string, v: V): (r: Table<V>)
    ensures KeyIndex(t, k).Some? ==> r == t[KeyIndex(t, k).value := (k, v)]
    ensures KeyIndex(t, k).None? ==> r == t + [(k, v)]
  {
    if t == [] then [(k, v)]
    else if t[0].0 == k then [(k, v)] + t[1..]
    else [t[0]] + Put(t[1..], k, v)
  }

  /** The assignments `obj[k] = v` for every entry of `es`, in order. */
  function PutAll<V>(t: Table<V>, es: Table<V>): Table<V>
    decreases |es|
  {
    if es == [] then t
    else Put(PutAll(t, es[..|es| - 1]), es[|es| - 1].0, es[|es| - 1].1)
  }

  /** The same assignments on a dictionary whose order is never observed. */
  function UpdateAll<V>(m: map<string, V>, es: Table<V>): map<string, V>
    decreases |es|
  {
    if es == [] then m
    else UpdateAll(m, es[..|es| - 1])[es[|es| - 1].0 := es[|es| - 1].1]
  }

  /** The value that the last entry of `es` with key `k` carries. */
  function LastValue<V>(es: Table<V>, k: string): Option<V>
    decreases |es|
  {
    if es == [] then None
    else if es[|es| - 1].0 == k then Some(es[|es| - 1].1)
    else LastValue(es[..|es| - 1], k)
  }

  /** The first entry whose value satisfies `p`: the shape of every
      `for (const [key, value] of Object.entries(obj)) if (...) return` loop. */
  function FirstWhere<V>(t: Table<V>, p: V -> bool): (r: Option<nat>)
    ensures r.Some? ==> r.value < |t| && p(t[r.value].1)
                        && forall j :: 0 <= j < r.value ==> !p(t[j].1)
    ensures r.None? ==> forall j :: 0 <= j < |t| ==> !p(t[j].1)
  {
    if t == [] then None
    else if p(t[0].1) then Some(0)
    else match FirstWhere(t[1..], p)
      case None => None
      case Some(i) => Some(i + 1)
  }

  /** Reading back the key just written gives the value written. */
  lemma PutGetSame<V>(t: Table<V>, k: string, v: V)
    ensures Get(Put(t, k, v), k) == Some(v)
  {
    var r := Put(t, k, v);
    match KeyIndex(t, k)
    case Some(i) =>
      assert r[i] == (k, v);
      assert forall j :: 0 <= j < i ==> r[j] == t[j];
      assert KeyIndex(r, k) == Some(i);
    case None =>
      assert r[|t|] == (k, v);
      assert forall j :: 0 <= j < |t| ==> r[j] == t[j];
      assert KeyIndex(r, k) == Some(|t|);
  }

  /** Writing one key leaves every other key's value as it was. */
  lemma {:induction false} PutGetOther<V>(t: Table<V>, k: string, v: V, k': string)
    requires k' != k
    ensures Get(Put(t, k, v), k') == Get(t, k')
  {
    var r := Put(t, k, v);
    if t == [] {
      assert KeyIndex(r, k') == KeyIndex(r[1..], k') == None;
    } else if t[0].0 == k' {
      assert KeyIndex(r, k') == Some(0);
    } else if t[0].0 == k {
      assert r[1..] == t[1..];
    } else {
      assert r[1..] == Put(t[1..], k, v);
      PutGetOther(t[1..], k, v, k');
    }
  }

  /** Assignment never introduces a second entry with the same key. */
  lemma PutUnique<V>(t: Table<V>, k: string, v: V)
    requires UniqueKeys(t)
    ensures UniqueKeys(Put(t, k, v))
    ensures |Put(t, k, v)| == |t| + (if HasKey(t, k) then 0 else 1)
  {
    var r := Put(t, k, v);
    match KeyIndex(t, k)
    case Some(i) =>
      assert forall j :: 0 <= j < |t| ==> r[j].0 == t[j].0;
    case None =>
      assert forall j :: 0 <= j < |t| ==> r[j] == t[j] && t[j].0 != k;
      assert r[|t|].0 == k;
  }

  /** After a batch of assignments a key holds the last value the batch gave
      it, or its old value when the batch does not mention it. */
  lemma {:induction false} PutAllGet<V>(t: Table<V>, es: Table<V>, k: string)
    ensures Get(PutAll(t, es), k) == if LastValue(es, k).Some? then LastValue(es, k) else Get(t, k)
    decreases |es|
  {
    if es != [] {
      var init := es[..|es| - 1];
      PutAllGet(t, init, k);
      if es[|es| - 1].0 == k {
        PutGetSame(PutAll(t, init), k, es[|es| - 1].1);
      } else {
        PutGetOther(PutAll(t, init), es[|es| - 1].0, es[|es| - 1].1, k);
      }
    }
  }

  /** The dictionary version of `PutAllGet`. */
  lemma {:induction false} UpdateAllGet<V>(m: map<string, V>, es: Table<V>, k: string)
    ensures LastValue(es, k).Some? ==> k in UpdateAll(m, es) && UpdateAll(m, es)[k] == LastValue(es, k).value
    ensures LastValue(es, k).None? ==> (k in UpdateAll(m, es) <==> k in m)
                                       && (k in m ==> UpdateAll(m, es)[k] == m[k])
    decreases |es|
  {
    if es != [] {
      UpdateAllGet(m, es[..|es| - 1], k);
    }
  }

  /** Batches of assignments keep the keys distinct. */
  lemma {:induction false} PutAllUnique<V>(t: Table<V>, es: Table<V>)
    requires UniqueKeys(t)
    ensures UniqueKeys(PutAll(t, es))
    decreases |es|
  {
    if es != [] {
      PutAllUnique(t, es[..|es| - 1]);
      PutUnique(PutAll(t, es[..|es| - 1]), es[|es| - 1].0, es[|es| - 1].1);
    }
  }

  /** If every value satisfying `p` at position `j` also satisfies `p` when
      placed at the earlier position `i`, the first match is never `j`: the
      later entry is shadowed. */
  lemma Shadowed<V>(t: Table<V>, p: V -> bool, i: nat, j: nat)
    requires i < j < |t|
    requires p(t[j].1) ==> p(t[i].1)
    ensures FirstWhere(t, p) != Some(j)
  {
  }

  /** A key whose only entry is shadowed is never the key of the first match. */
  lemma ShadowedKey<V>(t: Table<V>, p: V -> bool, i: nat, j: nat)
    requires i < j < |t|
    requires forall m :: 0 <= m < |t| && t[m].0 == t[j].0 ==> m == j
    requires p(t[j].1) ==> p(t[i].1)
    ensures forall m :: FirstWhere(t, p) == Some(m) ==> t[m].0 != t[j].0
  {
    Shadowed(t, p, i, j);
  }

  /** When position `i` matches, the first match is at `i` or before it. */
  lemma FirstWhereAtMost<V>(t: Table<V>, p: V -> bool, i: nat)
    requires i < |t| && p(t[i].1)
    ensures FirstWhere(t, p).Some? && FirstWhere(t, p).value <= i
  {
  }

  /** Two tests that agree on every value of the table find the same entry. */
  lemma {:induction false} FirstWhereSame<V>(t: Table<V>, p: V -> bool, q: V -> bool)
    requires forall j :: 0 <= j < |t| ==> p(t[j].1) == q(t[j].1)
    ensures FirstWhere(t, p) == FirstWhere(t, q)
  {
    if t != [] {
      FirstWhereSame(t[1..], p, q);
    }
  }

  /** The first match is at `i` exactly when `i` matches and no earlier entry does. */
  lemma FirstWhereAt<V>(t: Table<V>, p: V -> bool, i: nat)
    requires i < |t| && p(t[i].1)
    requires forall j :: 0 <= j < i ==> !p(t[j].1)
    ensures FirstWhere(t, p) == Some(i)
  {
  }
}
