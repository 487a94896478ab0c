/**
 * A JavaScript `Map<string, T>` as the in-memory store uses it: keyed rows plus
 * the insertion order that `Map.prototype.values()` iterates in. Re-setting a key
 * that is present keeps its position; deleting a key removes it from the order.
 */
module Tables {
  import opened Wrappers
  import opened Seqs

  type Id = string

  datatype Table<T> = Table(rows: map<Id, T>, order: seq<Id>) {
    /** The order lists every key exactly once. */
    ghost predicate Valid() {
      && (forall i, j :: 0 <= i < j < |order| ==> order[i] != order[j])
      && (forall k :: k in rows <==> k in order)
    }

    /** `map.get(k)`. */
    function Get(k: Id): (r: Option<T>)
      ensures r.Some? <==> k in rows
      ensures r.Some? ==> r.value == rows[k]
    {
      if k in rows then Some(rows[k]) else None
    }

    /** `map.set(k, v)`. */
    function Set(k: Id, v: T): (t: Table<T>)
      requires Valid()
      ensures t.Valid()
      ensures t.rows == rows[k := v]
    {
      Table(rows[k := v], if k in rows then order else order + [k])
    }

    /** `map.delete(k)`; the boolean `Map.prototype.delete` returns is `k in rows`. */
    function Delete(k: Id): (t: Table<T>)
      requires Valid()
      ensures t.Valid()
      ensures t.rows == rows - {k}
      ensures k !in t.rows
    {
      Table(rows - {k}, Without(order, k))
    }

    /** `Array.from(map.values())`: the rows in insertion order. */
    function Values(): (vs: seq<T>)
      requires Valid()
      ensures |vs| == |order|
      ensures forall i :: 0 <= i < |order| ==> vs[i] == rows[order[i]]
    {
      seq(|order|, i requires 0 <= i < |order| => rows[order[i]])
    }
  }

  /** `new Map()`. */
  function Empty<T>(): (t: Table<T>)
    ensures t.Valid() && t.rows == map[] && t.Values() == []
  {
    Table(map[], [])
  }

  /** `ks` with every occurrence of `k` removed, the rest in order. */
  function Without(ks: seq<Id>, k: Id): (r: seq<Id>)
    ensures forall x :: x in r <==> x in ks && x != k
    ensures (forall i, j :: 0 <= i < j < |ks| ==> ks[i] != ks[j]) ==>
              (forall i, j :: 0 <= i < j < |r| ==> r[i] != r[j])
  {
    if ks == [] then []
    else if ks[0] == k then Without(ks[1..], k)
    else
      var rest := Without(ks[1..], k);
      assert forall i :: 0 <= i < |rest| ==> rest[i] in ks[1..];
      [ks[0]] + rest
  }

  /** Records whose foreign key `fk` is `id` (`values.filter(x => x.fk === id)`). */
  function Where<T>(s: seq<T>, fk: T -> Option<Id>, id: Id): (r: seq<T>)
  {
    Filter(s, x => fk(x) == Some(id))
  }

  /** The list for `id` starts with the first record when that record belongs to `id`. */
  lemma WhereCons<T>(s: seq<T>, fk: T -> Option<Id>, id: Id)
    requires s != []
    ensures Where(s, fk, id) == (if fk(s[0]) == Some(id) then [s[0]] else []) + Where(s[1..], fk, id)
  {
  }

  /** Every listed record belongs to `id`, and every record of `s` belonging to `id` is listed. */
  lemma WhereExact<T>(s: seq<T>, fk: T -> Option<Id>, id: Id)
    ensures forall i :: 0 <= i < |Where(s, fk, id)| ==> fk(Where(s, fk, id)[i]) == Some(id)
    ensures forall i :: 0 <= i < |s| && fk(s[i]) == Some(id) ==> s[i] in Where(s, fk, id)
    ensures forall i :: 0 <= i < |Where(s, fk, id)| ==> Where(s, fk, id)[i] in s
  {
  }

  /** Setting a fresh key appends its value at the end of the iteration order. */
  lemma SetFreshAppends<T>(t: Table<T>, k: Id, v: T)
    requires t.Valid() && k !in t.rows
    ensures t.Set(k, v).Values() == t.Values() + [v]
  {
    var a, b := t.Set(k, v).Values(), t.Values() + [v];
    assert |a| == |b|;
    forall i | 0 <= i < |a| ensures a[i] == b[i] {
      if i < |t.order| {
        assert t.order[i] in t.rows;
      }
    }
  }

  /** Re-setting a present key keeps every position and replaces only that key's value. */
  lemma SetPresentInPlace<T>(t: Table<T>, k: Id, v: T)
    requires t.Valid() && k in t.rows
    ensures t.Set(k, v).order == t.order
    ensures |t.Set(k, v).Values()| == |t.Values()|
    ensures forall i :: 0 <= i < |t.order| ==>
              t.Set(k, v).Values()[i] == if t.order[i] == k then v else t.Values()[i]
  {
  }

  /** A new record belonging to `id` goes to the end of the list for `id`; one belonging elsewhere leaves it unchanged. */
  lemma WhereAfterInsert<T>(t: Table<T>, k: Id, v: T, fk: T -> Option<Id>, id: Id)
    requires t.Valid() && k !in t.rows
    ensures Where(t.Set(k, v).Values(), fk, id) ==
              if fk(v) == Some(id) then Where(t.Values(), fk, id) + [v] else Where(t.Values(), fk, id)
  {
    SetFreshAppends(t, k, v);
    FilterAppend(t.Values(), [v], x => fk(x) == Some(id));
  }

  /** Deleting a key removes exactly its row from the iteration order, keeping the others in order. */
  lemma {:induction false} DeleteValues<T>(t: Table<T>, k: Id, p: nat)
    requires t.Valid() && p < |t.order| && t.order[p] == k
    ensures t.Delete(k).Values() == t.Values()[..p] + t.Values()[p + 1..]
  {
    var ks := t.order;
    WithoutAt(ks, k, p);
    var a, b := t.Delete(k).Values(), t.Values()[..p] + t.Values()[p + 1..];
    assert |a| == |b|;
    forall i | 0 <= i < |a| ensures a[i] == b[i] {
      if i < p {
        assert t.Delete(k).order[i] == ks[i];
      } else {
        assert t.Delete(k).order[i] == ks[i + 1];
      }
    }
  }

  /** In a duplicate-free key list, removing `k` at position `p` splices it out. */
  lemma {:induction false} WithoutAt(ks: seq<Id>, k: Id, p: nat)
    requires forall i, j :: 0 <= i < j < |ks| ==> ks[i] != ks[j]
    requires p < |ks| && ks[p] == k
    ensures Without(ks, k) == ks[..p] + ks[p + 1..]
  {
    if p == 0 {
      WithoutAbsent(ks[1..], k);
      assert ks[..0] + ks[1..] == ks[1..];
    } else {
      WithoutAt(ks[1..], k, p - 1);
      assert ks[..p] == [ks[0]] + ks[1..][..p - 1];
      assert ks[p + 1..] == ks[1..][p..];
    }
  }

  /** Removing an absent key changes nothing. */
  lemma {:induction false} WithoutAbsent(ks: seq<Id>, k: Id)
    requires k !in ks
    ensures Without(ks, k) == ks
  {
    if ks != [] {
      WithoutAbsent(ks[1..], k);
    }
  }
}
