/**
 * Sequence operations that the mock backend performs on its module-level
 * arrays: `findIndex` by id (first match wins), `splice(index, 1)`, and
 * `filter`. A table is a `seq<T>` and `key` projects a record onto its id.
 * Ids are never assumed to be unique: the store does not enforce it.
 */
module Tables {

  /** The position of the first record whose id is `id`, or -1 when none has it (see `IndexOfSpec`). */
  function IndexOf<T>(s: seq<T>, key: T -> string, id: string): (r: int)
    ensures -1 <= r < |s|
    ensures 0 <= r ==> key(s[r]) == id
    decreases |s|
  {
    if |s| == 0 then -1
    else if key(s[0]) == id then 0
    else
      var k := IndexOf(s[1..], key, id);
      if k == -1 then -1 else k + 1
  }

  /**
   * `IndexOf` answers -1 exactly when no record has the id, and otherwise
   * the position of the FIRST record that has it.
   */
  lemma {:induction false} IndexOfSpec<T>(s: seq<T>, key: T -> string, id: string)
    ensures var r := IndexOf(s, key, id);
      && (r == -1 <==> forall i :: 0 <= i < |s| ==> key(s[i]) != id)
      && (0 <= r ==> forall i :: 0 <= i < r ==> key(s[i]) != id)
    decreases |s|
  {
    if |s| != 0 && key(s[0]) != id {
      IndexOfSpec(s[1..], key, id);
      assert forall i :: 1 <= i < |s| ==> s[i] == s[1..][i - 1];
    }
  }

  /** `s` without its element at position `i` (a one-element splice). */
  function RemoveAt<T>(s: seq<T>, i: nat): (r: seq<T>)
    requires i < |s|
    ensures |r| == |s| - 1
    ensures forall j :: 0 <= j < i ==> r[j] == s[j]
    ensures forall j :: i <= j < |r| ==> r[j] == s[j + 1]
    ensures multiset(r) + multiset{s[i]} == multiset(s)
  {
    assert s == s[..i] + [s[i]] + s[i + 1..];
    s[..i] + s[i + 1..]
  }

  /** The records of `s` that satisfy `p`, in their original order. */
  function Filter<T(!new)>(s: seq<T>, p: T -> bool): (r: seq<T>)
    ensures |r| <= |s|
    ensures forall x :: multiset(r)[x] == if p(x) then multiset(s)[x] else 0
  {
    if s == [] then []
    else
      assert s == [s[0]] + s[1..];
      if p(s[0]) then [s[0]] + Filter(s[1..], p) else Filter(s[1..], p)
  }

  /**
   * The filter keeps table order: filtering a concatenation is the
   * concatenation of the filtered parts.
   */
  lemma {:induction false} FilterAppend<T(!new)>(s: seq<T>, t: seq<T>, p: T -> bool)
    ensures Filter(s + t, p) == Filter(s, p) + Filter(t, p)
    decreases |s|
  {
    if s == [] {
      assert s + t == t;
    } else {
      var h := s[0];
      assert s == [h] + s[1..];
      assert s + t == [h] + (s[1..] + t);
      FilterAppend(s[1..], t, p);
      FilterCons(h, s[1..] + t, p);
      FilterCons(h, s[1..], p);
      ConsAppend(h, p, Filter(s[1..], p), Filter(t, p));
    }
  }

  /** Filtering a table with a record in front decides that record first. */
  lemma FilterCons<T(!new)>(h: T, s: seq<T>, p: T -> bool)
    ensures Filter([h] + s, p) == if p(h) then [h] + Filter(s, p) else Filter(s, p)
  {
    assert ([h] + s)[0] == h && ([h] + s)[1..] == s;
  }

  /** Prepending a record that may be kept commutes with appending. */
  lemma ConsAppend<T>(h: T, p: T -> bool, a: seq<T>, b: seq<T>)
    ensures (if p(h) then [h] + (a + b) else a + b) == (if p(h) then [h] + a else a) + b
  {
  }

  /** A single record is kept by the filter exactly when it passes. */
  lemma FilterSingle<T(!new)>(x: T, p: T -> bool)
    ensures Filter([x], p) == if p(x) then [x] else []
  {
    assert [x][1..] == [];
  }

  /** Splices out the first record whose id is `id`; unchanged when there is none. */
  function RemoveFirstWithId<T>(s: seq<T>, key: T -> string, id: string): (r: seq<T>)
    ensures IndexOf(s, key, id) == -1 ==> r == s
    ensures IndexOf(s, key, id) != -1 ==> |r| == |s| - 1 && r == RemoveAt(s, IndexOf(s, key, id))
  {
    var k := IndexOf(s, key, id);
    if k == -1 then s else RemoveAt(s, k)
  }

  /**
   * For each victim in turn, splices out the first record whose id is the
   * victim's id: the shape of `victims.forEach(v => splice(findIndex(id == v.id), 1))`.
   */
  function RemoveEach<T>(s: seq<T>, key: T -> string, victims: seq<T>): (r: seq<T>)
    ensures |s| - |victims| <= |r| <= |s|
    ensures multiset(r) <= multiset(s)
    decreases |victims|
  {
    if victims == [] then s
    else RemoveEach(RemoveFirstWithId(s, key, key(victims[0])), key, victims[1..])
  }

  /**
   * The loop removes only records that carry some victim's id: a record
   * whose id no victim has keeps its multiplicity.
   */
  lemma {:induction false} RemoveEachSparesOtherIds<T>(s: seq<T>, key: T -> string, victims: seq<T>, x: T)
    requires forall v :: v in victims ==> key(v) != key(x)
    ensures multiset(RemoveEach(s, key, victims))[x] == multiset(s)[x]
    decreases |victims|
  {
    if victims != [] {
      var id := key(victims[0]);
      var once := RemoveFirstWithId(s, key, id);
      var k := IndexOf(s, key, id);
      if k != -1 {
        assert multiset(once) + multiset{s[k]} == multiset(s);
        assert s[k] != x;
      }
      assert multiset(once)[x] == multiset(s)[x];
      RemoveEachSparesOtherIds(once, key, victims[1..], x);
    }
  }

  /** No two records of `s` share an id. */
  predicate UniqueIds<T>(s: seq<T>, key: T -> string)
  {
    forall i, j :: 0 <= i < j < |s| ==> key(s[i]) != key(s[j])
  }

  /** Dropping the head of a table with unique ids leaves unique ids. */
  lemma UniqueIdsTail<T>(s: seq<T>, key: T -> string)
    requires s != [] && UniqueIds(s, key)
    ensures UniqueIds(s[1..], key)
  {
    var t := s[1..];
    forall i, j | 0 <= i < j < |t| ensures key(t[i]) != key(t[j]) {
      assert t[i] == s[i + 1] && t[j] == s[j + 1];
    }
  }

  /** Tables whose records carry the same ids position by position find every id at the same place. */
  lemma {:induction false} IndexOfSameKeys<T>(s: seq<T>, t: seq<T>, key: T -> string, id: string)
    requires |s| == |t| && forall i :: 0 <= i < |s| ==> key(s[i]) == key(t[i])
    ensures IndexOf(s, key, id) == IndexOf(t, key, id)
    decreases |s|
  {
    if s != [] && key(s[0]) != id {
      IndexOfSameKeys(s[1..], t[1..], key, id);
    }
  }

  /** Finding an id in a table that starts with a record of another id looks past that record. */
  lemma {:induction false} IndexOfCons<T>(h: T, t: seq<T>, key: T -> string, id: string)
    requires key(h) != id
    ensures IndexOf([h] + t, key, id) == (if IndexOf(t, key, id) == -1 then -1 else IndexOf(t, key, id) + 1)
  {
    assert ([h] + t)[1..] == t;
  }

  /** Removing every victim from `[h] + t` keeps `h` when no victim carries h's id. */
  lemma {:induction false} RemoveEachKeepsHead<T>(h: T, t: seq<T>, key: T -> string, victims: seq<T>)
    requires forall v :: v in victims ==> key(v) != key(h)
    ensures RemoveEach([h] + t, key, victims) == [h] + RemoveEach(t, key, victims)
    decreases |victims|
  {
    if victims != [] {
      var id := key(victims[0]);
      RemoveFirstWithIdCons(h, t, key, id);
      RemoveEachKeepsHead(h, RemoveFirstWithId(t, key, id), key, victims[1..]);
    }
  }

  /** Every record the filter keeps comes from the filtered table. */
  lemma FilterSubset<T(!new)>(s: seq<T>, p: T -> bool, v: T)
    requires v in Filter(s, p)
    ensures v in s && p(v)
  {
    assert multiset(Filter(s, p))[v] > 0;
  }

  /**
   * When ids are unique, removing each record that satisfies `p` by its id
   * removes exactly the records that satisfy `p`: the same as keeping the
   * records that satisfy its complement `q`.
   */
  lemma {:induction false} RemoveEachOfFilter<T(!new)>(s: seq<T>, key: T -> string, p: T -> bool, q: T -> bool)
    requires UniqueIds(s, key)
    requires forall x :: q(x) == !p(x)
    ensures RemoveEach(s, key, Filter(s, p)) == Filter(s, q)
    decreases |s|
  {
    if s != [] {
      var h, t := s[0], s[1..];
      assert s == [h] + t;
      UniqueIdsTail(s, key);
      RemoveEachOfFilter(t, key, p, q);
      if p(h) {
        assert Filter(s, p) == [h] + Filter(t, p);
        assert Filter(s, q) == Filter(t, q);
        RemoveEachOfHeadVictim(h, t, key, Filter(t, p));
      } else {
        assert Filter(s, p) == Filter(t, p);
        assert Filter(s, q) == [h] + Filter(t, q);
        VictimsMissUniqueHead(h, t, key, p);
        RemoveEachKeepsHead(h, t, key, Filter(t, p));
      }
    }
  }

  /** A first victim that is the head record itself takes just that record. */
  lemma RemoveEachOfHeadVictim<T>(h: T, t: seq<T>, key: T -> string, rest: seq<T>)
    ensures RemoveEach([h] + t, key, [h] + rest) == RemoveEach(t, key, rest)
  {
    var s := [h] + t;
    assert ([h] + rest)[1..] == rest;
    assert IndexOf(s, key, key(h)) == 0;
    assert RemoveAt(s, 0) == t;
  }

  /** With unique ids, no record taken from the tail carries the head's id. */
  lemma VictimsMissUniqueHead<T(!new)>(h: T, t: seq<T>, key: T -> string, p: T -> bool)
    requires UniqueIds([h] + t, key)
    ensures forall v :: v in Filter(t, p) ==> key(v) != key(h)
  {
    var s := [h] + t;
    forall v | v in Filter(t, p) ensures key(v) != key(h) {
      FilterSubset(t, p, v);
      var j :| 0 <= j < |t| && t[j] == v;
      assert s[j + 1] == v && s[0] == h;
    }
  }

  /** A filter that keeps every record returns the table unchanged. */
  lemma {:induction false} FilterKeepsAll<T(!new)>(s: seq<T>, p: T -> bool)
    requires forall i :: 0 <= i < |s| ==> p(s[i])
    ensures Filter(s, p) == s
    decreases |s|
  {
    if s != [] {
      FilterKeepsAll(s[1..], p);
    }
  }

  /**
   * When ids are unique, splicing out the first record with id `id` is the
   * same as keeping the records whose id differs (`q` says exactly that).
   */
  lemma {:induction false} RemoveFirstWithUniqueId<T(!new)>(s: seq<T>, key: T -> string, id: string, q: T -> bool)
    requires UniqueIds(s, key)
    requires forall x :: q(x) == (key(x) != id)
    ensures RemoveFirstWithId(s, key, id) == Filter(s, q)
    decreases |s|
  {
    if s != [] {
      var h, t := s[0], s[1..];
      assert s == [h] + t;
      UniqueIdsTail(s, key);
      if key(h) == id {
        RemoveFirstAtHead(h, t, key, id, q);
      } else {
        RemoveFirstWithUniqueId(t, key, id, q);
        RemoveFirstPastHead(h, t, key, id, q);
      }
    }
  }

  /** The unique record with id `id` at the head is the one spliced out. */
  lemma RemoveFirstAtHead<T(!new)>(h: T, t: seq<T>, key: T -> string, id: string, q: T -> bool)
    requires key(h) == id && UniqueIds([h] + t, key)
    requires forall x :: q(x) == (key(x) != id)
    ensures RemoveFirstWithId([h] + t, key, id) == t == Filter([h] + t, q)
  {
    var s := [h] + t;
    assert IndexOf(s, key, id) == 0;
    assert s[1..] == t;
    assert Filter(s, q) == Filter(t, q);
    forall i | 0 <= i < |t| ensures q(t[i]) {
      assert t[i] == s[i + 1];
    }
    FilterKeepsAll(t, q);
  }

  /** A head record with another id survives the splice. */
  lemma RemoveFirstWithIdCons<T>(h: T, t: seq<T>, key: T -> string, id: string)
    requires key(h) != id
    ensures RemoveFirstWithId([h] + t, key, id) == [h] + RemoveFirstWithId(t, key, id)
  {
    IndexOfCons(h, t, key, id);
    var k := IndexOf(t, key, id);
    if k == -1 {
      assert RemoveFirstWithId(t, key, id) == t;
      assert RemoveFirstWithId([h] + t, key, id) == [h] + t;
    } else {
      assert IndexOf([h] + t, key, id) == k + 1;
      assert RemoveFirstWithId(t, key, id) == RemoveAt(t, k);
      assert RemoveFirstWithId([h] + t, key, id) == RemoveAt([h] + t, k + 1);
      RemoveAtCons(h, t, k);
    }
  }

  /** Splicing past the head of `[h] + t` is splicing `t` one position earlier. */
  lemma RemoveAtCons<T>(h: T, t: seq<T>, k: nat)
    requires k < |t|
    ensures RemoveAt([h] + t, k + 1) == [h] + RemoveAt(t, k)
  {
    var s := [h] + t;
    assert s[..k + 1] == [h] + t[..k];
    assert s[k + 2..] == t[k + 1..];
  }

  /** A head record with another id is kept by the splice and by the filter alike. */
  lemma RemoveFirstPastHead<T(!new)>(h: T, t: seq<T>, key: T -> string, id: string, q: T -> bool)
    requires key(h) != id
    requires forall x :: q(x) == (key(x) != id)
    requires RemoveFirstWithId(t, key, id) == Filter(t, q)
    ensures RemoveFirstWithId([h] + t, key, id) == Filter([h] + t, q)
  {
    var s := [h] + t;
    assert s[1..] == t;
    assert q(h);
    assert Filter(s, q) == [h] + Filter(t, q);
    RemoveFirstWithIdCons(h, t, key, id);
  }
}
