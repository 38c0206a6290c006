/** The search cache (sdk/src/retrieval.rs): a map with a queue of its keys, least recently used first. */
module Caching {
  import opened Results
  import opened Sequences

  // ---------------------------------------------------------------------------
  // Most recently touched keys
  // ---------------------------------------------------------------------------

  function Without<T(==)>(s: seq<T>, x: T): seq<T> {
    if s == [] then []
    else if s[|s| - 1] == x then Without(s[..|s| - 1], x)
    else Without(s[..|s| - 1], x) + [s[|s| - 1]]
  }

  /** The distinct keys of a list of touches, the last touched last. */
  ghost function Distinct(touches: seq<string>): seq<string> {
    if touches == [] then []
    else Without(Distinct(touches[..|touches| - 1]), touches[|touches| - 1]) + [touches[|touches| - 1]]
  }

  /** The last `n` elements, or all of them. */
  ghost function Last<T>(s: seq<T>, n: nat): seq<T> {
    if |s| <= n then s else s[|s| - n..]
  }

  lemma {:induction false} WithoutContents<T>(s: seq<T>, x: T)
    ensures forall y :: y in Without(s, x) <==> y in s && y != x
    ensures x !in s ==> Without(s, x) == s
  {
    if s != [] {
      WithoutContents(s[..|s| - 1], x);
      assert s == s[..|s| - 1] + [s[|s| - 1]];
    }
  }

  lemma {:induction false} WithoutNoDup<T>(s: seq<T>, x: T)
    requires NoDup(s)
    ensures NoDup(Without(s, x)) && (x in s ==> |Without(s, x)| == |s| - 1)
  {
    hide NoDup;
    if s != [] {
      var front, last := s[..|s| - 1], s[|s| - 1];
      assert s == front + [last];
      NoDupSnoc(front, last);
      WithoutNoDup(front, x);
      WithoutContents(front, x);
      NoDupSnoc(Without(front, x), last);
    }
  }

  lemma {:induction false} WithoutConcat<T>(a: seq<T>, b: seq<T>, x: T)
    ensures Without(a + b, x) == Without(a, x) + Without(b, x)
  {
    if b == [] {
      assert a + b == a;
    } else {
      WithoutConcat(a, b[..|b| - 1], x);
      assert (a + b)[..|a + b| - 1] == a + b[..|b| - 1];
    }
  }

  lemma {:induction false} DistinctContents(touches: seq<string>)
    ensures NoDup(Distinct(touches)) && forall k :: k in Distinct(touches) <==> k in touches
  {
    hide NoDup;
    if touches == [] {
      NoDupNothing();
    } else {
      var front, k := touches[..|touches| - 1], touches[|touches| - 1];
      DistinctContents(front);
      WithoutContents(Distinct(front), k);
      WithoutNoDup(Distinct(front), k);
      NoDupSnoc(Without(Distinct(front), k), k);
      assert touches == front + [k];
    }
  }

  lemma NoDupNothing()
    ensures NoDup<string>([])
  {
  }

  /** The keys of `s` that are not among `late`. */
  ghost function Except(s: seq<string>, late: seq<string>): seq<string> {
    if late == [] then s else Without(Except(s, late[..|late| - 1]), late[|late| - 1])
  }

  lemma {:induction false} ExceptSnoc(s: seq<string>, k: string, late: seq<string>)
    requires k !in late
    ensures Except(s + [k], late) == Except(s, late) + [k]
  {
    if late != [] {
      ExceptSnoc(s, k, late[..|late| - 1]);
      WithoutConcat(Except(s, late[..|late| - 1]), [k], late[|late| - 1]);
      assert [k][..0] == [];
    }
  }

  lemma DistinctSnoc(touches: seq<string>, k: string)
    ensures Distinct(touches + [k]) == Without(Distinct(touches), k) + [k]
  {
    assert (touches + [k])[..|touches|] == touches;
  }

  lemma ExceptGrows(s: seq<string>, late: seq<string>, k: string)
    ensures Except(s, late + [k]) == Without(Except(s, late), k)
  {
    assert (late + [k])[..|late|] == late;
  }

  /** Later touches come last; earlier ones only count for keys that were not touched again. */
  lemma {:induction false} DistinctConcat(a: seq<string>, b: seq<string>)
    ensures Distinct(a + b) == Except(Distinct(a), b) + Distinct(b)
  {
    if b == [] {
      assert a + b == a;
    } else {
      hide Distinct, Except, Without;
      var front, k := b[..|b| - 1], b[|b| - 1];
      DistinctConcat(a, front);
      assert a + b == (a + front) + [k] && b == front + [k];
      DistinctSnoc(a + front, k);
      DistinctSnoc(front, k);
      ExceptGrows(Distinct(a), front, k);
      WithoutConcat(Except(Distinct(a), front), Distinct(front), k);
    }
  }

  lemma DistinctLength(touches: seq<string>)
    ensures |Distinct(touches)| == |Elems(touches)|
  {
    DistinctContents(touches);
    ElemsCardinality(Distinct(touches));
    assert Elems(Distinct(touches)) == Elems(touches);
  }

  /** A key that is not touched again stands before exactly the keys touched after it. */
  lemma AfterLastTouch(touches: seq<string>, i: nat) returns (earlier: seq<string>)
    requires i < |touches| && touches[i] !in touches[i + 1..]
    ensures Distinct(touches) == earlier + [touches[i]] + Distinct(touches[i + 1..])
  {
    hide Distinct, Except, Without;
    var k, before, after := touches[i], touches[..i], touches[i + 1..];
    assert touches == (before + [k]) + after;
    DistinctConcat(before + [k], after);
    DistinctSnoc(before, k);
    ExceptSnoc(Without(Distinct(before), k), k, after);
    earlier := Except(Without(Distinct(before), k), after);
  }

  /** What the queue means: a key is among the `n` most recently touched exactly when fewer than `n` distinct keys
      were touched after its last touch. */
  lemma RecentMeans(touches: seq<string>, n: nat, i: nat)
    requires i < |touches| && touches[i] !in touches[i + 1..]
    ensures touches[i] in Last(Distinct(touches), n) <==> |Elems(touches[i + 1..])| < n
  {
    hide Distinct, Last, Elems;
    var earlier := AfterLastTouch(touches, i);
    DistinctLength(touches[i + 1..]);
    DistinctContents(touches[i + 1..]);
    InLast(earlier, touches[i], Distinct(touches[i + 1..]), n);
  }

  lemma LastOfConcat<T>(a: seq<T>, b: seq<T>, n: nat)
    requires |b| >= n
    ensures Last(a + b, n) == Last(b, n)
  {
  }

  lemma InLast(a: seq<string>, k: string, b: seq<string>, n: nat)
    requires k !in b
    ensures k in Last(a + [k] + b, n) <==> |b| < n
  {
    var d := a + [k] + b;
    assert d[|a|] == k;
    if |b| >= n {
      LastOfConcat(a + [k], b, n);
    } else if |d| > n {
      assert d[|d| - n..][|a| - (|d| - n)] == k;
    }
  }

  /** Touching a key moves the window: its key goes last, and at most one key drops out in front. */
  lemma TouchedWindow(touches: seq<string>, k: string, n: nat)
    requires n > 0
    ensures var w := Last(Distinct(touches), n);
            Last(Distinct(touches + [k]), n) == Last(Without(w, k) + [k], n)
  {
    hide Distinct, Without;
    var d := Distinct(touches);
    DistinctSnoc(touches, k);
    if |d| > n {
      var early, w := d[..|d| - n], d[|d| - n..];
      assert d == early + w;
      WindowNoDup(touches, n);
      WithoutConcat(early, w, k);
      WithoutNoDup(w, k);
      WithoutContents(w, k);
      assert Without(early, k) + Without(w, k) + [k] == Without(early, k) + (Without(w, k) + [k]);
      LastOfConcat(Without(early, k), Without(w, k) + [k], n);
    }
  }

  lemma Around<T>(s: seq<T>, pos: nat)
    requires NoDup(s) && pos < |s|
    ensures s[pos] !in s[..pos] && s[pos] !in s[pos + 1..]
  {
  }

  lemma RemovedBetween<T>(a: seq<T>, x: T, b: seq<T>)
    requires x !in a && x !in b
    ensures Without(a + [x] + b, x) == a + b
  {
    hide Without;
    WithoutConcat(a + [x], b, x);
    WithoutConcat(a, [x], x);
    WithoutOnly(x);
    WithoutContents(a, x);
    WithoutContents(b, x);
    assert a + [] == a;
  }

  lemma WithoutOnly<T>(x: T)
    ensures Without([x], x) == []
  {
    assert [x][..0] == [];
  }

  lemma WindowNoDup(touches: seq<string>, n: nat)
    ensures NoDup(Last(Distinct(touches), n)) && |Last(Distinct(touches), n)| <= n
    ensures forall k :: k in Last(Distinct(touches), n) ==> k in touches
  {
    DistinctContents(touches);
    var d := Distinct(touches);
    if |d| > n {
      var w := d[|d| - n..];
      assert forall i {:trigger w[i]} :: 0 <= i < n ==> w[i] == d[|d| - n + i];
    }
  }

  /** Moving a key to the back keeps the queue's length. */
  lemma TouchInside(s: seq<string>, k: string, n: nat)
    requires NoDup(s) && |s| <= n && k in s
    ensures Last(Without(s, k) + [k], n) == Without(s, k) + [k]
  {
    WithoutNoDup(s, k);
  }

  lemma DropFirst<T>(s: seq<T>)
    requires NoDup(s) && s != []
    ensures NoDup(s[1..]) && s[0] !in s[1..] && forall x :: x in s[1..] <==> x in s && x != s[0]
  {
    assert s == [s[0]] + s[1..];
  }

  lemma DropMore<T>(s: seq<T>, n: nat)
    requires n < |s|
    ensures s[n..][1..] == s[n + 1..] && |s[n..]| == |s| - n
  {
  }

  lemma LastIsDrop<T>(s: seq<T>, dropped: nat, n: nat)
    requires dropped <= |s| && |s| - dropped <= n && (dropped > 0 ==> |s| - dropped >= n)
    ensures Last(s, n) == s[dropped..]
  {
  }

  // ---------------------------------------------------------------------------
  // The cache
  // ---------------------------------------------------------------------------

  class SearchCache<V> {
    const capacity: nat
    var entries: map<string, V>
    var order: seq<string>
    /** Every key ever put or found, in time order, and the last value put under each key. */
    ghost var touches: seq<string>
    ghost var latest: map<string, V>

    ghost predicate Valid()
      reads this
    {
      && capacity > 0
      && order == Last(Distinct(touches), capacity)
      && (forall k :: k in touches ==> k in latest)
      && (forall k :: k in entries <==> k in order)
      && (forall k :: k in entries ==> k in latest && entries[k] == latest[k])
    }

    constructor (capacity: nat)
      ensures Valid() && this.capacity == (if capacity == 0 then 1 else capacity)
      ensures touches == [] && latest == map[] && entries == map[]
    {
      this.capacity := if capacity == 0 then 1 else capacity;
      entries, order, touches, latest := map[], [], [], map[];
    }

    /** Moves a key to the back of the queue. */
    method Touch(query: string)
      requires NoDup(order)
      modifies this`order
      ensures order == Without(old(order), query) + [query]
    {
      var pos := 0;
      while pos < |order| && order[pos] != query
        invariant pos <= |order| && query !in order[..pos] && order == old(order)
      {
        pos := pos + 1;
      }
      if pos < |order| {
        Around(order, pos);
        RemovedBetween(order[..pos], query, order[pos + 1..]);
        assert order == order[..pos] + [query] + order[pos + 1..];
        order := order[..pos] + order[pos + 1..];
      } else {
        assert order[..pos] == order;
        WithoutContents(order, query);
      }
      order := order + [query];
    }

    /** A hit answers with the value put last, and counts as a use. */
    method Get(query: string) returns (r: Option<V>)
      requires Valid()
      modifies this`order, this`touches
      ensures Valid()
      ensures r == if query in Last(Distinct(old(touches)), capacity) then Some(latest[query]) else None
      ensures touches == old(touches) + if r.Some? then [query] else []
    {
      hide Distinct, Last, Without;
      assert query in order ==> query in latest;
      if query !in entries {
        return None;
      }
      WindowNoDup(touches, capacity);
      TouchedWindow(touches, query, capacity);
      TouchInside(order, query, capacity);
      WithoutContents(order, query);
      Touch(query);
      touches := touches + [query];
      return Some(entries[query]);
    }

    /** Stores a value as the most recent one, and drops the least recently used while there are too many. */
    method Put(query: string, hits: V)
      requires Valid()
      modifies this
      ensures Valid()
      ensures touches == old(touches) + [query] && latest == old(latest)[query := hits]
    {
      hide Distinct, Without, Last;
      WindowNoDup(touches, capacity);
      TouchedWindow(touches, query, capacity);
      WithoutContents(order, query);
      WithoutNoDup(order, query);
      NoDupSnoc(Without(order, query), query);
      entries := entries[query := hits];
      Touch(query);
      touches, latest := touches + [query], latest[query := hits];
      Evict();
    }

    /** The loop ends because the queue lists every entry, so there is always something to drop. */
    method Evict()
      requires capacity > 0 && Linked(entries, order)
      modifies this`entries, this`order
      ensures order == Last(old(order), capacity) && Linked(entries, order)
      ensures forall k :: k in entries ==> k in old(entries) && entries[k] == old(entries)[k]
    {
      hide Linked, Last;
      LinkedCount(entries, order);
      ghost var dropped := 0;
      while |entries| > capacity
        invariant dropped <= |old(order)| && order == old(order)[dropped..] && (dropped > 0 ==> |order| >= capacity)
        invariant Linked(entries, order) && |order| == |entries|
        invariant forall k :: k in entries ==> k in old(entries) && entries[k] == old(entries)[k]
        decreases |order|
      {
        if order != [] {
          var evicted := order[0];
          Unlink(entries, order);
          DropMore(old(order), dropped);
          entries, order, dropped := entries - {evicted}, order[1..], dropped + 1;
          LinkedCount(entries, order);
        }
      }
      LastIsDrop(old(order), dropped, capacity);
    }
  }

  /** The queue lists the keys of the map, each once. */
  ghost predicate Linked<V>(entries: map<string, V>, order: seq<string>) {
    NoDup(order) && forall k :: k in entries <==> k in order
  }

  lemma LinkedCount<V>(entries: map<string, V>, order: seq<string>)
    requires Linked(entries, order)
    ensures |entries| == |order|
  {
    ElemsCardinality(order);
    assert entries.Keys == Elems(order);
  }

  lemma Unlink<V>(entries: map<string, V>, order: seq<string>)
    requires Linked(entries, order) && order != []
    ensures Linked(entries - {order[0]}, order[1..])
  {
    DropFirst(order);
  }
}
