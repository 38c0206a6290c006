/** The order in which text is sorted, and what sorting leaves open. */
module Ordering {
  import opened Sequences

  // ---------------------------------------------------------------------------
  // Text
  // ---------------------------------------------------------------------------

  /** Character by character, a prefix first. */
  predicate AtMost(a: string, b: string) {
    a == "" || (b != "" && (a[0] < b[0] || (a[0] == b[0] && AtMost(a[1..], b[1..]))))
  }

  lemma {:induction false} AtMostTotal(a: string, b: string)
    ensures AtMost(a, b) || AtMost(b, a)
  {
    if a != "" && b != "" {
      AtMostTotal(a[1..], b[1..]);
    }
  }

  lemma {:induction false} AtMostAntisymmetric(a: string, b: string)
    requires AtMost(a, b) && AtMost(b, a)
    ensures a == b
  {
    if a != "" {
      AtMostAntisymmetric(a[1..], b[1..]);
      assert a == [a[0]] + a[1..] && b == [b[0]] + b[1..];
    }
  }

  lemma {:induction false} AtMostTransitive(a: string, b: string, c: string)
    requires AtMost(a, b) && AtMost(b, c)
    ensures AtMost(a, c)
  {
    if a != "" && a[0] == b[0] == c[0] {
      AtMostTransitive(a[1..], b[1..], c[1..]);
    }
  }

  /** Where two texts differ first decides; a prefix goes first. */
  lemma {:induction false} FirstDifferenceDecides(same: string, a: string, b: string)
    ensures AtMost(same + a, same + b) <==> AtMost(a, b)
    ensures a != "" && b != "" && a[0] != b[0] ==> (AtMost(a, b) <==> a[0] < b[0])
    ensures AtMost("", b) && (a != "" ==> !AtMost(a, ""))
  {
    if same == "" {
      assert same + a == a && same + b == b;
    } else {
      FirstDifferenceDecides(same[1..], a, b);
      assert (same + a)[1..] == same[1..] + a && (same + b)[1..] == same[1..] + b;
    }
  }

  /** Every set of texts has a least one. */
  lemma {:induction false} SomeLeast(todo: set<string>)
    requires todo != {}
    ensures exists x :: x in todo && forall y :: y in todo ==> AtMost(x, y)
  {
    var x :| x in todo;
    AtMostTotal(x, x);
    if todo != {x} {
      var rest := todo - {x};
      assert todo == rest + {x};
      SomeLeast(rest);
      var least :| least in rest && forall y :: y in rest ==> AtMost(least, y);
      AtMostTotal(x, least);
      if AtMost(x, least) {
        forall y | y in todo
          ensures AtMost(x, y)
        {
          if y != x {
            AtMostTransitive(x, least, y);
          }
        }
      } else {
        assert least in todo && forall y :: y in todo ==> AtMost(least, y);
      }
    }
  }

  // ---------------------------------------------------------------------------
  // Sorting by a key that different elements may share
  // ---------------------------------------------------------------------------

  type Order<!T> = (T, T) -> bool

  ghost predicate TotalPreorder<T(!new)>(le: Order<T>) {
    && (forall x, y :: le(x, y) || le(y, x))
    && (forall x, y, z :: le(x, y) && le(y, z) ==> le(x, z))
  }

  ghost predicate Sorted<T>(le: Order<T>, s: seq<T>) {
    forall i, j :: 0 <= i < j < |s| ==> le(s[i], s[j])
  }

  /** Elements that may stand in either order. */
  predicate Tied<T>(le: Order<T>, x: T, y: T) {
    le(x, y) && le(y, x)
  }

  /** Puts an element behind everything it may stand behind. */
  function Placed<T(!new)>(le: Order<T>, s: seq<T>, x: T): (r: seq<T>)
    requires TotalPreorder(le) && Sorted(le, s)
    ensures Sorted(le, r) && multiset(r) == multiset(s) + multiset{x}
  {
    if s == [] then [x]
    else
      var front, last := s[..|s| - 1], s[|s| - 1];
      FrontSorted(le, s);
      if le(last, x) then
        SortedSnoc(le, s, x);
        s + [x]
      else
        var r := Placed(le, front, x);
        SortedSnoc(le, r, last);
        r + [last]
  }

  lemma FrontSorted<T(!new)>(le: Order<T>, s: seq<T>)
    requires Sorted(le, s) && s != []
    ensures var n := |s| - 1;
            && Sorted(le, s[..n]) && s == s[..n] + [s[n]]
            && forall y :: y in multiset(s[..n]) ==> le(y, s[n])
  {
  }

  lemma SortedSnoc<T(!new)>(le: Order<T>, s: seq<T>, x: T)
    requires TotalPreorder(le) && Sorted(le, s)
    requires (s != [] && le(s[|s| - 1], x)) || forall y :: y in multiset(s) ==> le(y, x)
    ensures Sorted(le, s + [x])
  {
    forall i | 0 <= i < |s|
      ensures le(s[i], x)
    {
      if i < |s| - 1 {
        assert le(s[i], s[|s| - 1]);
      }
      assert s[i] in multiset(s);
    }
  }

  function SortBy<T(!new)>(le: Order<T>, s: seq<T>): (r: seq<T>)
    requires TotalPreorder(le)
    ensures Sorted(le, r) && multiset(r) == multiset(s)
  {
    if s == [] then [] else
      assert s == s[..|s| - 1] + [s[|s| - 1]];
      Placed(le, SortBy(le, s[..|s| - 1]), s[|s| - 1])
  }

  lemma WithoutOne<T>(le: Order<T>, s: seq<T>, i: nat)
    requires i < |s| && Sorted(le, s)
    ensures var rest := s[..i] + s[i + 1..];
            Sorted(le, rest) && multiset(rest) == multiset(s) - multiset{s[i]}
  {
    BagWithout(s, i);
  }

  lemma LastIsLargest<T(!new)>(le: Order<T>, s: seq<T>, x: T)
    requires TotalPreorder(le) && Sorted(le, s) && x in multiset(s)
    ensures le(x, s[|s| - 1])
  {
    var i :| 0 <= i < |s| && s[i] == x;
  }

  /** From where the last element of `a` stands in `b`, all of `b` is tied with it. */
  lemma TailIsTied<T(!new)>(le: Order<T>, a: seq<T>, b: seq<T>, i: nat, j: nat)
    requires TotalPreorder(le) && Sorted(le, a) && Sorted(le, b) && multiset(a) == multiset(b)
    requires a != [] && i <= j < |b| && b[i] == a[|a| - 1]
    ensures Tied(le, a[|a| - 1], b[j])
  {
    assert b[j] in multiset(a);
    LastIsLargest(le, a, b[j]);
  }

  lemma TiedThrough<T(!new)>(le: Order<T>, w: T, x: T, y: T, z: T)
    requires TotalPreorder(le) && Tied(le, w, x) && Tied(le, y, x) && Tied(le, y, z)
    ensures Tied(le, w, z)
  {
  }

  /** Two ways of sorting the same elements differ only in the order of tied ones. */
  lemma {:induction false} SortedAgree<T(!new)>(le: Order<T>, a: seq<T>, b: seq<T>)
    requires TotalPreorder(le) && Sorted(le, a) && Sorted(le, b) && multiset(a) == multiset(b)
    ensures |a| == |b| && forall j :: 0 <= j < |a| ==> Tied(le, a[j], b[j])
  {
    hide Sorted, Tied, TotalPreorder;
    assert |multiset(a)| == |multiset(b)|;
    if a != [] {
      var m := |a| - 1;
      assert a[m] in multiset(b);
      var i :| 0 <= i < |b| && b[i] == a[m];
      var rest := b[..i] + b[i + 1..];
      WithoutOne(le, a, m);
      assert a[..m] + a[m + 1..] == a[..m];
      WithoutOne(le, b, i);
      SortedAgree(le, a[..m], rest);
      forall j | 0 <= j <= m
        ensures Tied(le, a[j], b[j])
      {
        if j < m {
          assert Tied(le, a[..m][j], rest[j]);
        }
        if i <= j {
          TailIsTied(le, a, b, i, j);
          if j < m {
            TailIsTied(le, a, b, i, j + 1);
            TiedThrough(le, a[j], b[j + 1], a[m], b[j]);
          }
        }
      }
    }
  }

  // ---------------------------------------------------------------------------
  // The first of the sorted
  // ---------------------------------------------------------------------------

  /** How many elements come before `x`, whichever way ties are broken. */
  ghost function Ahead<T>(le: Order<T>, s: seq<T>, x: T): nat {
    if s == [] then 0
    else Ahead(le, s[..|s| - 1], x) + if le(x, s[|s| - 1]) then 0 else 1
  }

  lemma {:induction false} AheadConcat<T>(le: Order<T>, a: seq<T>, b: seq<T>, x: T)
    ensures Ahead(le, a + b, x) == Ahead(le, a, x) + Ahead(le, b, x)
  {
    if b == [] {
      assert a + b == a;
    } else {
      var n := |b| - 1;
      assert (a + b)[..|a + b| - 1] == a + b[..n];
      AheadConcat(le, a, b[..n], x);
    }
  }

  lemma {:induction false} AheadOfBag<T>(le: Order<T>, a: seq<T>, b: seq<T>, x: T)
    requires multiset(a) == multiset(b)
    ensures Ahead(le, a, x) == Ahead(le, b, x)
  {
    hide Ahead;
    assert |multiset(a)| == |multiset(b)|;
    if a == [] {
      assert b == a;
    } else {
      var m := |a| - 1;
      assert a[m] in multiset(b);
      var i :| 0 <= i < |b| && b[i] == a[m];
      BagWithout(a, m);
      BagWithout(b, i);
      AheadWithout(le, a, m, x);
      AheadWithout(le, b, i, x);
      assert a[..m] + a[m + 1..] == a[..m];
      AheadOfBag(le, a[..m], b[..i] + b[i + 1..], x);
    }
  }

  lemma AheadWithout<T>(le: Order<T>, s: seq<T>, i: nat, x: T)
    requires i < |s|
    ensures Ahead(le, s, x) == Ahead(le, s[..i] + s[i + 1..], x) + if le(x, s[i]) then 0 else 1
  {
    assert [s[i]][..0] == [];
    assert Ahead(le, [s[i]], x) == if le(x, s[i]) then 0 else 1;
    hide Ahead;
    assert s == s[..i] + [s[i]] + s[i + 1..];
    AheadConcat(le, s[..i] + [s[i]], s[i + 1..], x);
    AheadConcat(le, s[..i], [s[i]], x);
    AheadConcat(le, s[..i], s[i + 1..], x);
  }

  lemma {:induction false} AheadBounded<T>(le: Order<T>, s: seq<T>, x: T)
    ensures Ahead(le, s, x) <= |s|
    ensures (forall i :: 0 <= i < |s| ==> le(x, s[i])) ==> Ahead(le, s, x) == 0
  {
    if s != [] {
      AheadBounded(le, s[..|s| - 1], x);
    }
  }

  /** In a sorted list the elements before `x` come first, and `x` itself stands behind them. */
  lemma {:induction false} AheadComeFirst<T(!new)>(le: Order<T>, s: seq<T>, x: T, p: nat)
    requires TotalPreorder(le) && Sorted(le, s) && p < |s|
    ensures p < Ahead(le, s, x) <==> !le(x, s[p])
    decreases |s|
  {
    var n := |s| - 1;
    AheadBounded(le, s[..n], x);
    if le(x, s[n]) {
      if p < n {
        AheadComeFirst(le, s[..n], x, p);
      }
    } else {
      assert forall i :: 0 <= i <= n ==> !le(x, s[i]);
      AllAhead(le, s, x);
    }
  }

  lemma {:induction false} AllAhead<T>(le: Order<T>, s: seq<T>, x: T)
    requires forall i :: 0 <= i < |s| ==> !le(x, s[i])
    ensures Ahead(le, s, x) == |s|
  {
    if s != [] {
      AllAhead(le, s[..|s| - 1], x);
    }
  }

  lemma {:induction false} AheadOfTied<T(!new)>(le: Order<T>, s: seq<T>, x: T, y: T)
    requires TotalPreorder(le) && Tied(le, x, y)
    ensures Ahead(le, s, x) == Ahead(le, s, y)
  {
    if s != [] {
      AheadOfTied(le, s[..|s| - 1], x, y);
    }
  }

  // ---------------------------------------------------------------------------
  // Stability
  // ---------------------------------------------------------------------------

  /** Where an element is placed: behind those it may stand behind, before all others. */
  lemma {:induction false} PlacedAt<T(!new)>(le: Order<T>, s: seq<T>, x: T) returns (p: nat)
    requires TotalPreorder(le) && Sorted(le, s)
    ensures p <= |s| && Placed(le, s, x) == s[..p] + [x] + s[p..]
    ensures forall i :: 0 <= i < |s| ==> (le(s[i], x) <==> i < p)
  {
    hide TotalPreorder, Sorted, Placed;
    PlacedNext(le, s, x);
    p := |s|;
    if s != [] {
      var front, last := s[..|s| - 1], s[|s| - 1];
      FrontSorted(le, s);
      if le(last, x) {
        AllThrough(le, s, x);
      } else {
        p := PlacedAt(le, front, x);
        PutInFront(front, last, p, x);
        forall i | 0 <= i < |s|
          ensures le(s[i], x) <==> i < p
        {
          assert i < |front| ==> s[i] == front[i];
        }
      }
    }
  }

  lemma PutInFront<T>(front: seq<T>, last: T, p: nat, x: T)
    requires p <= |front|
    ensures var s := front + [last]; front[..p] + [x] + front[p..] + [last] == s[..p] + [x] + s[p..]
  {
  }

  lemma PlacedNext<T(!new)>(le: Order<T>, s: seq<T>, x: T)
    requires TotalPreorder(le) && Sorted(le, s)
    ensures s == [] || le(s[|s| - 1], x) ==> Placed(le, s, x) == s[..|s|] + [x] + s[|s|..]
    ensures s != [] && !le(s[|s| - 1], x) ==>
              && Sorted(le, s[..|s| - 1])
              && Placed(le, s, x) == Placed(le, s[..|s| - 1], x) + [s[|s| - 1]]
  {
    assert s[..|s|] == s && s[|s|..] == [];
  }

  lemma AllThrough<T(!new)>(le: Order<T>, s: seq<T>, x: T)
    requires TotalPreorder(le) && Sorted(le, s) && s != [] && le(s[|s| - 1], x)
    ensures forall i :: 0 <= i < |s| ==> le(s[i], x)
  {
  }

  /** Sorting is stable: `x` comes out before `y` if the order says so, or leaves it open and `x` went in first. */
  lemma {:induction false} SortIsStable<T(!new)>(le: Order<T>, s: seq<T>, x: T, y: T)
    requires TotalPreorder(le) && NoDup(s) && x in s && y in s && x != y
    ensures ComesBefore(SortBy(le, s), x, y) <==> le(x, y) && (le(y, x) ==> ComesBefore(s, x, y))
  {
    var front, z := s[..|s| - 1], s[|s| - 1];
    assert s == front + [z];
    NoDupSnoc(front, z);
    var t := SortBy(le, front);
    SameElements(t, front);
    var p := PlacedAt(le, t, z);
    hide NoDup, ComesBefore, Sorted, TotalPreorder;
    ComesBeforeSnoc(front, z, x, y);
    if x != z && y != z {
      SortIsStable(le, front, x, y);
      InsertKeepsBefore(t, p, z, x, y);
    } else if y == z {
      NotYet(front, x, y);
      InsertBefore(le, t, p, z, x);
      Totally(le, x, y);
    } else {
      NotYetFirst(front, x, y);
      InsertBehind(le, t, p, z, y);
      Totally(le, x, y);
    }
  }

  lemma Totally<T(!new)>(le: Order<T>, x: T, y: T)
    requires TotalPreorder(le)
    ensures le(x, y) || le(y, x)
  {
  }

  lemma SameElements<T>(a: seq<T>, b: seq<T>)
    requires multiset(a) == multiset(b)
    ensures forall x :: x in a <==> x in b
  {
    assert forall x :: x in a <==> x in multiset(a);
    assert forall x :: x in b <==> x in multiset(b);
  }

  lemma NotYetFirst<T>(s: seq<T>, x: T, y: T)
    requires x !in s
    ensures !ComesBefore(s, x, y)
  {
  }

  lemma InsertKeepsBefore<T>(s: seq<T>, p: nat, z: T, x: T, y: T)
    requires p <= |s| && x != z && y != z
    ensures ComesBefore(s[..p] + [z] + s[p..], x, y) <==> ComesBefore(s, x, y)
  {
    var t := s[..p] + [z] + s[p..];
    if ComesBefore(s, x, y) {
      var i, j :| 0 <= i < j < |s| && s[i] == x && s[j] == y;
      assert t[if i < p then i else i + 1] == x && t[if j < p then j else j + 1] == y;
    }
    if ComesBefore(t, x, y) {
      var i, j :| 0 <= i < j < |t| && t[i] == x && t[j] == y;
      assert s[if i < p then i else i - 1] == x && s[if j < p then j else j - 1] == y;
    }
  }

  lemma OnlyInserted<T>(s: seq<T>, p: nat, z: T)
    requires p <= |s| && z !in s
    ensures var t := s[..p] + [z] + s[p..]; forall i :: 0 <= i < |t| && t[i] == z ==> i == p
  {
    var t := s[..p] + [z] + s[p..];
    forall i | 0 <= i < |t| && i != p
      ensures t[i] in s
    {
      assert t[i] == s[if i < p then i else i - 1];
    }
  }

  lemma InsertBefore<T>(le: Order<T>, s: seq<T>, p: nat, z: T, x: T)
    requires p <= |s| && x in s && z !in s
    requires forall i :: 0 <= i < |s| ==> (le(s[i], z) <==> i < p)
    ensures ComesBefore(s[..p] + [z] + s[p..], x, z) <==> le(x, z)
  {
    var t := s[..p] + [z] + s[p..];
    var k :| 0 <= k < |s| && s[k] == x;
    if le(x, z) {
      assert t[k] == x && t[p] == z;
    }
    if ComesBefore(t, x, z) {
      var i, j :| 0 <= i < j < |t| && t[i] == x && t[j] == z;
      OnlyInserted(s, p, z);
      assert s[i] == x;
    }
  }

  lemma InsertBehind<T>(le: Order<T>, s: seq<T>, p: nat, z: T, y: T)
    requires p <= |s| && y in s && z !in s
    requires forall i :: 0 <= i < |s| ==> (le(s[i], z) <==> i < p)
    ensures ComesBefore(s[..p] + [z] + s[p..], z, y) <==> !le(y, z)
  {
    var t := s[..p] + [z] + s[p..];
    var k :| 0 <= k < |s| && s[k] == y;
    if !le(y, z) {
      assert t[p] == z && t[k + 1] == y;
    }
    if ComesBefore(t, z, y) {
      var i, j :| 0 <= i < j < |t| && t[i] == z && t[j] == y;
      OnlyInserted(s, p, z);
      assert s[j - 1] == y;
    }
  }

  /** What goes in first is the first of those tied with it. */
  lemma FirstStaysFirst<T(!new)>(le: Order<T>, s: seq<T>)
    requires TotalPreorder(le) && NoDup(s) && s != []
    ensures var r := SortBy(le, s); Ahead(le, s, s[0]) < |r| && r[Ahead(le, s, s[0])] == s[0]
  {
    hide Ahead, SortBy, NoDup, ComesBefore, Sorted, TotalPreorder;
    var x, r := s[0], SortBy(le, s);
    var p := Ahead(le, s, x);
    assert |multiset(r)| == |multiset(s)|;
    SameElements(r, s);
    assert x in s;
    AheadOfBag(le, r, s, x);
    var i :| 0 <= i < |r| && r[i] == x;
    Totally(le, x, x);
    AheadComeFirst(le, r, x, i);
    AheadComeFirst(le, r, x, p);
    if r[p] != x {
      assert r[p] in s;
      IsBefore(r, p, i);
      SortIsStable(le, s, r[p], x);
      NothingBeforeFirst(s, r[p]);
    }
  }

  lemma IsBefore<T>(s: seq<T>, i: nat, j: nat)
    requires i < j < |s|
    ensures ComesBefore(s, s[i], s[j])
  {
  }

  lemma NothingBeforeFirst<T>(s: seq<T>, y: T)
    requires NoDup(s) && s != []
    ensures !ComesBefore(s, y, s[0])
  {
  }
}
