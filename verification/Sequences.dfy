/** Duplicate-free sequences of indices: the counting facts behind several loops. */
module Sequences {

  ghost predicate NoDup<T>(s: seq<T>) {
    forall i, j :: 0 <= i < j < |s| ==> s[i] != s[j]
  }

  ghost function Elems<T>(s: seq<T>): set<T> {
    set x | x in s
  }

  lemma {:induction false} ElemsCardinality<T>(s: seq<T>)
    requires NoDup(s)
    ensures |Elems(s)| == |s|
  {
    if s == [] {
    } else {
      ElemsCardinality(s[1..]);
      assert Elems(s) == {s[0]} + Elems(s[1..]);
    }
  }

  ghost function Below(n: nat): (r: set<nat>)
    ensures |r| == n
    ensures forall x: int :: x in r <==> 0 <= x < n
  {
    if n == 0 then {} else Below(n - 1) + {n - 1}
  }

  /** A duplicate-free sequence drawn from a finite set is no longer than the set. */
  lemma NoDupFitsIn<T>(s: seq<T>, within: set<T>)
    requires NoDup(s)
    requires forall x :: x in s ==> x in within
    ensures |s| <= |within|
    ensures |s| == |within| ==> Elems(s) == within
  {
    ElemsCardinality(s);
    SubsetCardinality(Elems(s), within);
  }

  lemma {:induction false} SubsetCardinality<T>(a: set<T>, b: set<T>)
    requires a <= b
    ensures |a| <= |b|
    ensures |a| == |b| ==> a == b
  {
    if a == {} {
    } else {
      var x :| x in a;
      SubsetCardinality(a - {x}, b - {x});
    }
  }

  /** Pigeonhole: more entries than possible values means two entries agree. */
  lemma Pigeonhole<T>(s: seq<T>, within: set<T>) returns (i: nat, j: nat)
    requires forall x :: x in s ==> x in within
    requires |s| > |within|
    ensures i < j < |s| && s[i] == s[j]
  {
    if NoDup(s) {
      NoDupFitsIn(s, within);
    }
    i, j :| 0 <= i < j < |s| && s[i] == s[j];
  }

  /** A repeated element makes the set of elements smaller than the sequence. */
  lemma {:induction false} RepeatShrinks<T>(s: seq<T>)
    ensures |Elems(s)| <= |s|
    ensures !NoDup(s) ==> |Elems(s)| < |s|
  {
    if s == [] {
    } else {
      RepeatShrinks(s[1..]);
      assert Elems(s) == {s[0]} + Elems(s[1..]);
      if !NoDup(s) && NoDup(s[1..]) {
        assert s[0] in s[1..];
        assert Elems(s) == Elems(s[1..]);
      }
    }
  }

  lemma NoDupSnoc<T>(front: seq<T>, x: T)
    ensures NoDup(front + [x]) <==> NoDup(front) && x !in front
  {
    var s := front + [x];
    assert forall i :: 0 <= i < |front| ==> s[i] == front[i];
    if NoDup(s) {
      assert forall i :: 0 <= i < |front| ==> s[i] != s[|front|];
    }
  }

  lemma TakeSnoc<T>(s: seq<T>, i: nat)
    requires i < |s|
    ensures s[..i + 1] == s[..i] + [s[i]]
  {
  }

  lemma BagWithout<T>(s: seq<T>, i: nat)
    requires i < |s|
    ensures multiset(s[..i] + s[i + 1..]) == multiset(s) - multiset{s[i]}
  {
    assert s == s[..i] + [s[i]] + s[i + 1..];
  }

  // ---------------------------------------------------------------------------
  // First occurrences
  // ---------------------------------------------------------------------------

  /** Each element where it comes first. */
  function Firsts<T(==)>(s: seq<T>): seq<T> {
    if s == [] then []
    else
      var front, last := s[..|s| - 1], s[|s| - 1];
      Firsts(front) + if last in front then [] else [last]
  }

  lemma FirstsSnoc<T>(s: seq<T>, x: T)
    ensures Firsts(s + [x]) == Firsts(s) + if x in s then [] else [x]
  {
    assert (s + [x])[..|s|] == s;
  }

  lemma {:induction false} FirstsFacts<T>(s: seq<T>)
    ensures NoDup(Firsts(s))
    ensures forall x :: x in Firsts(s) <==> x in s
  {
    if s != [] {
      var front, last := s[..|s| - 1], s[|s| - 1];
      FirstsFacts(front);
      assert s == front + [last];
      NoDupSnoc(Firsts(front), last);
      hide NoDup;
    }
  }

  lemma {:induction false} FirstsConcat<T>(a: seq<T>, b: seq<T>)
    ensures Firsts(a + Firsts(b)) == Firsts(a + b)
  {
    hide Firsts, NoDup;
    if b == [] {
      NoFirsts<T>();
      assert a + [] == a;
    } else {
      var front, last := b[..|b| - 1], b[|b| - 1];
      FirstsConcat(a, front);
      FirstsFacts(front);
      assert b == front + [last];
      FirstsSnoc(front, last);
      FirstsSnoc(a + front, last);
      FirstsSnoc(a + Firsts(front), last);
      assert a + b == (a + front) + [last];
      if last in front {
        assert Firsts(b) == Firsts(front);
      } else {
        assert a + Firsts(b) == (a + Firsts(front)) + [last];
      }
    }
  }

  lemma NoFirsts<T>()
    ensures Firsts<T>([]) == []
  {
  }

  ghost predicate ComesBefore<T>(s: seq<T>, x: T, y: T) {
    exists i, j :: 0 <= i < j < |s| && s[i] == x && s[j] == y
  }

  /** `x` occurs, and `y` does not occur before it. */
  ghost predicate OccursFirst<T>(s: seq<T>, x: T, y: T) {
    exists i :: 0 <= i < |s| && s[i] == x && y !in s[..i]
  }

  lemma ComesBeforeSnoc<T>(s: seq<T>, z: T, x: T, y: T)
    ensures ComesBefore(s + [z], x, y) <==> ComesBefore(s, x, y) || (z == y && x in s)
  {
    var t := s + [z];
    if ComesBefore(s, x, y) {
      var i, j :| 0 <= i < j < |s| && s[i] == x && s[j] == y;
      assert t[i] == x && t[j] == y;
    }
    if z == y && x in s {
      var i :| 0 <= i < |s| && s[i] == x;
      assert t[i] == x && t[|s|] == y;
    }
  }

  lemma OccursFirstSnoc<T>(s: seq<T>, z: T, x: T, y: T)
    ensures OccursFirst(s + [z], x, y) <==> OccursFirst(s, x, y) || (z == x && y !in s)
  {
    var t := s + [z];
    assert t[..|s|] == s && t[|s|] == z;
    assert forall i :: 0 <= i < |s| ==> t[i] == s[i] && t[..i] == s[..i];
  }

  /** Among first occurrences, `x` comes before `y` if it occurs first. */
  lemma {:induction false} FirstsOrder<T>(s: seq<T>, x: T, y: T)
    requires x != y && y in s
    ensures ComesBefore(Firsts(s), x, y) <==> OccursFirst(s, x, y)
  {
    hide ComesBefore, OccursFirst;
    var front, last := s[..|s| - 1], s[|s| - 1];
    assert s == front + [last];
    FirstsSnoc(front, last);
    FirstsFacts(front);
    ComesBeforeSnoc(Firsts(front), last, x, y);
    OccursFirstSnoc(front, last, x, y);
    if y in front {
      FirstsOrder(front, x, y);
      assert last in front ==> Firsts(s) == Firsts(front);
    } else {
      NotYet(Firsts(front), x, y);
      OccursIfAbsent(front, x, y);
    }
  }

  lemma NotYet<T>(s: seq<T>, x: T, y: T)
    requires y !in s
    ensures !ComesBefore(s, x, y)
  {
  }

  lemma OccursIfAbsent<T>(s: seq<T>, x: T, y: T)
    requires y !in s
    ensures OccursFirst(s, x, y) <==> x in s
  {
    if x in s {
      var i :| 0 <= i < |s| && s[i] == x;
      assert y !in s[..i];
    }
  }
}
