/** Reciprocal rank fusion (sdk/src/retrieval.rs): several ranked lists become one. No score is lost or invented, and
    results are told apart by what they are. */
module Fusion {
  import opened Results
  import opened Sequences
  import opened RealSums
  import opened Ordering

  datatype Source = Keyword | Vector | Graph | GraphHop

  /** A hit; its sources are kept sorted and without repeats, so a set says the same. */
  datatype Hit = Hit(id: Option<string>, title: string, snippet: string, score: real, sources: set<Source>)

  type Lower = string -> string

  /** What makes two hits the same item: the document's id, or the lower-cased name of a graph node. */
  function Identity(lower: Lower, hit: Hit): string {
    if hit.id.Some? then "doc:" + hit.id.value else "name:" + lower(hit.title)
  }

  lemma DocumentsAndNodesDiffer(lower: Lower, a: Hit, b: Hit)
    requires a.id.Some?
    ensures Identity(lower, a) == Identity(lower, b) <==> a.id == b.id
  {
    var x, y := Identity(lower, a), Identity(lower, b);
    if b.id.Some? {
      assert x[4..] == a.id.value && y[4..] == b.id.value;
    } else {
      assert x[0] == 'd' && y[0] == 'n';
    }
  }

  /** Graph nodes are told apart by their names, as lower-casing leaves them. */
  lemma NodesAreTheirNames(lower: Lower, a: Hit, b: Hit)
    requires a.id.None? && b.id.None?
    ensures Identity(lower, a) == Identity(lower, b) <==> lower(a.title) == lower(b.title)
  {
    assert Identity(lower, a)[5..] == lower(a.title) && Identity(lower, b)[5..] == lower(b.title);
  }

  const RRF_K: real := 60.0

  /** What a hit at a place in a list, counted from 0, is worth. */
  function Contribution(place: nat): real {
    1.0 / (RRF_K + (place + 1) as real)
  }

  /** Every place is worth something and an earlier one more: worth is the inverse of the place's number, if the first
      place has number 61. */
  lemma EarlierIsWorthMore(p: nat, q: nat)
    requires p < q
    ensures Contribution(p) > Contribution(q) > 0.0
    ensures 61.0 * Contribution(0) == 1.0 && Contribution(0) == 2.0 * Contribution(61)
    ensures Contribution(p) * (p + 61) as real == Contribution(q) * (q + 61) as real
  {
    var x, y := (p + 61) as real, (q + 61) as real;
    var u, v := Contribution(p), Contribution(q);
    assert u == 1.0 / x && v == 1.0 / y;
    assert u * x == 1.0 && v * y == 1.0;
    InverseShrinks(x, y);
  }

  lemma InverseShrinks(x: real, y: real)
    requires 0.0 < x < y
    ensures 1.0 / x > 1.0 / y > 0.0
  {
    var u, v := 1.0 / x, 1.0 / y;
    assert u * x == 1.0 && v * y == 1.0;
    assert v > 0.0;
    assert v * (y - x) > 0.0;
    assert (u - v) * x > 0.0;
  }

  // ---------------------------------------------------------------------------
  // Input
  // ---------------------------------------------------------------------------

  datatype Ranked = Ranked(worth: real, hit: Hit)

  ghost function RankedUpTo(list: seq<Hit>, n: nat): seq<Ranked>
    requires n <= |list|
  {
    if n == 0 then [] else RankedUpTo(list, n - 1) + [Ranked(Contribution(n - 1), list[n - 1])]
  }

  /** All hits of all lists, in the order in which they are taken in. */
  ghost function AllRanked(lists: seq<seq<Hit>>): seq<Ranked> {
    if lists == [] then []
    else AllRanked(lists[..|lists| - 1]) + RankedUpTo(lists[|lists| - 1], |lists[|lists| - 1]|)
  }

  ghost function Mass(entries: seq<Ranked>): real {
    if entries == [] then 0.0 else Mass(entries[..|entries| - 1]) + entries[|entries| - 1].worth
  }

  /** The worth of the hits with one identity. */
  ghost function MassAt(lower: Lower, entries: seq<Ranked>, key: string): real {
    if entries == [] then 0.0
    else
      var last := entries[|entries| - 1];
      MassAt(lower, entries[..|entries| - 1], key) + if Identity(lower, last.hit) == key then last.worth else 0.0
  }

  /** The place of the hit that stands for an identity: the first with the highest raw score. */
  ghost function Best(lower: Lower, entries: seq<Ranked>, key: string): (r: Option<nat>)
    ensures r.Some? ==> r.value < |entries| && Identity(lower, entries[r.value].hit) == key
  {
    if entries == [] then None
    else
      var front, last := entries[..|entries| - 1], entries[|entries| - 1].hit;
      var best := Best(lower, front, key);
      if Identity(lower, last) == key && (best.None? || last.score > front[best.value].hit.score) then Some(|front|)
      else best
  }

  lemma {:induction false} BestIsFirstMaximum(lower: Lower, entries: seq<Ranked>, key: string)
    ensures var best := Best(lower, entries, key);
            if best.None? then forall j :: 0 <= j < |entries| ==> Identity(lower, entries[j].hit) != key
            else forall j :: 0 <= j < |entries| && Identity(lower, entries[j].hit) == key ==>
                   entries[j].hit.score <= entries[best.value].hit.score
                   && (j < best.value ==> entries[j].hit.score < entries[best.value].hit.score)
  {
    hide Identity;
    if entries != [] {
      BestIsFirstMaximum(lower, entries[..|entries| - 1], key);
    }
  }

  /** The sources of the hits with one identity, from some place on. */
  ghost function SourcesFrom(lower: Lower, entries: seq<Ranked>, key: string, from: nat): set<Source> {
    set j, s | from <= j < |entries| && Identity(lower, entries[j].hit) == key && s in entries[j].hit.sources :: s
  }

  // ---------------------------------------------------------------------------
  // First pass: one entry for each identity
  // ---------------------------------------------------------------------------

  datatype Entry = Entry(score: real, hit: Hit)

  function Absorb(lower: Lower, acc: map<string, Entry>, e: Ranked): map<string, Entry> {
    var key := Identity(lower, e.hit);
    var prior := if key in acc then acc[key] else Entry(0.0, e.hit);
    var shown := if e.hit.score > prior.hit.score then e.hit else prior.hit;
    acc[key := Entry(prior.score + e.worth, shown.(sources := shown.sources + e.hit.sources))]
  }

  /** Each identity has the worth of its hits, and is shown as its best hit, with the sources of that hit and of
      those that came after it. */
  ghost predicate Gathered(lower: Lower, entries: seq<Ranked>, acc: map<string, Entry>) {
    forall key :: GatheredAt(lower, entries, acc, key)
  }

  ghost predicate GatheredAt(lower: Lower, entries: seq<Ranked>, acc: map<string, Entry>, key: string) {
    var best := Best(lower, entries, key);
    if best.None? then key !in acc
    else key in acc && acc[key] == Entry(
           MassAt(lower, entries, key),
           entries[best.value].hit.(sources := SourcesFrom(lower, entries, key, best.value)))
  }

  lemma AbsorbGathers(lower: Lower, entries: seq<Ranked>, acc: map<string, Entry>, e: Ranked)
    requires Gathered(lower, entries, acc)
    ensures Gathered(lower, entries + [e], Absorb(lower, acc, e))
  {
    hide Identity, SourcesFrom;
    var more := entries + [e];
    assert more[..|entries|] == entries;
    forall key
      ensures GatheredAt(lower, more, Absorb(lower, acc, e), key)
    {
      assert GatheredAt(lower, entries, acc, key);
      BestIsFirstMaximum(lower, entries, key);
      var best := Best(lower, more, key);
      if best.Some? {
        SourcesGrow(lower, entries, e, key, best.value);
      }
      NoMassWithoutBest(lower, entries, key);
    }
  }

  lemma SourcesGrow(lower: Lower, entries: seq<Ranked>, e: Ranked, key: string, from: nat)
    requires from <= |entries|
    ensures SourcesFrom(lower, entries + [e], key, from)
         == SourcesFrom(lower, entries, key, from) + if Identity(lower, e.hit) == key then e.hit.sources else {}
    ensures SourcesFrom(lower, entries, key, |entries|) == {}
  {
    hide Identity;
    var more := entries + [e];
    assert forall j :: 0 <= j < |entries| ==> more[j] == entries[j];
    assert more[|entries|] == e;
  }

  lemma {:induction false} NoMassWithoutBest(lower: Lower, entries: seq<Ranked>, key: string)
    ensures Best(lower, entries, key).None? ==> MassAt(lower, entries, key) == 0.0
  {
    hide Identity;
    if entries != [] {
      NoMassWithoutBest(lower, entries[..|entries| - 1], key);
    }
  }

  method Gather(lower: Lower, lists: seq<seq<Hit>>) returns (acc: map<string, Entry>)
    ensures Gathered(lower, AllRanked(lists), acc)
  {
    acc := map[];
    NothingGathered(lower);
    hide Absorb, Gathered, Contribution;
    assert lists[..0] == [];
    for i := 0 to |lists|
      invariant Gathered(lower, AllRanked(lists[..i]), acc)
    {
      ListAppended(lists, i, 0);
      for j := 0 to |lists[i]|
        invariant Gathered(lower, AllRanked(lists[..i]) + RankedUpTo(lists[i], j), acc)
      {
        var e := Ranked(Contribution(j), lists[i][j]);
        AbsorbGathers(lower, AllRanked(lists[..i]) + RankedUpTo(lists[i], j), acc, e);
        ListAppended(lists, i, j);
        acc := Absorb(lower, acc, e);
      }
    }
    assert lists[..|lists|] == lists;
  }

  lemma ListAppended(lists: seq<seq<Hit>>, i: nat, j: nat)
    requires i < |lists|
    ensures AllRanked(lists[..i]) + RankedUpTo(lists[i], 0) == AllRanked(lists[..i])
    ensures AllRanked(lists[..i + 1]) == AllRanked(lists[..i]) + RankedUpTo(lists[i], |lists[i]|)
    ensures j < |lists[i]| ==>
              AllRanked(lists[..i]) + RankedUpTo(lists[i], j + 1)
              == AllRanked(lists[..i]) + RankedUpTo(lists[i], j) + [Ranked(Contribution(j), lists[i][j])]
  {
    assert lists[..i + 1][..i] == lists[..i];
  }

  lemma NothingGathered(lower: Lower)
    ensures Gathered(lower, [], map[])
  {
  }

  // ---------------------------------------------------------------------------
  // Score mass
  // ---------------------------------------------------------------------------

  ghost function ScoreOf(acc: map<string, Entry>): string -> real {
    k => if k in acc then acc[k].score else 0.0
  }

  ghost function Total(acc: map<string, Entry>): real {
    Sum(acc.Keys, ScoreOf(acc))
  }

  lemma AbsorbAddsMass(lower: Lower, acc: map<string, Entry>, e: Ranked)
    ensures Total(Absorb(lower, acc, e)) == Total(acc) + e.worth
  {
    hide Identity;
    var key, acc' := Identity(lower, e.hit), Absorb(lower, acc, e);
    var others := acc.Keys - {key};
    SumSame(others, ScoreOf(acc), ScoreOf(acc'));
    assert acc'.Keys - {key} == others;
    SumTake(acc'.Keys, ScoreOf(acc'), key);
    if key in acc {
      SumTake(acc.Keys, ScoreOf(acc), key);
    } else {
      assert acc.Keys == others;
    }
  }

  lemma GatheredUnique(lower: Lower, entries: seq<Ranked>, a: map<string, Entry>, b: map<string, Entry>)
    requires Gathered(lower, entries, a) && Gathered(lower, entries, b)
    ensures a == b
  {
    hide Best, MassAt, SourcesFrom;
    forall k
      ensures k in a <==> k in b
      ensures k in a ==> a[k] == b[k]
    {
      assert GatheredAt(lower, entries, a, k) && GatheredAt(lower, entries, b, k);
    }
  }

  ghost function Absorbed(lower: Lower, entries: seq<Ranked>): (acc: map<string, Entry>)
    ensures Gathered(lower, entries, acc)
  {
    if entries == [] then NothingGathered(lower); map[]
    else
      var front, last := entries[..|entries| - 1], entries[|entries| - 1];
      AbsorbGathers(lower, front, Absorbed(lower, front), last);
      assert front + [last] == entries;
      Absorb(lower, Absorbed(lower, front), last)
  }

  /** Gathering keeps the score mass of the input. */
  lemma {:induction false} GatheringConserves(lower: Lower, entries: seq<Ranked>, acc: map<string, Entry>)
    requires Gathered(lower, entries, acc)
    ensures Total(acc) == Mass(entries)
  {
    hide Gathered, Absorb;
    GatheredUnique(lower, entries, acc, Absorbed(lower, entries));
    if entries == [] {
      assert Sum({}, ScoreOf(acc)) == 0.0;
    } else {
      var front, last := entries[..|entries| - 1], entries[|entries| - 1];
      GatheringConserves(lower, front, Absorbed(lower, front));
      AbsorbAddsMass(lower, Absorbed(lower, front), last);
    }
  }

  /** What the sources of a result record: everything that corroborated it, exactly when what matched before its best
      hit matched again from there on. A better hit replaces the one shown together with the sources kept so far. */
  lemma SourcesComplete(lower: Lower, entries: seq<Ranked>, acc: map<string, Entry>, key: string)
    requires Gathered(lower, entries, acc) && key in acc
    ensures var best := Best(lower, entries, key);
            && best.Some?
            && (acc[key].hit.sources == SourcesFrom(lower, entries, key, 0) <==>
                  forall j :: 0 <= j < best.value && Identity(lower, entries[j].hit) == key ==>
                    entries[j].hit.sources <= SourcesFrom(lower, entries, key, best.value))
  {
    hide Identity, Best, MassAt;
    assert GatheredAt(lower, entries, acc, key);
  }

  /** Two lists with the same document, the second with the higher raw score: the first list's source is lost. */
  lemma SourcesLost(lower: Lower, acc: map<string, Entry>)
    requires Gathered(lower, AllRanked([[Hit(Some("d"), "t", "", 1.0, {Keyword})],
                                        [Hit(Some("d"), "t", "", 2.0, {Vector})]]), acc)
    ensures "doc:d" in acc && acc["doc:d"].hit.sources == {Vector}
  {
    hide Gathered, AllRanked, Contribution;
    var a, b := Hit(Some("d"), "t", "", 1.0, {Keyword}), Hit(Some("d"), "t", "", 2.0, {Vector});
    var x, y := Ranked(Contribution(0), a), Ranked(Contribution(0), b);
    TwoSingletons(a, b);
    NothingGathered(lower);
    AbsorbGathers(lower, [], map[], x);
    assert [] + [x] == [x];
    AbsorbGathers(lower, [x], Absorb(lower, map[], x), y);
    GatheredUnique(lower, [x] + [y], acc, Absorb(lower, Absorb(lower, map[], x), y));
    assert Identity(lower, a) == "doc:d" && Identity(lower, b) == "doc:d";
  }

  lemma TwoSingletons(a: Hit, b: Hit)
    ensures AllRanked([[a], [b]]) == [Ranked(Contribution(0), a)] + [Ranked(Contribution(0), b)]
  {
    hide Contribution;
    var one, two := [[a]], [[a], [b]];
    assert two[..1] == one && one[..0] == [];
    assert RankedUpTo([a], 1) == [Ranked(Contribution(0), a)] by { OneRanked(a); }
    assert RankedUpTo([b], 1) == [Ranked(Contribution(0), b)] by { OneRanked(b); }
    assert AllRanked(one) == AllRanked([]) + RankedUpTo([a], 1);
    assert AllRanked(two) == AllRanked(one) + RankedUpTo([b], 1);
  }

  lemma OneRanked(h: Hit)
    ensures RankedUpTo([h], 1) == [Ranked(Contribution(0), h)]
  {
    assert RankedUpTo([h], 0) == [];
  }

  // ---------------------------------------------------------------------------
  // Second pass: a graph node folds into the one document of the same name
  // ---------------------------------------------------------------------------

  predicate SameName(lower: Lower, acc: map<string, Entry>, a: string, b: string)
    requires a in acc && b in acc
  {
    lower(acc[a].hit.title) == lower(acc[b].hit.title)
  }

  predicate IsDocument(acc: map<string, Entry>, k: string) {
    k in acc && acc[k].hit.id.Some?
  }

  predicate IsNode(acc: map<string, Entry>, k: string) {
    k in acc && acc[k].hit.id.None?
  }

  /** `d` is the only document named like the graph node `n`. */
  ghost predicate FoldsInto(lower: Lower, acc: map<string, Entry>, n: string, d: string) {
    && IsNode(acc, n) && IsDocument(acc, d) && SameName(lower, acc, n, d)
    && forall k :: IsDocument(acc, k) && SameName(lower, acc, n, k) ==> k == d
  }

  ghost predicate Folds(lower: Lower, acc: map<string, Entry>, n: string) {
    exists d :: FoldsInto(lower, acc, n, d)
  }

  /** Entries stand under their own identity. */
  ghost predicate Keyed(lower: Lower, acc: map<string, Entry>) {
    forall k :: k in acc ==> Identity(lower, acc[k].hit) == k
  }

  lemma GatheredKeyed(lower: Lower, entries: seq<Ranked>, acc: map<string, Entry>)
    requires Gathered(lower, entries, acc)
    ensures Keyed(lower, acc)
  {
    hide MassAt, SourcesFrom;
    forall k | k in acc
      ensures Identity(lower, acc[k].hit) == k
    {
      assert GatheredAt(lower, entries, acc, k);
    }
  }

  /** The only identity under which a node of that name can stand. */
  ghost function NodeFor(lower: Lower, acc: map<string, Entry>, d: string): string
    requires d in acc
  {
    "name:" + lower(acc[d].hit.title)
  }

  /** At most one node folds into a document. */
  lemma OneNodeFolds(lower: Lower, acc: map<string, Entry>, n: string, d: string)
    requires Keyed(lower, acc) && FoldsInto(lower, acc, n, d)
    ensures n == NodeFor(lower, acc, d)
  {
  }

  /** An entry once the nodes outside `todo` are folded: a document has the score and the sources of its node too. */
  ghost function EntryAfter(lower: Lower, acc: map<string, Entry>, todo: set<string>, k: string): Entry
    requires k in acc
  {
    var n := NodeFor(lower, acc, k);
    if FoldsInto(lower, acc, n, k) && n !in todo then
      Entry(acc[k].score + acc[n].score, acc[k].hit.(sources := acc[k].hit.sources + acc[n].hit.sources))
    else acc[k]
  }

  /** Folded nodes are gone, everything else is there, and the score mass is what it was. */
  ghost predicate FoldedBut(lower: Lower, acc: map<string, Entry>, todo: set<string>, cur: map<string, Entry>) {
    KeysAfter(lower, acc, todo, cur) && EntriesAfter(lower, acc, todo, cur) && Total(cur) == Total(acc)
  }

  ghost predicate KeysAfter(lower: Lower, acc: map<string, Entry>, todo: set<string>, cur: map<string, Entry>) {
    forall k :: k in cur <==> k in acc && (k in todo || !Folds(lower, acc, k))
  }

  ghost predicate EntriesAfter(lower: Lower, acc: map<string, Entry>, todo: set<string>, cur: map<string, Entry>) {
    forall k :: k in cur ==> k in acc && cur[k] == EntryAfter(lower, acc, todo, k)
  }

  lemma MoveScore(cur: map<string, Entry>, n: string, d: string)
    requires n in cur && d in cur && n != d
    ensures Total(Folded(cur, n, d)) == Total(cur)
    ensures forall k :: k in Folded(cur, n, d) <==> k in cur && k != n
    ensures forall k :: k in Folded(cur, n, d) && k != d ==> Folded(cur, n, d)[k] == cur[k]
    ensures Folded(cur, n, d)[d]
         == Entry(cur[d].score + cur[n].score, cur[d].hit.(sources := cur[d].hit.sources + cur[n].hit.sources))
  {
    var cur' := Folded(cur, n, d);
    var others := cur.Keys - {n} - {d};
    SumTake(cur.Keys, ScoreOf(cur), n);
    SumTake(cur.Keys - {n}, ScoreOf(cur), d);
    assert cur'.Keys - {d} == others;
    SumTake(cur'.Keys, ScoreOf(cur'), d);
    SumSame(others, ScoreOf(cur), ScoreOf(cur'));
  }

  ghost function Folded(cur: map<string, Entry>, n: string, d: string): map<string, Entry>
    requires n in cur && d in cur
  {
    (cur - {n})[d := Entry(cur[d].score + cur[n].score,
                           cur[d].hit.(sources := cur[d].hit.sources + cur[n].hit.sources))]
  }

  lemma FoldStep(lower: Lower, acc: map<string, Entry>, todo: set<string>, cur: map<string, Entry>, n: string,
        d: string)
    requires Keyed(lower, acc) && FoldedBut(lower, acc, todo, cur) && n in todo && FoldsInto(lower, acc, n, d)
    ensures n in cur && d in cur && n != d && FoldedBut(lower, acc, todo - {n}, Folded(cur, n, d))
  {
    FoldsFacts(lower, acc, n, d);
    assert n in cur && d in cur by {
      hide FoldsInto, Folds, EntriesAfter, Total;
    }
    FoldKeys(lower, acc, todo, cur, n, d);
    FoldEntries(lower, acc, todo, cur, n, d);
    MoveScore(cur, n, d);
    hide KeysAfter, EntriesAfter, Total, Folded, FoldsInto, Folds;
  }

  lemma FoldKeys(lower: Lower, acc: map<string, Entry>, todo: set<string>, cur: map<string, Entry>, n: string,
        d: string)
    requires KeysAfter(lower, acc, todo, cur) && Folds(lower, acc, n) && n in cur && d in cur && n != d
    ensures KeysAfter(lower, acc, todo - {n}, Folded(cur, n, d))
  {
    hide Folds;
  }

  lemma FoldEntries(lower: Lower, acc: map<string, Entry>, todo: set<string>, cur: map<string, Entry>,
                    n: string, d: string)
    requires Keyed(lower, acc) && EntriesAfter(lower, acc, todo, cur) && n in todo && FoldsInto(lower, acc, n, d)
    requires n in cur && d in cur && n != d
    ensures EntriesAfter(lower, acc, todo - {n}, Folded(cur, n, d))
  {
    OneNodeFolds(lower, acc, n, d);
    FoldsFacts(lower, acc, n, d);
    hide Identity, Keyed, FoldsInto, Folds, NodeFor, EntryAfter;
    EntryOfNode(lower, acc, todo, n);
    EntryOfTarget(lower, acc, todo, n, d);
    forall k | k in acc && k != d
      ensures EntryAfter(lower, acc, todo - {n}, k) == EntryAfter(lower, acc, todo, k)
    {
      EntryOfOther(lower, acc, todo, n, k);
    }
  }

  lemma EntryOfNode(lower: Lower, acc: map<string, Entry>, todo: set<string>, n: string)
    requires n in acc && forall m :: !FoldsInto(lower, acc, m, n)
    ensures EntryAfter(lower, acc, todo, n) == acc[n]
  {
    hide FoldsInto;
  }

  lemma EntryOfTarget(lower: Lower, acc: map<string, Entry>, todo: set<string>, n: string, d: string)
    requires n in acc && d in acc && n in todo && n == NodeFor(lower, acc, d) && FoldsInto(lower, acc, n, d)
    ensures EntryAfter(lower, acc, todo, d) == acc[d]
    ensures EntryAfter(lower, acc, todo - {n}, d)
         == Entry(acc[d].score + acc[n].score, acc[d].hit.(sources := acc[d].hit.sources + acc[n].hit.sources))
  {
    hide FoldsInto, NodeFor;
  }

  lemma EntryOfOther(lower: Lower, acc: map<string, Entry>, todo: set<string>, n: string, k: string)
    requires k in acc && !FoldsInto(lower, acc, n, k)
    ensures EntryAfter(lower, acc, todo - {n}, k) == EntryAfter(lower, acc, todo, k)
  {
    hide FoldsInto, NodeFor;
  }

  lemma FoldsFacts(lower: Lower, acc: map<string, Entry>, n: string, d: string)
    requires FoldsInto(lower, acc, n, d)
    ensures n in acc && d in acc && n != d && Folds(lower, acc, n) && !Folds(lower, acc, d)
    ensures forall m :: !FoldsInto(lower, acc, m, n)
    ensures forall k :: k != d ==> !FoldsInto(lower, acc, n, k)
  {
    hide SameName;
  }

  lemma StandsAlone(lower: Lower, acc: map<string, Entry>, todo: set<string>, cur: map<string, Entry>, n: string)
    requires FoldedBut(lower, acc, todo, cur) && !Folds(lower, acc, n)
    ensures FoldedBut(lower, acc, todo - {n}, cur)
  {
    hide Total, SameName;
    forall k | k in cur
      ensures cur[k] == EntryAfter(lower, acc, todo - {n}, k)
    {
      assert !FoldsInto(lower, acc, n, k);
    }
  }

  lemma NothingFolded(lower: Lower, acc: map<string, Entry>, nodes: set<string>)
    requires forall k :: IsNode(acc, k) ==> k in nodes
    ensures FoldedBut(lower, acc, nodes, acc)
  {
    hide Total, SameName;
  }

  /** The documents by lower-cased title. */
  ghost predicate ByTitle(lower: Lower, acc: map<string, Entry>, keys: set<string>, titled: map<string, seq<string>>) {
    && (forall t :: t in titled ==> NoDup(titled[t]) && forall k :: k in titled[t] ==>
          k in keys && IsDocument(acc, k) && lower(acc[k].hit.title) == t)
    && (forall k :: k in keys && IsDocument(acc, k) ==>
          lower(acc[k].hit.title) in titled && k in titled[lower(acc[k].hit.title)])
  }

  method Titles(lower: Lower, acc: map<string, Entry>) returns (titled: map<string, seq<string>>)
    ensures ByTitle(lower, acc, acc.Keys, titled)
  {
    hide NoDup;
    titled := map[];
    var todo := acc.Keys;
    while todo != {}
      invariant todo <= acc.Keys && ByTitle(lower, acc, acc.Keys - todo, titled)
    {
      var k :| k in todo;
      todo := todo - {k};
      if acc[k].hit.id.Some? {
        var t := lower(acc[k].hit.title);
        var listed := if t in titled then titled[t] else [];
        ListedOnce(listed, k);
        titled := titled[t := listed + [k]];
      }
    }
    assert acc.Keys - {} == acc.Keys;
  }

  lemma ListedOnce(listed: seq<string>, k: string)
    ensures NoDup(listed) && k !in listed ==> NoDup(listed + [k])
    ensures NoDup<string>([])
  {
    NoDupSnoc(listed, k);
  }

  /** The list under a node's name has one document exactly when that is the document to fold into. */
  lemma OnlyTarget(lower: Lower, acc: map<string, Entry>, titled: map<string, seq<string>>, n: string)
    requires ByTitle(lower, acc, acc.Keys, titled) && IsNode(acc, n)
    ensures var t := lower(acc[n].hit.title);
            if t in titled && |titled[t]| == 1 then FoldsInto(lower, acc, n, titled[t][0]) else !Folds(lower, acc, n)
  {
    var t := lower(acc[n].hit.title);
    if t in titled && |titled[t]| == 1 {
      assert titled[t][0] in titled[t];
      assert forall k :: k in titled[t] ==> k == titled[t][0];
    }
    forall d | FoldsInto(lower, acc, n, d)
      ensures t in titled && |titled[t]| == 1
    {
      OneElement(titled[t], d);
    }
  }

  lemma OneElement(listed: seq<string>, d: string)
    requires NoDup(listed) && d in listed && forall k :: k in listed ==> k == d
    ensures |listed| == 1
  {
    ElemsCardinality(listed);
    assert Elems(listed) == {d};
  }

  /** Takes the nodes in some order and folds those that name exactly one document. */
  method FoldNodes(lower: Lower, acc: map<string, Entry>) returns (cur: map<string, Entry>)
    requires Keyed(lower, acc)
    ensures FoldedBut(lower, acc, {}, cur)
  {
    hide FoldedBut, Keyed, FoldsInto, Folds, ByTitle;
    var titled := Titles(lower, acc);
    cur := acc;
    var todo := set k | k in acc && acc[k].hit.id.None?;
    NothingFolded(lower, acc, todo);
    while todo != {}
      invariant FoldedBut(lower, acc, todo, cur)
      invariant forall n :: n in todo ==> IsNode(acc, n)
    {
      var n :| n in todo;
      var title := lower(acc[n].hit.title);
      OnlyTarget(lower, acc, titled, n);
      if title in titled && |titled[title]| == 1 {
        var d := titled[title][0];
        FoldStep(lower, acc, todo, cur, n, d);
        cur := (cur - {n})[d :=
          Entry(cur[d].score + cur[n].score, cur[d].hit.(sources := cur[d].hit.sources + cur[n].hit.sources))];
      } else {
        StandsAlone(lower, acc, todo, cur, n);
      }
      todo := todo - {n};
    }
  }

  // ---------------------------------------------------------------------------
  // The result
  // ---------------------------------------------------------------------------

  /** A larger score goes first; equal scores go by title. */
  predicate Before(x: Entry, y: Entry) {
    y.score < x.score || (x.score == y.score && AtMost(x.hit.title, y.hit.title))
  }

  lemma BeforeTransitive(x: Entry, y: Entry, z: Entry)
    requires Before(x, y) && Before(y, z)
    ensures Before(x, z)
  {
    if x.score == y.score == z.score {
      AtMostTransitive(x.hit.title, y.hit.title, z.hit.title);
    }
  }

  /** `order` lists the `limit` keys that go first, in that order. */
  ghost predicate IsTop(cur: map<string, Entry>, limit: nat, order: seq<string>) {
    && NoDup(order) && (forall k :: k in order ==> k in cur)
    && |order| == (if limit < |cur| then limit else |cur|)
    && (forall i, j :: 0 <= i < j < |order| ==> Before(cur[order[i]], cur[order[j]]))
    && (forall i, k :: 0 <= i < |order| && k in cur && k !in order ==> Before(cur[order[i]], cur[k]))
  }

  lemma {:induction false} SomeFirst(cur: map<string, Entry>, todo: set<string>)
    requires todo != {} && todo <= cur.Keys
    ensures exists k :: k in todo && forall l :: l in todo ==> Before(cur[k], cur[l])
  {
    var x :| x in todo;
    AtMostTotal(cur[x].hit.title, cur[x].hit.title);
    if todo != {x} {
      var rest := todo - {x};
      assert todo == rest + {x};
      SomeFirst(cur, rest);
      var k :| k in rest && forall l :: l in rest ==> Before(cur[k], cur[l]);
      AtMostTotal(cur[x].hit.title, cur[k].hit.title);
      if Before(cur[k], cur[x]) {
        assert k in todo && forall l :: l in todo ==> Before(cur[k], cur[l]);
      } else {
        forall l | l in todo
          ensures Before(cur[x], cur[l])
        {
          if l != x {
            BeforeTransitive(cur[x], cur[k], cur[l]);
          }
        }
      }
    }
  }

  /** The first of those that remain next, until there are enough. */
  method Rank(cur: map<string, Entry>, limit: nat) returns (fused: seq<Hit>, ghost order: seq<string>)
    ensures IsTop(cur, limit, order)
    ensures |fused| == |order| && forall i :: 0 <= i < |order| ==> fused[i] == Scored(cur, order[i])
    ensures Descending(fused) && forall i, k :: 0 <= i < |fused| && k in cur && k !in order ==>
              cur[k].score <= fused[i].score
  {
    fused, order := [], [];
    var todo := cur.Keys;
    hide NoDup, Before;
    NothingRanked(cur);
    while todo != {} && |fused| < limit
      invariant Ranking(cur, order, todo) && |order| <= limit
      invariant |fused| == |order| && forall i :: 0 <= i < |order| ==> fused[i] == Scored(cur, order[i])
      decreases |todo|
    {
      SomeFirst(cur, todo);
      var k :| k in todo && forall l :: l in todo ==> Before(cur[k], cur[l]);
      RankNext(cur, order, todo, k);
      fused, order, todo := fused + [Scored(cur, k)], order + [k], todo - {k};
    }
    RankedTop(cur, limit, order, todo);
    TopIsDescending(cur, limit, order, fused);
  }

  /** By score, the highest first, and by title among equals. */
  ghost predicate Descending(hits: seq<Hit>) {
    forall i, j :: 0 <= i < j < |hits| ==>
      hits[i].score > hits[j].score || (hits[i].score == hits[j].score && AtMost(hits[i].title, hits[j].title))
  }

  lemma TopIsDescending(cur: map<string, Entry>, limit: nat, order: seq<string>, fused: seq<Hit>)
    requires IsTop(cur, limit, order)
    requires |fused| == |order| && forall i :: 0 <= i < |order| ==> fused[i] == Scored(cur, order[i])
    ensures Descending(fused)
    ensures forall i, k :: 0 <= i < |fused| && k in cur && k !in order ==> cur[k].score <= fused[i].score
  {
    hide AtMost, NoDup;
    forall i, j | 0 <= i < j < |fused|
      ensures fused[i].score > fused[j].score
              || (fused[i].score == fused[j].score && AtMost(fused[i].title, fused[j].title))
    {
      assert Before(cur[order[i]], cur[order[j]]);
    }
  }

  function Scored(cur: map<string, Entry>, k: string): Hit
    requires k in cur
  {
    cur[k].hit.(score := cur[k].score)
  }

  /** Ranked so far: everything in `order` goes before anything in `todo`. */
  ghost predicate Ranking(cur: map<string, Entry>, order: seq<string>, todo: set<string>) {
    && NoDup(order) && (forall k :: k in cur <==> k in order || k in todo) && (forall k :: k in order ==> k !in todo)
    && (forall i, j :: 0 <= i < j < |order| ==> Before(cur[order[i]], cur[order[j]]))
    && (forall i, k :: 0 <= i < |order| && k in todo ==> Before(cur[order[i]], cur[k]))
  }

  lemma NothingRanked(cur: map<string, Entry>)
    ensures Ranking(cur, [], cur.Keys)
  {
  }

  lemma RankNext(cur: map<string, Entry>, order: seq<string>, todo: set<string>, k: string)
    requires Ranking(cur, order, todo) && k in todo && forall l :: l in todo ==> Before(cur[k], cur[l])
    ensures Ranking(cur, order + [k], todo - {k})
  {
    NoDupSnoc(order, k);
    hide NoDup, Before;
  }

  lemma RankedTop(cur: map<string, Entry>, limit: nat, order: seq<string>, todo: set<string>)
    requires Ranking(cur, order, todo) && |order| <= limit && (todo == {} || |order| == limit)
    ensures IsTop(cur, limit, order)
  {
    ElemsCardinality(order);
    SubsetCardinality(Elems(order), cur.Keys);
    hide NoDup, Before;
    if todo == {} {
      assert Elems(order) == cur.Keys;
    }
  }

  /** The whole fusion: gather by identity, fold nodes into documents, rank. */
  method FuseRrf(lower: Lower, lists: seq<seq<Hit>>, limit: nat)
      returns (fused: seq<Hit>, ghost acc: map<string, Entry>, ghost cur: map<string, Entry>, ghost order: seq<string>)
    ensures Gathered(lower, AllRanked(lists), acc) && FoldedBut(lower, acc, {}, cur)
    ensures IsTop(cur, limit, order) && |fused| == |order|
    ensures forall i :: 0 <= i < |order| ==> fused[i] == Scored(cur, order[i])
    ensures Descending(fused) && forall i, k :: 0 <= i < |fused| && k in cur && k !in order ==>
              cur[k].score <= fused[i].score
    ensures Total(cur) == Mass(AllRanked(lists))
  {
    hide Gathered, FoldedBut, Keyed, IsTop, Total, Descending;
    var gathered := Gather(lower, lists);
    GatheredKeyed(lower, AllRanked(lists), gathered);
    GatheringConserves(lower, AllRanked(lists), gathered);
    var folded := FoldNodes(lower, gathered);
    FoldedTotal(lower, gathered, folded);
    acc, cur := gathered, folded;
    fused, order := Rank(folded, limit);
  }

  lemma FoldedTotal(lower: Lower, acc: map<string, Entry>, cur: map<string, Entry>)
    requires FoldedBut(lower, acc, {}, cur)
    ensures Total(cur) == Total(acc)
  {
    hide Total, KeysAfter, EntriesAfter;
  }

  /** Every document among the input hits is in the fused entries, under its own id, and no other entry has that
      id. */
  lemma DocumentsSurvive(lower: Lower, entries: seq<Ranked>, acc: map<string, Entry>, cur: map<string, Entry>, j: nat)
    requires Gathered(lower, entries, acc) && FoldedBut(lower, acc, {}, cur)
    requires j < |entries| && entries[j].hit.id.Some?
    ensures var key := Identity(lower, entries[j].hit);
            && key in cur && cur[key].hit.id == entries[j].hit.id
            && forall k :: k in cur && cur[k].hit.id == entries[j].hit.id ==> k == key
  {
    var key := Identity(lower, entries[j].hit);
    InputGathered(lower, entries, acc, j);
    GatheredKeyed(lower, entries, acc);
    FoldedKeepsIdentity(lower, acc, cur);
    SameItem(lower, entries[j].hit, acc[key].hit);
    DocumentsStay(lower, acc, cur, key);
    forall k | k in cur && cur[k].hit.id == entries[j].hit.id
      ensures k == key
    {
    }
  }

  lemma InputGathered(lower: Lower, entries: seq<Ranked>, acc: map<string, Entry>, j: nat)
    requires Gathered(lower, entries, acc) && j < |entries|
    ensures var key := Identity(lower, entries[j].hit);
            key in acc && acc[key].score == MassAt(lower, entries, key) && Identity(lower, acc[key].hit) == key
  {
    var key := Identity(lower, entries[j].hit);
    BestIsFirstMaximum(lower, entries, key);
    GatheredKeyed(lower, entries, acc);
    assert GatheredAt(lower, entries, acc, key);
    hide MassAt, SourcesFrom, Identity;
  }

  /** A graph node among the input hits is missing from the fused entries only when it names exactly one document, and
      that document has its score. */
  lemma NodesFoldOrSurvive(lower: Lower, entries: seq<Ranked>, acc: map<string, Entry>, cur: map<string, Entry>, j: nat)
    requires Gathered(lower, entries, acc) && FoldedBut(lower, acc, {}, cur) && j < |entries|
    ensures var key := Identity(lower, entries[j].hit);
            key !in cur ==> exists d ::
              FoldsInto(lower, acc, key, d) && d in cur
              && cur[d].score == MassAt(lower, entries, d) + MassAt(lower, entries, key)
  {
    var key := Identity(lower, entries[j].hit);
    InputGathered(lower, entries, acc, j);
    GatheredKeyed(lower, entries, acc);
    hide Gathered, Total, Identity, SameName, EntryAfter, FoldsInto, Keyed;
    if key !in cur {
      var d :| FoldsInto(lower, acc, key, d);
      FoldedScore(lower, acc, cur, key, d);
      GatheredScore(lower, entries, acc, d);
    }
  }

  lemma GatheredScore(lower: Lower, entries: seq<Ranked>, acc: map<string, Entry>, d: string)
    requires Gathered(lower, entries, acc) && d in acc
    ensures acc[d].score == MassAt(lower, entries, d)
  {
    assert GatheredAt(lower, entries, acc, d);
  }

  lemma FoldedScore(lower: Lower, acc: map<string, Entry>, cur: map<string, Entry>, n: string, d: string)
    requires Keyed(lower, acc) && FoldedBut(lower, acc, {}, cur) && FoldsInto(lower, acc, n, d)
    ensures n in acc && d in acc && d in cur && cur[d].score == acc[d].score + acc[n].score
  {
    OneNodeFolds(lower, acc, n, d);
    FoldsFacts(lower, acc, n, d);
    hide FoldsInto, Folds, Total, Keyed, NodeFor, Identity;
  }

  lemma SameItem(lower: Lower, a: Hit, b: Hit)
    requires Identity(lower, a) == Identity(lower, b)
    ensures a.id == b.id
  {
    if a.id.Some? {
      DocumentsAndNodesDiffer(lower, a, b);
    } else if b.id.Some? {
      DocumentsAndNodesDiffer(lower, b, a);
    }
  }

  lemma DocumentsStay(lower: Lower, acc: map<string, Entry>, cur: map<string, Entry>, d: string)
    requires FoldedBut(lower, acc, {}, cur) && IsDocument(acc, d)
    ensures d in cur && cur[d].hit.id == acc[d].hit.id
  {
    hide Total, SameName;
  }

  lemma FoldedKeepsIdentity(lower: Lower, acc: map<string, Entry>, cur: map<string, Entry>)
    requires Keyed(lower, acc) && FoldedBut(lower, acc, {}, cur)
    ensures forall k :: k in cur ==> k in acc && Identity(lower, cur[k].hit) == k
  {
    hide Total, FoldsInto, Folds;
  }
}
