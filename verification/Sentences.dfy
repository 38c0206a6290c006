/** What a sentence says about entities (graph/src/extract.rs): its phrases, and the text between them. */
module Sentences {
  import opened Sequences
  import opened Text
  import opened Graph

  /** The entity phrases of a sentence in order, and the text between each two neighbours. */
  datatype SentenceParse = SentenceParse(entities: seq<string>, gaps: seq<string>)

  function JoinWords(words: seq<string>): string {
    if words == [] then ""
    else if |words| == 1 then words[0]
    else JoinWords(words[..|words| - 1]) + " " + words[|words| - 1]
  }

  /** How words are told apart; the character classes behind this are not part of the model. */
  datatype Lexicon = Lexicon(clean: string -> string, isEntity: string -> bool, isStop: string -> bool, lower: Lower)

  /** The words left when leading stop words are dropped. */
  function DropStops(lex: Lexicon, words: seq<string>): seq<string> {
    if words != [] && lex.isStop(words[0]) then DropStops(lex, words[1..]) else words
  }

  /** What is dropped are stop words, and what is left does not start with one. */
  lemma {:induction false} DropStopsIs(lex: Lexicon, words: seq<string>) returns (n: nat)
    ensures n <= |words| && DropStops(lex, words) == words[n..] && (n < |words| ==> !lex.isStop(words[n]))
    ensures forall i :: 0 <= i < n ==> lex.isStop(words[i])
  {
    n := 0;
    if words != [] && lex.isStop(words[0]) {
      var m := DropStopsIs(lex, words[1..]);
      n := m + 1;
      assert words[1..][m..] == words[n..];
    }
  }

  /** Words are joined by single blanks. */
  lemma {:induction false} JoinWordsConcat(a: seq<string>, b: seq<string>)
    requires a != [] && b != []
    ensures JoinWords(a + b) == JoinWords(a) + " " + JoinWords(b)
    ensures |a| == 1 ==> JoinWords(a) == a[0]
  {
    var n := |b| - 1;
    if n == 0 {
      assert (a + b)[..|a|] == a && (a + b)[|a|] == b[0];
    } else {
      JoinWordsConcat(a, b[..n]);
      assert (a + b)[..|a + b| - 1] == a + b[..n];
    }
  }

  /** A phrase as it is found: neighbouring entity words, not starting with a stop word. */
  ghost predicate IsPhrase(lex: Lexicon, e: string) {
    exists words: seq<string> ::
      && words != [] && !lex.isStop(words[0]) && e == JoinWords(words)
      && forall i :: 0 <= i < |words| ==> lex.isEntity(words[i])
  }

  lemma {:induction false} DropStopsFacts(lex: Lexicon, words: seq<string>)
    requires forall i :: 0 <= i < |words| ==> lex.isEntity(words[i])
    ensures var rest := DropStops(lex, words);
            rest != [] ==> IsPhrase(lex, JoinWords(rest))
    decreases |words|
  {
    if words != [] && lex.isStop(words[0]) {
      DropStopsFacts(lex, words[1..]);
    } else if words != [] {
      assert JoinWords(words) == JoinWords(DropStops(lex, words));
    }
  }

  /** What a sentence consists of: entity phrases, and the words around them. */
  datatype Piece = Phrase(text: string) | Word(text: string)

  /** How many words from the start on are entity words. */
  function RunLength(lex: Lexicon, words: seq<string>): (n: nat)
    ensures n <= |words| && (forall i :: 0 <= i < n ==> lex.isEntity(words[i]))
    ensures n < |words| ==> !lex.isEntity(words[n])
  {
    if words == [] || !lex.isEntity(words[0]) then 0 else 1 + RunLength(lex, words[1..])
  }

  /** The phrase a run of entity words makes, if more than stop words are in it. */
  function PhraseOf(lex: Lexicon, run: seq<string>): seq<Piece> {
    if DropStops(lex, run) == [] then [] else [Phrase(JoinWords(DropStops(lex, run)))]
  }

  function WordOf(lex: Lexicon, word: string): seq<Piece> {
    if word == "" then [] else [Word(lex.lower(word))]
  }

  /** The pieces of a sentence: each longest run of entity words is a phrase, every other word stands for itself. */
  function Pieces(lex: Lexicon, words: seq<string>): seq<Piece>
    decreases |words|
  {
    if words == [] then []
    else
      var n := RunLength(lex, words);
      if n > 0 then PhraseOf(lex, words[..n]) + Pieces(lex, words[n..])
      else WordOf(lex, words[0]) + Pieces(lex, words[1..])
  }

  function Phrases(ps: seq<Piece>): seq<string> {
    if ps == [] then []
    else (if ps[0].Phrase? then [ps[0].text] else []) + Phrases(ps[1..])
  }

  /** The words before the first phrase. */
  function WordsBefore(ps: seq<Piece>): seq<string> {
    if ps == [] || ps[0].Phrase? then [] else [ps[0].text] + WordsBefore(ps[1..])
  }

  /** The words between each phrase and the next. */
  function Gaps(ps: seq<Piece>): seq<string> {
    if ps == [] then []
    else if ps[0].Word? || Phrases(ps[1..]) == [] then Gaps(ps[1..])
    else [JoinWords(WordsBefore(ps[1..]))] + Gaps(ps[1..])
  }

  function Cleaned(lex: Lexicon, units: seq<string>): (r: seq<string>)
    ensures |r| == |units| && forall i :: 0 <= i < |r| ==> r[i] == lex.clean(units[i])
  {
    seq(|units|, i requires 0 <= i < |units| => lex.clean(units[i]))
  }

  /** What parsing a sentence gives: its phrases, and the text between each two neighbours. */
  function Parse(lex: Lexicon, units: seq<string>): SentenceParse {
    var ps := Pieces(lex, Cleaned(lex, units));
    SentenceParse(Phrases(ps), Gaps(ps))
  }

  /** One gap for each pair of neighbouring entities. */
  ghost predicate Aligned(p: SentenceParse) {
    |p.gaps| == if p.entities == [] then 0 else |p.entities| - 1
  }

  lemma {:induction false} GapsAligned(ps: seq<Piece>)
    ensures Aligned(SentenceParse(Phrases(ps), Gaps(ps)))
  {
    if ps != [] {
      GapsAligned(ps[1..]);
    }
  }

  ghost predicate PhrasesOk(lex: Lexicon, ps: seq<Piece>) {
    forall i :: 0 <= i < |ps| && ps[i].Phrase? ==> IsPhrase(lex, ps[i].text)
  }

  lemma {:induction false} PiecesOk(lex: Lexicon, words: seq<string>)
    ensures PhrasesOk(lex, Pieces(lex, words))
    decreases |words|
  {
    hide IsPhrase;
    if words != [] {
      var n := RunLength(lex, words);
      if n > 0 {
        DropStopsFacts(lex, words[..n]);
        PiecesOk(lex, words[n..]);
      } else {
        PiecesOk(lex, words[1..]);
      }
    }
  }

  lemma {:induction false} PhrasesAreThose(lex: Lexicon, ps: seq<Piece>)
    requires PhrasesOk(lex, ps)
    ensures forall i :: 0 <= i < |Phrases(ps)| ==> IsPhrase(lex, Phrases(ps)[i])
  {
    hide IsPhrase;
    if ps != [] {
      PhrasesAreThose(lex, ps[1..]);
    }
  }

  /** A parse has one gap for each pair of neighbouring entities; entities are runs of entity words that do not start
      with a stop word. */
  lemma ParseIsSound(lex: Lexicon, units: seq<string>)
    ensures var p := Parse(lex, units);
            Aligned(p) && forall i :: 0 <= i < |p.entities| ==> IsPhrase(lex, p.entities[i])
  {
    var ps := Pieces(lex, Cleaned(lex, units));
    GapsAligned(ps);
    PiecesOk(lex, Cleaned(lex, units));
    PhrasesAreThose(lex, ps);
  }

  /** The words after the last phrase. */
  ghost function WordsAfter(ps: seq<Piece>): seq<string> {
    if ps == [] || ps[|ps| - 1].Phrase? then []
    else WordsAfter(ps[..|ps| - 1]) + [ps[|ps| - 1].text]
  }

  lemma {:induction false} PhrasesSnoc(ps: seq<Piece>, x: Piece)
    ensures Phrases(ps + [x]) == Phrases(ps) + if x.Phrase? then [x.text] else []
  {
    if ps == [] {
      assert ps + [x] == [x] && [x][1..] == [];
    } else {
      assert (ps + [x])[1..] == ps[1..] + [x];
      PhrasesSnoc(ps[1..], x);
      var head, tail := if ps[0].Phrase? then [ps[0].text] else [], if x.Phrase? then [x.text] else [];
      assert head + (Phrases(ps[1..]) + tail) == (head + Phrases(ps[1..])) + tail;
    }
  }

  lemma {:induction false} WordsBeforeAll(ps: seq<Piece>)
    requires Phrases(ps) == []
    ensures WordsBefore(ps) == WordsAfter(ps)
  {
    if ps != [] {
      var front, last := ps[..|ps| - 1], ps[|ps| - 1];
      assert ps == front + [last];
      PhrasesSnoc(front, last);
      WordsBeforeAll(front);
      WordsBeforeSnoc(front, last);
    }
  }

  lemma {:induction false} NoGaps(ps: seq<Piece>)
    requires Phrases(ps) == []
    ensures Gaps(ps) == []
  {
    if ps != [] {
      NoGaps(ps[1..]);
    }
  }

  lemma {:induction false} WordsBeforeSnoc(ps: seq<Piece>, x: Piece)
    ensures WordsBefore(ps + [x]) == WordsBefore(ps) + if x.Word? && Phrases(ps) == [] then [x.text] else []
  {
    if ps == [] {
      assert ps + [x] == [x] && [x][1..] == [];
    } else {
      assert (ps + [x])[1..] == ps[1..] + [x];
      WordsBeforeSnoc(ps[1..], x);
    }
  }

  lemma {:induction false} WordsAfterFirst(x: Piece, ps: seq<Piece>)
    requires Phrases(ps) != []
    ensures WordsAfter([x] + ps) == WordsAfter(ps)
  {
    var front, last := ps[..|ps| - 1], ps[|ps| - 1];
    assert ps == front + [last];
    PhrasesSnoc(front, last);
    hide Phrases;
    assert ([x] + ps)[..|ps|] == [x] + front;
    if last.Word? {
      WordsAfterFirst(x, front);
    }
  }

  lemma WordsAfterPhrase(x: Piece, ps: seq<Piece>)
    requires x.Phrase? && Phrases(ps) == []
    ensures WordsAfter([x] + ps) == WordsAfter(ps)
  {
    if ps != [] {
      var last := ps[|ps| - 1];
      assert ps == ps[..|ps| - 1] + [last];
      PhrasesSnoc(ps[..|ps| - 1], last);
      assert ([x] + ps)[..|ps|] == [x] + ps[..|ps| - 1];
      WordsAfterPhrase(x, ps[..|ps| - 1]);
    } else {
      assert [x] + ps == [x];
    }
  }

  /** A phrase closes a gap if there was one before it. */
  lemma {:induction false} GapsSnoc(ps: seq<Piece>, x: Piece)
    ensures Gaps(ps + [x]) ==
            Gaps(ps) + if x.Phrase? && Phrases(ps) != [] then [JoinWords(WordsAfter(ps))] else []
  {
    hide JoinWords;
    if ps == [] {
      assert ps + [x] == [x] && [x][1..] == [];
    } else {
      var more := ps[1..];
      assert (ps + [x])[1..] == more + [x] && [ps[0]] + more == ps;
      GapsSnoc(more, x);
      PhrasesSnoc(more, x);
      if Phrases(more) != [] {
        WordsAfterFirst(ps[0], more);
        WordsBeforeSnoc(more, x);
        assert WordsBefore(more) + [] == WordsBefore(more);
      } else if ps[0].Phrase? {
        WordsAfterPhrase(ps[0], more);
        WordsBeforeSnoc(more, x);
        WordsBeforeAll(more);
        NoGaps(more);
        assert WordsBefore(more) + [] == WordsBefore(more);
      }
    }
  }

  /** Pieces may be cut anywhere but inside a run. */
  lemma {:induction false} PiecesConcat(lex: Lexicon, a: seq<string>, b: seq<string>)
    requires a == [] || !lex.isEntity(a[|a| - 1])
    ensures Pieces(lex, a + b) == Pieces(lex, a) + Pieces(lex, b)
    decreases |a|
  {
    hide PhraseOf, WordOf, Pieces, RunLength;
    if a == [] {
      NoPieces(lex);
      assert a + b == b && [] + Pieces(lex, b) == Pieces(lex, b);
    } else {
      var n := RunLength(lex, a);
      RunOfConcat(lex, a, b);
      PiecesStep(lex, a);
      PiecesStep(lex, a + b);
      var k := if n > 0 then n else 1;
      assert (a + b)[..k] == a[..k] && (a + b)[k..] == a[k..] + b && (a + b)[0] == a[0];
      PiecesConcat(lex, a[k..], b);
    }
  }

  lemma NoPieces(lex: Lexicon)
    ensures Pieces(lex, []) == []
  {
  }

  lemma PiecesStep(lex: Lexicon, words: seq<string>)
    requires words != []
    ensures var n := RunLength(lex, words);
            Pieces(lex, words) == if n > 0 then PhraseOf(lex, words[..n]) + Pieces(lex, words[n..])
                                  else WordOf(lex, words[0]) + Pieces(lex, words[1..])
  {
  }

  lemma {:induction false} RunOfConcat(lex: Lexicon, a: seq<string>, b: seq<string>)
    requires a != [] && !lex.isEntity(a[|a| - 1])
    ensures RunLength(lex, a + b) == RunLength(lex, a)
  {
    if lex.isEntity(a[0]) {
      assert (a + b)[1..] == a[1..] + b;
      RunOfConcat(lex, a[1..], b);
    }
  }

  lemma {:induction false} WholeRun(lex: Lexicon, run: seq<string>)
    requires forall i :: 0 <= i < |run| ==> lex.isEntity(run[i])
    ensures Pieces(lex, run) == PhraseOf(lex, run)
  {
    if run != [] {
      var n := RunLength(lex, run);
      assert run[..n] == run && run[n..] == [];
    }
  }

  /** Where the scan of a sentence stands: `current` is the run being read, and all before it has been taken in. */
  ghost predicate Scanned(lex: Lexicon, words: seq<string>, ps: seq<Piece>, current: seq<string>) {
    && (forall i :: 0 <= i < |current| ==> lex.isEntity(current[i]))
    && exists before :: ScannedTo(lex, words, before, current) && ps == Pieces(lex, before)
  }

  ghost predicate ScannedTo(lex: Lexicon, words: seq<string>, before: seq<string>, current: seq<string>) {
    words == before + current && (before == [] || !lex.isEntity(before[|before| - 1]))
  }

  lemma NothingScanned(lex: Lexicon)
    ensures Scanned(lex, [], [], [])
  {
    assert ScannedTo(lex, [], [], []) && Pieces(lex, []) == [];
  }

  lemma ScanOn(lex: Lexicon, words: seq<string>, ps: seq<Piece>, current: seq<string>, word: string)
    requires Scanned(lex, words, ps, current)
    ensures if lex.isEntity(word) then Scanned(lex, words + [word], ps, current + [word])
            else Scanned(lex, words + [word], ps + PhraseOf(lex, current) + WordOf(lex, word), [])
  {
    hide PhraseOf, WordOf, Pieces;
    var before :| ScannedTo(lex, words, before, current) && ps == Pieces(lex, before);
    if lex.isEntity(word) {
      assert words + [word] == before + (current + [word]);
      assert ScannedTo(lex, words + [word], before, current + [word]);
    } else {
      RunThenWord(lex, current, word);
      PiecesConcat(lex, before, current + [word]);
      assert before + (current + [word]) == words + [word];
      assert ScannedTo(lex, words + [word], words + [word], []);
      assert ps + (PhraseOf(lex, current) + WordOf(lex, word)) == ps + PhraseOf(lex, current) + WordOf(lex, word);
    }
  }

  /** A run of entity words is the phrase of those after its leading stop words, if any are left; another word is
      said in lower case, unless nothing of it is left. */
  lemma PiecesAre(lex: Lexicon, run: seq<string>, word: string)
    requires run != [] && (forall i :: 0 <= i < |run| ==> lex.isEntity(run[i])) && !lex.isEntity(word)
    ensures (forall i :: 0 <= i < |run| ==> lex.isStop(run[i])) ==> Pieces(lex, run) == []
    ensures forall n :: 0 <= n < |run| && !lex.isStop(run[n]) && (forall i :: 0 <= i < n ==> lex.isStop(run[i])) ==>
              Pieces(lex, run) == [Phrase(JoinWords(run[n..]))]
    ensures Pieces(lex, [word]) == if word == "" then [] else [Word(lex.lower(word))]
  {
    var n := DropStopsIs(lex, run);
    assert run[..|run|] == run && run[|run|..] == [];
    assert RunLength(lex, run) == |run| && RunLength(lex, [word]) == 0;
    NoPieces(lex);
    assert [word][1..] == [] && WordOf(lex, word) + [] == WordOf(lex, word);
    assert PhraseOf(lex, run) + [] == PhraseOf(lex, run);
    hide JoinWords, DropStops;
    PiecesStep(lex, run);
    PiecesStep(lex, [word]);
    assert DropStops(lex, run) == [] <==> n == |run|;
  }

  lemma RunThenWord(lex: Lexicon, run: seq<string>, word: string)
    requires !lex.isEntity(word) && forall i :: 0 <= i < |run| ==> lex.isEntity(run[i])
    ensures Pieces(lex, run + [word]) == PhraseOf(lex, run) + WordOf(lex, word)
  {
    var n, words := RunLength(lex, run + [word]), run + [word];
    assert words[|run|] == word;
    assert forall i :: 0 <= i < |run| ==> words[i] == run[i];
    assert n == |run|;
    assert words[..n] == run && words[n..] == [word];
    assert Pieces(lex, [word]) == WordOf(lex, word) by {
      assert [word][1..] == [];
    }
  }

  lemma ScanEnds(lex: Lexicon, words: seq<string>, ps: seq<Piece>, current: seq<string>)
    requires Scanned(lex, words, ps, current)
    ensures ps + PhraseOf(lex, current) == Pieces(lex, words)
  {
    var before :| ScannedTo(lex, words, before, current) && ps == Pieces(lex, before);
    PiecesConcat(lex, before, current);
    WholeRun(lex, current);
  }

  /** What has been collected from the pieces taken in; the gap is kept from the first phrase on. */
  ghost predicate Collected(ps: seq<Piece>, entities: seq<string>, gaps: seq<string>, gap: seq<string>) {
    entities == Phrases(ps) && gaps == Gaps(ps) && gap == if entities == [] then [] else WordsAfter(ps)
  }

  lemma CollectNext(ps: seq<Piece>, entities: seq<string>, gaps: seq<string>, gap: seq<string>, x: Piece)
    requires Collected(ps, entities, gaps, gap)
    ensures if x.Phrase? then
              Collected(ps + [x], entities + [x.text], if entities == [] then gaps else gaps + [JoinWords(gap)], [])
            else Collected(ps + [x], entities, gaps, if entities == [] then gap else gap + [x.text])
  {
    hide JoinWords, Gaps, Phrases;
    PhrasesSnoc(ps, x);
    GapsSnoc(ps, x);
    assert (ps + [x])[..|ps|] == ps;
    assert entities + [] == entities && gaps + [] == gaps;
  }

  /** Takes in the phrase that a finished run makes, if any. */
  method FinishEntity(lex: Lexicon, current: seq<string>, entities: seq<string>, gaps: seq<string>, gap: seq<string>,
                      ghost ps: seq<Piece>)
      returns (entities': seq<string>, gaps': seq<string>, gap': seq<string>)
    requires Collected(ps, entities, gaps, gap)
    ensures Collected(ps + PhraseOf(lex, current), entities', gaps', gap')
  {
    hide Collected;
    entities', gaps', gap' := entities, gaps, gap;
    var phrase := DropStops(lex, current);
    assert ps + [] == ps;
    if phrase != [] {
      CollectNext(ps, entities, gaps, gap, Phrase(JoinWords(phrase)));
      if entities != [] {
        gaps' := gaps + [JoinWords(gap)];
      }
      entities', gap' := entities + [JoinWords(phrase)], [];
    }
  }

  /** Scans the units of a sentence: runs of entity words become phrases, other words the gaps between them. */
  method ParseSentence(lex: Lexicon, units: seq<string>) returns (p: SentenceParse)
    ensures p == Parse(lex, units)
  {
    hide Collected, Scanned, Pieces, Phrases, Gaps, PhraseOf;
    ghost var words, ps: seq<Piece> := Cleaned(lex, units), [];
    var entities: seq<string>, gaps: seq<string>, current: seq<string>, gap: seq<string> := [], [], [], [];
    NothingScanned(lex);
    NothingCollected();
    assert words[..0] == [];
    for n := 0 to |units|
      invariant Scanned(lex, words[..n], ps, current) && Collected(ps, entities, gaps, gap)
      invariant entities == [] ==> gap == []
    {
      var tok := lex.clean(units[n]);
      TakeSnoc(words, n);
      ScanOn(lex, words[..n], ps, current, tok);
      if lex.isEntity(tok) {
        current := current + [tok];
      } else {
        entities, gaps, gap := FinishEntity(lex, current, entities, gaps, gap, ps);
        ps, current := ps + PhraseOf(lex, current), [];
        if tok != "" {
          CollectNext(ps, entities, gaps, gap, Word(lex.lower(tok)));
          if entities != [] {
            gap := gap + [lex.lower(tok)];
          }
        }
        assert ps + [] == ps;
        ps := ps + WordOf(lex, tok);
        GapOnlyAfterPhrase(ps, entities, gaps, gap);
      }
    }
    assert words[..|units|] == words;
    ScanEnds(lex, words, ps, current);
    entities, gaps, gap := FinishEntity(lex, current, entities, gaps, gap, ps);
    CollectedAll(ps + PhraseOf(lex, current), entities, gaps, gap);
    return SentenceParse(entities, gaps);
  }

  lemma NothingCollected()
    ensures Collected([], [], [], [])
  {
  }

  lemma GapOnlyAfterPhrase(ps: seq<Piece>, entities: seq<string>, gaps: seq<string>, gap: seq<string>)
    requires Collected(ps, entities, gaps, gap)
    ensures entities == [] ==> gap == []
  {
  }

  lemma CollectedAll(ps: seq<Piece>, entities: seq<string>, gaps: seq<string>, gap: seq<string>)
    requires Collected(ps, entities, gaps, gap)
    ensures entities == Phrases(ps) && gaps == Gaps(ps)
  {
  }

  /** The relation that the text between two entities names. */
  function RelationFor(gap: string): EdgeKind {
    if Contains(gap, "created by") || Contains(gap, "authored by") || Contains(gap, "developed by")
       || Contains(gap, "written by") || Contains(gap, "built by") || Contains(gap, "made by") then CreatedBy
    else if Contains(gap, "depend") || Contains(gap, "require") || Contains(gap, "needs") then DependsOn
    else if Contains(gap, "implement") || Contains(gap, "provides") || Contains(gap, "realizes") then Implements
    else if Contains(gap, "reference") || Contains(gap, "uses") || Contains(gap, "calls")
            || Contains(gap, "cites") || Contains(gap, "invokes") then References
    else RelatedTo
  }
  /** The phrases that name a relation. */
  ghost function PhrasesFor(kind: EdgeKind): set<string> {
    match kind
    case CreatedBy => {"created by", "authored by", "developed by", "written by", "built by", "made by"}
    case DependsOn => {"depend", "require", "needs"}
    case Implements => {"implement", "provides", "realizes"}
    case References => {"reference", "uses", "calls", "cites", "invokes"}
    case _ => {}
  }

  ghost predicate Mentions(gap: string, kind: EdgeKind) {
    exists phrase :: phrase in PhrasesFor(kind) && OccursIn(phrase, gap)
  }

  /** The text names authorship before dependency, that before implementation, and that before reference, wherever in it
      their phrases stand; a text without any of them only relates. */
  lemma RelationMeans(gap: string)
    ensures RelationFor(gap) == CreatedBy <==> Mentions(gap, CreatedBy)
    ensures RelationFor(gap) == DependsOn <==> Mentions(gap, DependsOn) && !Mentions(gap, CreatedBy)
    ensures RelationFor(gap) == Implements <==>
            Mentions(gap, Implements) && !Mentions(gap, DependsOn) && !Mentions(gap, CreatedBy)
    ensures RelationFor(gap) == References <==>
            && Mentions(gap, References) && !Mentions(gap, Implements) && !Mentions(gap, DependsOn)
            && !Mentions(gap, CreatedBy)
    ensures RelationFor(gap) == RelatedTo <==>
            forall kind :: kind in {CreatedBy, DependsOn, Implements, References} ==> !Mentions(gap, kind)
  {
    hide Contains, OccursIn, Mentions;
    MentionsWhat(gap);
    forall phrase
      ensures Contains(gap, phrase) <==> OccursIn(phrase, gap)
    {
      ContainsIsOccurs(gap, phrase);
    }
  }

  lemma MentionsWhat(gap: string)
    ensures Mentions(gap, CreatedBy) <==>
            || OccursIn("created by", gap) || OccursIn("authored by", gap) || OccursIn("developed by", gap)
            || OccursIn("written by", gap) || OccursIn("built by", gap) || OccursIn("made by", gap)
    ensures Mentions(gap, DependsOn) <==>
            OccursIn("depend", gap) || OccursIn("require", gap) || OccursIn("needs", gap)
    ensures Mentions(gap, Implements) <==>
            OccursIn("implement", gap) || OccursIn("provides", gap) || OccursIn("realizes", gap)
    ensures Mentions(gap, References) <==>
            || OccursIn("reference", gap) || OccursIn("uses", gap) || OccursIn("calls", gap)
            || OccursIn("cites", gap) || OccursIn("invokes", gap)
  {
    hide OccursIn;
  }
}
