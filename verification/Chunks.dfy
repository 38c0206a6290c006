/** Cutting a text into chunks (memory/src/chunk.rs): nothing but white space is lost or added, sizes are bounded,
    and an overlap window does not open inside a word. */
module Chunks {
  import opened Results
  import opened Sequences
  import opened Text

  // ---------------------------------------------------------------------------
  // Text without its white space
  // ---------------------------------------------------------------------------

  ghost function Strip(s: string): string {
    if s == "" then ""
    else Strip(s[..|s| - 1]) + if IsWhitespace(s[|s| - 1]) then "" else [s[|s| - 1]]
  }

  ghost function Flat(chunks: seq<string>): string {
    if chunks == [] then "" else Flat(chunks[..|chunks| - 1]) + chunks[|chunks| - 1]
  }

  /** What the chunks say together. */
  ghost function Content(chunks: seq<string>): string {
    Strip(Flat(chunks))
  }

  lemma {:induction false} StripConcat(a: string, b: string)
    ensures Strip(a + b) == Strip(a) + Strip(b)
  {
    if b == "" {
      assert a + b == a;
    } else {
      StripConcat(a, b[..|b| - 1]);
      assert (a + b)[..|a + b| - 1] == a + b[..|b| - 1];
    }
  }

  lemma ContentSnoc(chunks: seq<string>, c: string)
    ensures Content(chunks + [c]) == Content(chunks) + Strip(c)
  {
    assert (chunks + [c])[..|chunks|] == chunks;
    StripConcat(Flat(chunks), c);
  }

  lemma {:induction false} ContentConcat(a: seq<string>, b: seq<string>)
    ensures Content(a + b) == Content(a) + Content(b)
  {
    hide Content;
    if b == [] {
      NoContent();
      assert a + b == a;
    } else {
      var front, last := b[..|b| - 1], b[|b| - 1];
      ContentConcat(a, front);
      ContentSnoc(a + front, last);
      ContentSnoc(front, last);
      assert a + b == a + front + [last] && b == front + [last];
    }
  }

  lemma NoContent()
    ensures Content([]) == "" && Strip("") == ""
  {
  }

  lemma ContentOne(c: string)
    ensures Content([c]) == Strip(c)
  {
    NoContent();
    ContentSnoc([], c);
    assert [] + [c] == [c];
  }

  lemma StripBlank(c: char)
    requires IsWhitespace(c)
    ensures Strip([c]) == ""
  {
    assert [c][..0] == "";
  }

  // ---------------------------------------------------------------------------
  // Trimming
  // ---------------------------------------------------------------------------

  lemma {:induction false} StripBlanks(s: string)
    requires AllBlank(s)
    ensures Strip(s) == ""
  {
    if s != "" {
      StripBlanks(s[..|s| - 1]);
    }
  }

  lemma TrimFacts(s: string)
    ensures Strip(Trim(s)) == Strip(s) && |Trim(s)| <= |s| && (Trim(s) != "" ==> Tidy(Trim(s)))
  {
    hide Strip, IsWhitespace, TrimStart, TrimEnd;
    var a, b := TrimIsPart(s);
    StripBlanks(a);
    StripBlanks(b);
    StripConcat(a + Trim(s), b);
    StripConcat(a, Trim(s));
  }

  lemma TidyJoin(a: string, glue: string, b: string)
    requires Tidy(a) && Tidy(b)
    ensures Tidy(a + glue + b)
  {
    hide IsWhitespace;
    assert (a + glue + b)[0] == a[0];
  }

  ghost predicate AllTidy(chunks: seq<string>) {
    forall i :: 0 <= i < |chunks| ==> Tidy(chunks[i])
  }

  // ---------------------------------------------------------------------------
  // Paragraphs, windows, words
  // ---------------------------------------------------------------------------

  /** The piece trimmed, unless nothing is left of it. */
  function Tidied(s: string): seq<string> {
    if Trim(s) == "" then [] else [Trim(s)]
  }

  function Paragraphs(text: string): seq<string>
    decreases |text|
  {
    var cut := SplitOnce(text, "\n\n");
    if cut.None? then Tidied(text) else Tidied(cut.value.0) + Paragraphs(cut.value.1)
  }

  lemma TidiedFacts(s: string)
    ensures AllTidy(Tidied(s)) && Content(Tidied(s)) == Strip(s)
  {
    hide Content, Strip, Trim, Tidy;
    TrimFacts(s);
    NoContent();
    ContentOne(Trim(s));
  }

  lemma {:induction false} ParagraphsFacts(text: string)
    ensures AllTidy(Paragraphs(text)) && Content(Paragraphs(text)) == Strip(text)
    decreases |text|
  {
    hide Content, Strip, Tidied, Tidy;
    var cut := SplitOnce(text, "\n\n");
    if cut.None? {
      TidiedFacts(text);
    } else {
      var (a, b) := cut.value;
      TidiedFacts(a);
      ParagraphsFacts(b);
      ContentConcat(Tidied(a), Paragraphs(b));
      StripConcat(a + "\n\n", b);
      StripConcat(a, "\n\n");
      LineEndsAreBlank();
    }
  }

  /** Paragraphs are what stands between empty lines: a text without one is a single paragraph, if it is not blank, and
      the first empty line parts the first paragraph from the others. */
  lemma ParagraphsAre(text: string)
    ensures !OccursIn("\n\n", text) ==> Paragraphs(text) == Tidied(text)
    ensures forall i :: OccursAt("\n\n", text, i) && (forall j :: OccursAt("\n\n", text, j) ==> i <= j) ==>
              Paragraphs(text) == Tidied(text[..i]) + Paragraphs(text[i + 2..])
  {
    hide Tidied;
    SplitOnceIsFirst(text, "\n\n");
    var cut := SplitOnce(text, "\n\n");
    if cut.Some? {
      var (a, b) := cut.value;
      assert text[..|a|] == a && text[|a| + 2..] == b;
    }
  }

  lemma LineEndsAreBlank()
    ensures Strip("\n\n") == "" && Strip(" ") == ""
  {
    assert "\n\n"[..1] == "\n" && "\n"[..0] == "" && " "[..0] == "";
  }

  /** Pieces of `n` characters, the last one maybe shorter. */
  function Windows(s: string, n: nat): seq<string>
    requires n > 0
  {
    if s == "" then [] else if |s| <= n then [s] else [s[..n]] + Windows(s[n..], n)
  }

  function NotBlank(pieces: seq<string>): seq<string> {
    if pieces == [] then []
    else (if Trim(pieces[0]) == "" then [] else [pieces[0]]) + NotBlank(pieces[1..])
  }

  lemma {:induction false} WindowsFacts(s: string, n: nat)
    requires n > 0
    ensures Content(Windows(s, n)) == Strip(s)
    ensures forall i :: 0 <= i < |Windows(s, n)| ==> 0 < |Windows(s, n)[i]| <= n
    ensures forall i :: 0 <= i < |Windows(s, n)| - 1 ==> |Windows(s, n)[i]| == n
    ensures forall i, j :: 0 <= i < |Windows(s, n)| && 0 <= j < |Windows(s, n)[i]| ==> Windows(s, n)[i][j] in s
  {
    hide Content, Strip;
    if s == "" {
      NoContent();
    } else if |s| <= n {
      ContentOne(s);
    } else {
      WindowsFacts(s[n..], n);
      ContentConcat([s[..n]], Windows(s[n..], n));
      ContentOne(s[..n]);
      StripConcat(s[..n], s[n..]);
      assert s == s[..n] + s[n..];
    }
  }

  /** One after the other, the windows are the text. */
  lemma {:induction false} WindowsCover(s: string, n: nat)
    requires n > 0
    ensures Flat(Windows(s, n)) == s
  {
    if s == "" {
    } else if |s| <= n {
      FlatFirst(s, []);
    } else {
      WindowsCover(s[n..], n);
      FlatFirst(s[..n], Windows(s[n..], n));
      assert s == s[..n] + s[n..];
    }
  }

  lemma {:induction false} FlatFirst(first: string, rest: seq<string>)
    ensures Flat([first] + rest) == first + Flat(rest)
  {
    var all := [first] + rest;
    if rest == [] {
      assert all[..|all| - 1] == [] && all[|all| - 1] == first;
    } else {
      FlatFirst(first, rest[..|rest| - 1]);
      assert all[..|all| - 1] == [first] + rest[..|rest| - 1];
    }
  }

  lemma {:induction false} NotBlankFacts(pieces: seq<string>, n: nat)
    requires forall i :: 0 <= i < |pieces| ==> |pieces[i]| <= n
    ensures Content(NotBlank(pieces)) == Content(pieces)
    ensures forall i :: 0 <= i < |NotBlank(pieces)| ==> |NotBlank(pieces)[i]| <= n && Strip(NotBlank(pieces)[i]) != ""
  {
    hide Content, Strip, Trim;
    if pieces != [] {
      var first := pieces[0];
      NotBlankFacts(pieces[1..], n);
      TrimFacts(first);
      NoContent();
      ContentOne(first);
      ContentConcat([first], pieces[1..]);
      assert pieces == [first] + pieces[1..];
      ContentConcat([first], NotBlank(pieces[1..]));
      if Trim(first) != "" {
        TidyHasContent(Trim(first));
      }
      assert [] + NotBlank(pieces[1..]) == NotBlank(pieces[1..]);
    }
  }

  lemma TidyHasContent(s: string)
    requires Tidy(s)
    ensures Strip(s) != ""
  {
  }

  /** The runs of characters that are not white space. */
  function Words(s: string): seq<string>
    decreases |s|
  {
    if s == "" then []
    else if IsWhitespace(s[0]) then Words(s[1..])
    else var n := RunLength(s); [s[..n]] + Words(s[n..])
  }

  function RunLength(s: string): (n: nat)
    requires s != "" && !IsWhitespace(s[0])
    ensures 0 < n <= |s| && forall i :: 0 <= i < n ==> !IsWhitespace(s[i])
  {
    if |s| > 1 && !IsWhitespace(s[1]) then 1 + RunLength(s[1..]) else 1
  }

  /** White space parts words, and what has none is one word: two texts around a white-space character have the words of
      the one and then those of the other. */
  lemma {:induction false} WordsAreRuns(a: string, c: char, b: string)
    requires IsWhitespace(c)
    ensures Words(a + [c] + b) == Words(a) + Words(b)
    ensures Solid(a) ==> Words(a) == [a]
    decreases |a|
  {
    hide IsWhitespace, RunLength;
    var s := a + [c] + b;
    if a == "" {
      assert s == [c] + b && s[1..] == b;
    } else if IsWhitespace(a[0]) {
      WordsAreRuns(a[1..], c, b);
      assert s[1..] == a[1..] + [c] + b;
    } else {
      RunEndsIn(a, c, b);
      WordsAreRuns(a[RunLength(a)..], c, b);
      FirstWord(a, s, RunLength(a), a[RunLength(a)..] + [c] + b);
      assert Solid(a) ==> a[..|a|] == a && a[|a|..] == "";
    }
  }

  lemma FirstWord(a: string, s: string, n: nat, rest: string)
    requires a != "" && s != "" && a[0] == s[0] && !IsWhitespace(a[0]) && n == RunLength(a) == RunLength(s)
    requires n <= |s| && s[..n] == a[..n] && s[n..] == rest
    ensures Words(s) == [a[..n]] + Words(rest) && Words(a) == [a[..n]] + Words(a[n..])
  {
    hide IsWhitespace, RunLength;
  }

  lemma {:induction false} RunEndsIn(a: string, c: char, b: string)
    requires a != "" && !IsWhitespace(a[0]) && IsWhitespace(c)
    ensures RunLength(a + [c] + b) == RunLength(a) && (Solid(a) ==> RunLength(a) == |a|)
    ensures var (s, n) := (a + [c] + b, RunLength(a));
            s[0] == a[0] && s[..n] == a[..n] && s[n..] == a[n..] + [c] + b
    decreases |a|
  {
    hide IsWhitespace;
    var s := a + [c] + b;
    assert s[1..] == a[1..] + [c] + b;
    if |a| > 1 && !IsWhitespace(a[1]) {
      RunEndsIn(a[1..], c, b);
    }
  }

  ghost predicate Solid(s: string) {
    s != "" && forall i :: 0 <= i < |s| ==> !IsWhitespace(s[i])
  }

  lemma {:induction false} WordsFacts(s: string)
    ensures Content(Words(s)) == Strip(s)
    ensures forall i :: 0 <= i < |Words(s)| ==> Solid(Words(s)[i])
    decreases |s|
  {
    hide Content, Strip, IsWhitespace;
    if s == "" {
      NoContent();
    } else if IsWhitespace(s[0]) {
      WordsFacts(s[1..]);
      StripConcat([s[0]], s[1..]);
      StripBlank(s[0]);
      assert s == [s[0]] + s[1..];
    } else {
      var n := RunLength(s);
      WordsFacts(s[n..]);
      ContentConcat([s[..n]], Words(s[n..]));
      ContentOne(s[..n]);
      StripConcat(s[..n], s[n..]);
      assert s == s[..n] + s[n..];
    }
  }

  // ---------------------------------------------------------------------------
  // Sentences
  // ---------------------------------------------------------------------------

  predicate IsEnd(c: char)
    ensures IsEnd(c) <==> c in ".!?\U{3002}"
  {
    c == '.' || c == '!' || c == '?' || c == '\U{3002}'
  }

  /** No sentence ends before the last character. */
  ghost predicate OneSentence(s: string) {
    forall j :: 0 <= j < |s| - 1 ==> !IsEnd(s[j])
  }

  lemma EndsAreInk()
    ensures forall c :: IsEnd(c) ==> !IsWhitespace(c)
  {
  }

  lemma TrimSentence(s: string)
    requires OneSentence(s)
    ensures OneSentence(Trim(s))
    ensures s != "" && !IsWhitespace(s[|s| - 1]) ==> Trim(s) != "" && Trim(s)[|Trim(s)| - 1] == s[|s| - 1]
  {
    hide IsWhitespace, IsEnd, TrimStart, TrimEnd, Strip;
    var t := TrimStart(s);
    var a := TrimStartIsPart(s);
    var b := TrimEndIsPart(t);
    if s != "" && !IsWhitespace(s[|s| - 1]) {
      NotAllTrimmed(s);
      InkStays(t);
    }
  }

  lemma {:induction false} NotAllTrimmed(s: string)
    requires s != "" && !IsWhitespace(s[|s| - 1])
    ensures TrimStart(s) != "" && TrimStart(s)[|TrimStart(s)| - 1] == s[|s| - 1]
  {
    hide IsWhitespace;
    if IsWhitespace(s[0]) {
      NotAllTrimmed(s[1..]);
    }
  }

  lemma InkStays(s: string)
    requires s != "" && !IsWhitespace(s[|s| - 1])
    ensures TrimEnd(s) == s
  {
  }

  /** How many characters come before the first sentence end; all of them when there is none. */
  ghost function EndAt(text: string): (n: nat)
    ensures n <= |text| && (forall i :: 0 <= i < n ==> !IsEnd(text[i])) && (n < |text| ==> IsEnd(text[n]))
  {
    if text == "" || IsEnd(text[0]) then 0 else 1 + EndAt(text[1..])
  }

  /** The sentences of a text: up to and with each sentence end, and what is left if it is not blank. */
  ghost function SentenceList(text: string): seq<string>
    decreases |text|
  {
    var n := EndAt(text);
    if n < |text| then [Trim(text[..n + 1])] + SentenceList(text[n + 1..])
    else if Trim(text) == "" then []
    else [Trim(text)]
  }

  lemma SentenceCut(buf: string, c: char, rest: string)
    requires (forall j :: 0 <= j < |buf| ==> !IsEnd(buf[j])) && IsEnd(c)
    ensures SentenceList(buf + [c] + rest) == [Trim(buf + [c])] + SentenceList(rest)
  {
    hide IsEnd, Trim;
    var text := buf + [c] + rest;
    assert text[|buf|] == c;
    assert forall j :: 0 <= j < |buf| ==> text[j] == buf[j];
    assert EndAt(text) == |buf|;
    assert text[..|buf| + 1] == buf + [c] && text[|buf| + 1..] == rest;
  }

  lemma SentenceLeft(buf: string)
    requires forall j :: 0 <= j < |buf| ==> !IsEnd(buf[j])
    ensures SentenceList(buf) == if Trim(buf) == "" then [] else [Trim(buf)]
  {
  }

  /** Cuts after every sentence end. */
  method Sentences(text: string) returns (out: seq<string>)
    ensures out == SentenceList(text) && AreSentences(text, out)
  {
    hide *;
    out := [];
    var buf := "";
    NothingCut(text);
    for i := 0 to |text|
      invariant SentencesCut(text, i, out, buf)
    {
      NextCharacter(text, i, out, buf);
      buf := buf + [text[i]];
      if IsEnd(text[i]) {
        out, buf := out + [Trim(buf)], "";
      }
    }
    LastSentence(text, out, buf);
    if Trim(buf) != "" {
      out := out + [Trim(buf)];
    }
  }

  /** All of the text, cut after every sentence end and nowhere else. */
  ghost predicate AreSentences(text: string, out: seq<string>) {
    && AllTidy(out) && Content(out) == Strip(text)
    && (forall i :: 0 <= i < |out| ==> OneSentence(out[i]))
    && forall i :: 0 <= i < |out| - 1 ==> out[i] != "" && IsEnd(out[i][|out[i]| - 1])
  }

  /** Of the text, the first `n` characters are in `out`, which has whole sentences, and in `buf`, which has no end. */
  ghost predicate SentencesCut(text: string, n: nat, out: seq<string>, buf: string) {
    && n <= |text| && AllTidy(out) && Content(out) + Strip(buf) == Strip(text[..n])
    && (forall j :: 0 <= j < |out| ==> OneSentence(out[j]) && out[j] != "" && IsEnd(out[j][|out[j]| - 1]))
    && (forall j :: 0 <= j < |buf| ==> !IsEnd(buf[j]))
    && out + SentenceList(buf + text[n..]) == SentenceList(text)
  }

  lemma NothingCut(text: string)
    ensures SentencesCut(text, 0, [], "")
  {
    hide SentenceList;
    NoContent();
    assert "" + text[0..] == text && [] + SentenceList(text) == SentenceList(text) && text[..0] == "";
  }

  lemma NextCharacter(text: string, n: nat, out: seq<string>, buf: string)
    requires SentencesCut(text, n, out, buf) && n < |text|
    ensures var more := buf + [text[n]];
            if IsEnd(text[n]) then SentencesCut(text, n + 1, out + [Trim(more)], "")
            else SentencesCut(text, n + 1, out, more)
  {
    hide Content, Strip, Trim, Tidy, IsWhitespace, IsEnd, SentenceList, OneSentence;
    var c, rest := text[n], text[n + 1..];
    var more := buf + [c];
    assert text[..n + 1] == text[..n] + [c] && text[n..] == [c] + rest;
    StripConcat(text[..n], [c]);
    StripConcat(buf, [c]);
    assert Content(out) + (Strip(buf) + Strip([c])) == Content(out) + Strip(buf) + Strip([c]);
    assert buf + text[n..] == more + rest;
    if IsEnd(c) {
      NoContent();
      EndsAreInk();
      SentenceIsOne(buf, c);
      TrimSentence(more);
      TrimFacts(more);
      ContentSnoc(out, Trim(more));
      SentenceCut(buf, c, rest);
      assert "" + rest == rest && Content(out + [Trim(more)]) + "" == Content(out + [Trim(more)]);
      assert out + ([Trim(more)] + SentenceList(rest)) == out + [Trim(more)] + SentenceList(rest);
    }
  }

  lemma SentenceIsOne(buf: string, c: char)
    requires forall j :: 0 <= j < |buf| ==> !IsEnd(buf[j])
    ensures OneSentence(buf + [c])
  {
  }

  lemma LastSentence(text: string, out: seq<string>, buf: string)
    requires SentencesCut(text, |text|, out, buf)
    ensures Trim(buf) == "" ==> out == SentenceList(text) && AreSentences(text, out)
    ensures Trim(buf) != "" ==> out + [Trim(buf)] == SentenceList(text) && AreSentences(text, out + [Trim(buf)])
  {
    AllCut(text, out, buf);
    SentenceLeft(buf);
    NoEndIsOne(buf);
    TrimSentence(buf);
    TrimFacts(buf);
    hide Content, Strip, Trim, Tidy, IsWhitespace, SentenceList, OneSentence, SentencesCut, AllTidy, AreSentences;
    if Trim(buf) == "" {
      assert Content(out) + "" == Content(out) && out + [] == out;
      AllWhole(text, out);
    } else {
      AllWholeButLast(text, out, Trim(buf));
    }
  }

  lemma AllWhole(text: string, out: seq<string>)
    requires AllTidy(out) && Content(out) == Strip(text)
    requires forall j :: 0 <= j < |out| ==> OneSentence(out[j]) && out[j] != "" && IsEnd(out[j][|out[j]| - 1])
    ensures AreSentences(text, out)
  {
  }

  lemma AllWholeButLast(text: string, out: seq<string>, last: string)
    requires AllTidy(out) && Tidy(last) && last != "" && Content(out) + Strip(last) == Strip(text)
    requires forall j :: 0 <= j < |out| ==> OneSentence(out[j]) && out[j] != "" && IsEnd(out[j][|out[j]| - 1])
    requires OneSentence(last)
    ensures AreSentences(text, out + [last])
  {
    hide Content, Strip, Tidy, IsEnd, OneSentence;
    ContentSnoc(out, last);
  }

  lemma AllCut(text: string, out: seq<string>, buf: string)
    requires SentencesCut(text, |text|, out, buf)
    ensures AllTidy(out) && Content(out) + Strip(buf) == Strip(text) && out + SentenceList(buf) == SentenceList(text)
    ensures forall j :: 0 <= j < |out| ==> OneSentence(out[j]) && out[j] != "" && IsEnd(out[j][|out[j]| - 1])
    ensures forall j :: 0 <= j < |buf| ==> !IsEnd(buf[j])
  {
    hide Content, Strip, Tidy, IsEnd, SentenceList, OneSentence;
    assert text[..|text|] == text && buf + text[|text|..] == buf;
  }

  lemma NoEndIsOne(buf: string)
    requires forall j :: 0 <= j < |buf| ==> !IsEnd(buf[j])
    ensures OneSentence(buf)
  {
  }

  // ---------------------------------------------------------------------------
  // Recursive splitting
  // ---------------------------------------------------------------------------

  ghost predicate Within(chunks: seq<string>, n: nat) {
    forall i :: 0 <= i < |chunks| ==> |chunks[i]| <= n
  }

  lemma SolidIsTidy(s: string)
    requires Solid(s)
    ensures Tidy(s) && s != ""
  {
  }

  lemma WindowsOfWord(w: string, n: nat)
    requires Solid(w) && n > 0
    ensures AllTidy(Windows(w, n)) && Within(Windows(w, n), n) && Content(Windows(w, n)) == Strip(w)
  {
    hide Content, Strip, IsWhitespace;
    WindowsFacts(w, n);
  }

  lemma StripJoin(a: string, glue: string, b: string)
    requires glue == " " || glue == "\n\n"
    ensures Strip(a + glue + b) == Strip(a) + Strip(b)
  {
    hide Strip;
    LineEndsAreBlank();
    StripConcat(a + glue, b);
    StripConcat(a, glue);
  }

  /** The buffer with one more piece, glued on unless it is the first. */
  function Glued(buf: string, glue: string, piece: string): string {
    if buf == "" then piece else buf + glue + piece
  }

  lemma GluedFacts(out: seq<string>, buf: string, glue: string, piece: string)
    requires (glue == " " || glue == "\n\n") && (buf == "" || Tidy(buf)) && Tidy(piece)
    ensures Tidy(Glued(buf, glue, piece)) && Glued(buf, glue, piece) != ""
    ensures Content(out) + Strip(Glued(buf, glue, piece)) == Content(out) + Strip(buf) + Strip(piece)
  {
    NoContent();
    hide Content, Strip, IsWhitespace;
    if buf != "" {
      TidyJoin(buf, glue, piece);
      StripJoin(buf, glue, piece);
    } else {
      assert Content(out) + "" == Content(out);
    }
  }

  /** Words packed toward the target, one atom after the other; a word too long is cut into windows. */
  ghost function WordAtoms(words: seq<string>, target: nat): seq<string>
    requires target > 0
    decreases |words|, 0
  {
    if words == [] then []
    else if |words[0]| > target then Windows(words[0], target) + WordAtoms(words[1..], target)
    else Packing(words[0], words[1..], target)
  }

  /** The atom that is being packed takes in words for as long as they fit. */
  ghost function Packing(buf: string, words: seq<string>, target: nat): seq<string>
    requires target > 0
    decreases |words|, 1
  {
    if words != [] && |buf| + 1 + |words[0]| <= target then Packing(buf + " " + words[0], words[1..], target)
    else [buf] + WordAtoms(words, target)
  }

  /** What becomes of the words still to come. */
  ghost function ToCome(wbuf: string, words: seq<string>, target: nat): seq<string>
    requires target > 0
  {
    if wbuf == "" then WordAtoms(words, target) else Packing(wbuf, words, target)
  }

  /** A sentence too long for one atom: its words packed, and words too long cut into windows. */
  method AtomizeSentence(sent: string, target: nat) returns (atoms: seq<string>)
    requires target > 0
    ensures AllTidy(atoms) && Within(atoms, target) && Content(atoms) == Strip(sent)
    ensures atoms == WordAtoms(Words(sent), target)
  {
    hide WordsPacked, Words, Windows, Content, Strip, WordAtoms;
    atoms := [];
    var words := Words(sent);
    WordsFacts(sent);
    NothingPacked(words, target);
    var wbuf := "";
    for i := 0 to |words|
      invariant WordsPacked(words, i, atoms, wbuf, target)
    {
      var w := words[i];
      if |w| > target {
        WordCut(words, i, atoms, wbuf, target);
        if wbuf != "" {
          atoms, wbuf := atoms + [wbuf], "";
        }
        atoms := atoms + Windows(w, target);
        continue;
      }
      WordTaken(words, i, atoms, wbuf, target);
      if wbuf != "" && |wbuf| + 1 + |w| > target {
        atoms, wbuf := atoms + [wbuf], "";
      }
      wbuf := Glued(wbuf, " ", w);
    }
    AllPacked(words, atoms, wbuf, target);
    if wbuf != "" {
      atoms := atoms + [wbuf];
    }
  }

  /** Of the words, the first `n` are in `atoms` and `wbuf`, and the rest goes on from there. */
  ghost predicate WordsPacked(words: seq<string>, n: nat, atoms: seq<string>, wbuf: string, target: nat) {
    && target > 0 && n <= |words| && (forall i :: 0 <= i < |words| ==> Solid(words[i]))
    && SmallTidy(atoms, target) && (wbuf == "" || Tidy(wbuf)) && |wbuf| <= target
    && Content(atoms) + Strip(wbuf) == Content(words[..n])
    && atoms + ToCome(wbuf, words[n..], target) == WordAtoms(words, target)
  }

  lemma NothingPacked(words: seq<string>, target: nat)
    requires target > 0 && forall i :: 0 <= i < |words| ==> Solid(words[i])
    ensures WordsPacked(words, 0, [], "", target)
  {
    hide Solid;
    NoContent();
    assert words[0..] == words && words[..0] == [];
    assert [] + ToCome("", words, target) == WordAtoms(words, target);
  }

  lemma WordCut(words: seq<string>, n: nat, atoms: seq<string>, wbuf: string, target: nat)
    requires WordsPacked(words, n, atoms, wbuf, target) && n < |words| && |words[n]| > target
    ensures WordsPacked(words, n + 1, (if wbuf != "" then atoms + [wbuf] else atoms) + Windows(words[n], target), "",
                        target)
  {
    hide Content, Strip, Tidy, Solid, Windows, ToCome, SmallTidy;
    NoContent();
    var w, more := words[n], Windows(words[n], target);
    NextOf(words, n);
    SolidIsTidy(w);
    NextWord(wbuf, w, words[n + 1..], target);
    ContentSnoc(words[..n], w);
    ContentSnoc(atoms, wbuf);
    SmallTidySnoc(atoms, wbuf, target);
    WindowsOfWord(w, target);
    var flushed := if wbuf != "" then atoms + [wbuf] else atoms;
    ContentConcat(flushed, more);
    SmallTidyConcat(flushed, more, target);
    var rest := ToCome("", words[n + 1..], target);
    Regroup(atoms, if wbuf == "" then [] else [wbuf], more, rest);
    assert atoms + [] == atoms;
    assert Content(flushed) == Content(words[..n]) && Content(flushed + more) + "" == Content(flushed + more);
  }

  lemma WordTaken(words: seq<string>, n: nat, atoms: seq<string>, wbuf: string, target: nat)
    requires WordsPacked(words, n, atoms, wbuf, target) && n < |words| && |words[n]| <= target
    ensures if wbuf != "" && |wbuf| + 1 + |words[n]| > target
            then WordsPacked(words, n + 1, atoms + [wbuf], Glued("", " ", words[n]), target)
            else WordsPacked(words, n + 1, atoms, Glued(wbuf, " ", words[n]), target)
  {
    hide Content, Strip, Tidy, Solid, ToCome, SmallTidy;
    var w := words[n];
    NextOf(words, n);
    SolidIsTidy(w);
    NextWord(wbuf, w, words[n + 1..], target);
    ContentSnoc(words[..n], w);
    ContentSnoc(atoms, wbuf);
    SmallTidySnoc(atoms, wbuf, target);
    GluedFacts(atoms, wbuf, " ", w);
    if wbuf != "" && |wbuf| + 1 + |w| > target {
      var rest := ToCome(w, words[n + 1..], target);
      assert atoms + [wbuf] + rest == atoms + ([wbuf] + rest);
    }
  }

  lemma Regroup(a: seq<string>, b: seq<string>, c: seq<string>, d: seq<string>)
    ensures a + (b + c + d) == a + b + c + d && a + (b + c) == a + b + c
  {
  }

  lemma NextOf(words: seq<string>, n: nat)
    requires n < |words|
    ensures words[n..] == [words[n]] + words[n + 1..] && words[..n + 1] == words[..n] + [words[n]]
  {
  }

  lemma AllPacked(words: seq<string>, atoms: seq<string>, wbuf: string, target: nat)
    requires WordsPacked(words, |words|, atoms, wbuf, target)
    ensures var all := if wbuf != "" then atoms + [wbuf] else atoms;
            AllTidy(all) && Within(all, target) && Content(all) == Content(words) && all == WordAtoms(words, target)
  {
    hide Content, Strip, Tidy, ToCome;
    NoContent();
    assert words[..|words|] == words && words[|words|..] == [];
    ContentSnoc(atoms, wbuf);
    SmallTidySnoc(atoms, wbuf, target);
    LastWord(wbuf, target);
    assert Content(atoms) + "" == Content(atoms);
  }

  ghost predicate SmallTidy(atoms: seq<string>, target: nat) {
    AllTidy(atoms) && Within(atoms, target)
  }

  lemma SmallTidySnoc(atoms: seq<string>, atom: string, target: nat)
    requires SmallTidy(atoms, target)
    ensures Tidy(atom) && |atom| <= target ==> SmallTidy(atoms + [atom], target)
  {
    hide Tidy;
  }

  lemma SmallTidyConcat(atoms: seq<string>, more: seq<string>, target: nat)
    requires SmallTidy(atoms, target) && AllTidy(more) && Within(more, target)
    ensures SmallTidy(atoms + more, target)
  {
    hide Tidy;
  }

  lemma LastWord(wbuf: string, target: nat)
    requires target > 0
    ensures ToCome(wbuf, [], target) == if wbuf == "" then [] else [wbuf]
  {
  }

  /** One more word: it is cut, or starts a new atom, or goes into the one being packed. */
  lemma NextWord(wbuf: string, w: string, words: seq<string>, target: nat)
    requires target > 0 && w != ""
    ensures ToCome(wbuf, [w] + words, target) ==
            if |w| > target then (if wbuf == "" then [] else [wbuf]) + Windows(w, target) + ToCome("", words, target)
            else if wbuf != "" && |wbuf| + 1 + |w| > target then [wbuf] + ToCome(w, words, target)
            else ToCome(Glued(wbuf, " ", w), words, target)
  {
    hide Windows, WordAtoms, Packing;
    WordAtomsNext(w, words, target);
    if wbuf == "" {
      assert [] + Windows(w, target) == Windows(w, target);
    } else {
      PackingNext(wbuf, w, words, target);
      var rest := WordAtoms(words, target);
      assert [wbuf] + (Windows(w, target) + rest) == [wbuf] + Windows(w, target) + rest;
    }
  }

  lemma WordAtomsNext(w: string, words: seq<string>, target: nat)
    requires target > 0
    ensures WordAtoms([w] + words, target) ==
            if |w| > target then Windows(w, target) + WordAtoms(words, target) else Packing(w, words, target)
  {
    hide Windows;
    assert ([w] + words)[1..] == words;
  }

  lemma PackingNext(buf: string, w: string, words: seq<string>, target: nat)
    requires target > 0
    ensures Packing(buf, [w] + words, target) ==
            if |buf| + 1 + |w| <= target then Packing(buf + " " + w, words, target)
            else [buf] + WordAtoms([w] + words, target)
  {
    assert ([w] + words)[1..] == words;
  }

  /** The atoms of sentences: each that fits, and the words of the others. */
  ghost function SentenceAtoms(sents: seq<string>, target: nat): seq<string>
    requires target > 0
  {
    if sents == [] then []
    else
      var last := sents[|sents| - 1];
      SentenceAtoms(sents[..|sents| - 1], target)
      + if |last| <= target then [last] else WordAtoms(Words(last), target)
  }

  /** The atoms of paragraphs: each that fits, and the sentences of the others. */
  ghost function ParagraphAtoms(paras: seq<string>, target: nat): seq<string>
    requires target > 0
  {
    if paras == [] then []
    else
      var last := paras[|paras| - 1];
      ParagraphAtoms(paras[..|paras| - 1], target)
      + if |last| <= target then [last] else SentenceAtoms(SentenceList(last), target)
  }

  lemma SentenceAtomsSnoc(sents: seq<string>, s: string, target: nat)
    requires target > 0
    ensures SentenceAtoms(sents + [s], target) ==
            SentenceAtoms(sents, target) + if |s| <= target then [s] else WordAtoms(Words(s), target)
  {
    assert (sents + [s])[..|sents|] == sents;
  }

  lemma ParagraphAtomsSnoc(paras: seq<string>, p: string, target: nat)
    requires target > 0
    ensures ParagraphAtoms(paras + [p], target) ==
            ParagraphAtoms(paras, target) + if |p| <= target then [p] else SentenceAtoms(SentenceList(p), target)
  {
    assert (paras + [p])[..|paras|] == paras;
  }

  /** The units of a text: paragraphs, else sentences, else words packed, else windows. */
  ghost function Atoms(text: string, target: nat): seq<string>
    requires target > 0
  {
    ParagraphAtoms(Paragraphs(text), target)
  }

  method AtomizeParagraph(para: string, target: nat) returns (atoms: seq<string>)
    requires target > 0
    ensures AllTidy(atoms) && Within(atoms, target) && Content(atoms) == Strip(para)
    ensures atoms == SentenceAtoms(SentenceList(para), target)
  {
    hide Content, Strip, Tidy, OneSentence, SentenceList, WordAtoms, Words;
    atoms := [];
    NoContent();
    var sents := Sentences(para);
    for i := 0 to |sents|
      invariant AllTidy(atoms) && Within(atoms, target) && Content(atoms) == Content(sents[..i])
      invariant atoms == SentenceAtoms(sents[..i], target)
    {
      assert sents[..i + 1] == sents[..i] + [sents[i]];
      SentenceAtomsSnoc(sents[..i], sents[i], target);
      ContentSnoc(sents[..i], sents[i]);
      if |sents[i]| <= target {
        ContentSnoc(atoms, sents[i]);
        atoms := atoms + [sents[i]];
      } else {
        var more := AtomizeSentence(sents[i], target);
        ContentConcat(atoms, more);
        atoms := atoms + more;
      }
    }
    assert sents[..|sents|] == sents;
  }

  /** Units of at most `target` characters: paragraphs, else sentences, else words, else windows. */
  method Atomize(text: string, target: nat) returns (atoms: seq<string>)
    requires target > 0
    ensures AllTidy(atoms) && Within(atoms, target) && Content(atoms) == Strip(text)
    ensures atoms == Atoms(text, target)
  {
    hide Content, Strip, Tidy, Paragraphs, SentenceList, SentenceAtoms;
    atoms := [];
    NoContent();
    var paras := Paragraphs(text);
    ParagraphsFacts(text);
    for i := 0 to |paras|
      invariant AllTidy(atoms) && Within(atoms, target) && Content(atoms) == Content(paras[..i])
      invariant atoms == ParagraphAtoms(paras[..i], target)
    {
      assert paras[..i + 1] == paras[..i] + [paras[i]];
      ParagraphAtomsSnoc(paras[..i], paras[i], target);
      ContentSnoc(paras[..i], paras[i]);
      if |paras[i]| <= target {
        ContentSnoc(atoms, paras[i]);
        atoms := atoms + [paras[i]];
      } else {
        var more := AtomizeParagraph(paras[i], target);
        ContentConcat(atoms, more);
        atoms := atoms + more;
      }
    }
    assert paras[..|paras|] == paras;
  }

  ghost function JoinBlank(atoms: seq<string>): string {
    if atoms == [] then ""
    else if |atoms| == 1 then atoms[0]
    else JoinBlank(atoms[..|atoms| - 1]) + " " + atoms[|atoms| - 1]
  }

  ghost function Ungrouped(groups: seq<seq<string>>): seq<string> {
    if groups == [] then [] else Ungrouped(groups[..|groups| - 1]) + groups[|groups| - 1]
  }

  /** The chunks are the groups, each joined by blanks; no group could have taken the first atom of the next. */
  ghost predicate Packed(groups: seq<seq<string>>, target: nat, chunks: seq<string>) {
    && |groups| == |chunks|
    && (forall k :: 0 <= k < |groups| ==> groups[k] != [] && chunks[k] == JoinBlank(groups[k]))
    && (forall k, l :: 0 <= k && l == k + 1 && l < |groups| ==> |chunks[k]| + 1 + |groups[l][0]| > target)
  }

  /** All of `done` is in `groups` and `group`, the one being collected in `buf`; it was started because the chunk
      before it was full. */
  ghost predicate Filled(target: nat, done: seq<string>, groups: seq<seq<string>>, out: seq<string>,
                         group: seq<string>, buf: string)
  {
    && AllTidy(out) && Within(out, target) && Packed(groups, target, out)
    && buf == JoinBlank(group) && |buf| <= target
    && (if group == [] then out == [] && buf == "" else buf != "" && Tidy(buf))
    && (group != [] && out != [] ==> |out[|out| - 1]| + 1 + |group[0]| > target)
    && done == Ungrouped(groups) + group && Content(out) + Strip(buf) == Content(done)
  }

  lemma JoinSnoc(group: seq<string>, atom: string)
    ensures JoinBlank(group + [atom]) == if group == [] then atom else JoinBlank(group) + " " + atom
  {
    assert (group + [atom])[..|group|] == group;
  }

  lemma UngroupedSnoc(groups: seq<seq<string>>, group: seq<string>)
    ensures Ungrouped(groups + [group]) == Ungrouped(groups) + group
  {
    assert (groups + [group])[..|groups|] == groups;
  }

  lemma PackedSnoc(groups: seq<seq<string>>, target: nat, chunks: seq<string>, group: seq<string>)
    requires Packed(groups, target, chunks) && group != []
    requires chunks != [] ==> |chunks[|chunks| - 1]| + 1 + |group[0]| > target
    ensures Packed(groups + [group], target, chunks + [JoinBlank(group)])
  {
    hide JoinBlank;
  }

  lemma FilledFits(target: nat, done: seq<string>, groups: seq<seq<string>>, out: seq<string>, group: seq<string>,
                   buf: string, atom: string)
    requires Filled(target, done, groups, out, group, buf) && Tidy(atom) && |Glued(buf, " ", atom)| <= target
    ensures Filled(target, done + [atom], groups, out, group + [atom], Glued(buf, " ", atom))
  {
    hide Content, Strip, Tidy, JoinBlank, Packed, AllTidy, Within, Ungrouped;
    GluedFacts(out, buf, " ", atom);
    JoinSnoc(group, atom);
    ContentSnoc(done, atom);
    Regroup(Ungrouped(groups), group, [atom], []);
    assert group != [] ==> (group + [atom])[0] == group[0];
  }

  lemma FilledOverflows(target: nat, done: seq<string>, groups: seq<seq<string>>, out: seq<string>,
                        group: seq<string>, buf: string, atom: string)
    requires Filled(target, done, groups, out, group, buf) && buf != "" && Tidy(atom) && |atom| <= target
    requires |buf| + 1 + |atom| > target
    ensures Filled(target, done + [atom], groups + [group], out + [buf], [atom], atom)
  {
    hide Content, Strip, Tidy, JoinBlank, Packed, Ungrouped, AllTidy, Within;
    ContentSnoc(out, buf);
    PackedSnoc(groups, target, out, group);
    UngroupedSnoc(groups, group);
    ContentSnoc(done, atom);
    JoinSnoc([], atom);
    SmallTidySnoc(out, buf, target);
    TidyNotEmpty(atom);
    assert [] + [atom] == [atom];
  }

  lemma NothingFilled(target: nat)
    ensures Filled(target, [], [], [], [], "")
  {
    NoContent();
  }

  /** Chunks that hold all the atoms. */
  ghost predicate IsPacking(target: nat, atoms: seq<string>, groups: seq<seq<string>>, out: seq<string>) {
    && AllTidy(out) && Within(out, target) && Packed(groups, target, out)
    && Ungrouped(groups) == atoms && Content(out) == Content(atoms)
  }

  lemma FilledUp(target: nat, done: seq<string>, groups: seq<seq<string>>, out: seq<string>, group: seq<string>,
                 buf: string)
    requires Filled(target, done, groups, out, group, buf)
    ensures buf == "" ==> IsPacking(target, done, groups, out)
    ensures buf != "" ==> Tidy(buf) && IsPacking(target, done, groups + [group], out + [buf])
  {
    NoContent();
    hide Content, Strip, Tidy, JoinBlank, Packed;
    if buf != "" {
      ContentSnoc(out, buf);
      PackedSnoc(groups, target, out, group);
      UngroupedSnoc(groups, group);
    } else {
      assert Ungrouped(groups) + [] == Ungrouped(groups) && Content(out) + "" == Content(out);
    }
  }

  /** Units of at most `target` characters, packed: nothing is lost, no chunk is too long, none could take more. */
  method Recursive(text: string, target: nat) returns (out: seq<string>, ghost groups: seq<seq<string>>)
    requires target > 0
    ensures AllTidy(out) && Within(out, target) && Content(out) == Strip(text)
    ensures Packed(groups, target, out)
    ensures Ungrouped(groups) == Atoms(text, target)
  {
    var units := Atomize(text, target);
    out, groups := [], [];
    ghost var group: seq<string> := [];
    var buf := "";
    NothingFilled(target);
    hide Content, Strip, Tidy, Filled, Packed, Trim, Glued, Ungrouped, Atoms;
    assert units[..0] == [];
    for i := 0 to |units|
      invariant Filled(target, units[..i], groups, out, group, buf)
    {
      var atom := units[i];
      TakeSnoc(units, i);
      if buf != "" && |buf| + 1 + |atom| > target {
        FilledOverflows(target, units[..i], groups, out, group, buf, atom);
        out, buf, groups, group := out + [buf], atom, groups + [group], [atom];
      } else {
        GluedLength(buf, " ", atom);
        FilledFits(target, units[..i], groups, out, group, buf, atom);
        buf, group := Glued(buf, " ", atom), group + [atom];
      }
    }
    assert units[..|units|] == units;
    FilledUp(target, units, groups, out, group, buf);
    if buf != "" {
      TidyStays(buf);
      out, groups := out + [buf], groups + [group];
    }
  }

  lemma GluedLength(buf: string, glue: string, piece: string)
    ensures |Glued(buf, glue, piece)| == if buf == "" then |piece| else |buf| + |glue| + |piece|
  {
  }

  // ---------------------------------------------------------------------------
  // Adaptive splitting
  // ---------------------------------------------------------------------------

  /** Near the target, or one sentence that could not be cut. */
  ghost predicate Loose(c: string, target: nat) {
    |c| <= target + 2 || OneSentence(c)
  }

  ghost predicate AllLoose(chunks: seq<string>, target: nat) {
    forall i :: 0 <= i < |chunks| ==> Loose(chunks[i], target)
  }

  /** What is packed: a paragraph that is short enough, or a sentence of the long paragraph at a position. */
  datatype Unit = Unit(text: string, of: Option<nat>)

  ghost function Sentenced(sents: seq<string>, k: nat): (r: seq<Unit>)
    ensures |r| == |sents|
  {
    seq(|sents|, i requires 0 <= i < |sents| => Unit(sents[i], Some(k)))
  }

  ghost function Units(paras: seq<string>, target: nat): seq<Unit> {
    if paras == [] then []
    else
      var n := |paras| - 1;
      Units(paras[..n], target)
      + if |paras[n]| > target then Sentenced(SentenceList(paras[n]), n) else [Unit(paras[n], None)]
  }

  /** Paragraphs are joined by an empty line, sentences by a blank. */
  ghost function Joined(group: seq<Unit>): string {
    if group == [] then ""
    else
      var n := |group| - 1;
      if n == 0 then group[0].text
      else Joined(group[..n]) + (if group[n].of.None? then "\n\n" else " ") + group[n].text
  }

  ghost function Flattened(groups: seq<seq<Unit>>): seq<Unit> {
    if groups == [] then [] else Flattened(groups[..|groups| - 1]) + groups[|groups| - 1]
  }

  /** Units of one kind, each taken in because it fitted. */
  ghost predicate Fits(group: seq<Unit>, target: nat) {
    forall k :: 0 < k < |group| ==>
      group[k].of == group[0].of && |Joined(group[..k])| + |group[k].text| <= target
  }

  /** The group had to end before this unit. */
  ghost predicate EndsAt(group: seq<Unit>, next: Unit, target: nat) {
    group != [] && (next.of != group[0].of || |Joined(group)| + |next.text| > target)
  }

  /** All units are in the groups, in order; the chunks are the groups joined; no group takes what does not fit, and
      none leaves what does. */
  ghost predicate Adapted(units: seq<Unit>, groups: seq<seq<Unit>>, chunks: seq<string>, target: nat) {
    && Flattened(groups) == units && |groups| == |chunks|
    && (forall k :: 0 <= k < |groups| ==>
          groups[k] != [] && Fits(groups[k], target) && chunks[k] == Joined(groups[k]))
    && forall k, l :: 0 <= k && l == k + 1 && l < |groups| ==> EndsAt(groups[k], groups[l][0], target)
  }

  /** The same with one more group being collected. */
  ghost predicate Collecting(units: seq<Unit>, groups: seq<seq<Unit>>, out: seq<string>, group: seq<Unit>, buf: string,
                             target: nat)
  {
    && |group| <= |units| && units[|units| - |group|..] == group
    && Adapted(units[..|units| - |group|], groups, out, target)
    && buf == Joined(group) && Fits(group, target) && (group == [] <==> buf == "")
    && (group != [] && groups != [] ==> EndsAt(groups[|groups| - 1], group[0], target))
  }

  lemma NothingAdapted(target: nat)
    ensures Collecting([], [], [], [], "", target)
  {
  }

  lemma UnitBegins(units: seq<Unit>, groups: seq<seq<Unit>>, out: seq<string>, u: Unit, target: nat)
    requires Collecting(units, groups, out, [], "", target) && u.text != ""
    requires groups != [] ==> EndsAt(groups[|groups| - 1], u, target)
    ensures Collecting(units + [u], groups, out, [u], u.text, target)
  {
    hide Adapted, EndsAt;
    var more := units + [u];
    assert more[..|units|] == units && units[..|units|] == units && more[|units|..] == [u];
  }

  lemma UnitJoins(units: seq<Unit>, groups: seq<seq<Unit>>, out: seq<string>, group: seq<Unit>, buf: string, u: Unit,
                  target: nat)
    requires Collecting(units, groups, out, group, buf, target) && group != [] && u.of == group[0].of
    requires |buf| + |u.text| <= target
    ensures Collecting(units + [u], groups, out, group + [u],
                       Glued(buf, if u.of.None? then "\n\n" else " ", u.text), target)
  {
    hide Adapted, EndsAt, Fits, Joined, Glued;
    FitsMore(group, u, target);
    JoinedSnoc(group, u);
    TailGrows(units, group, u);
    GluedMore(buf, if u.of.None? then "\n\n" else " ", u.text);
  }

  lemma TailGrows(units: seq<Unit>, group: seq<Unit>, u: Unit)
    requires 0 < |group| <= |units| && units[|units| - |group|..] == group
    ensures var (more, wider, n) := (units + [u], group + [u], |units| - |group|);
            |more| - |wider| == n && more[..n] == units[..n] && more[n..] == wider && wider[0] == group[0]
  {
  }

  lemma GluedMore(buf: string, glue: string, piece: string)
    requires buf != ""
    ensures Glued(buf, glue, piece) == buf + glue + piece && Glued(buf, glue, piece) != ""
  {
  }

  lemma FitsMore(group: seq<Unit>, u: Unit, target: nat)
    requires Fits(group, target) && group != [] && u.of == group[0].of && |Joined(group)| + |u.text| <= target
    ensures Fits(group + [u], target)
  {
    hide Joined;
    var wider := group + [u];
    forall k | 0 < k < |wider|
      ensures wider[k].of == wider[0].of && |Joined(wider[..k])| + |wider[k].text| <= target
    {
      assert wider[..k] == group[..k];
      assert group[..|group|] == group;
    }
  }

  lemma JoinedSnoc(group: seq<Unit>, u: Unit)
    requires group != []
    ensures Joined(group + [u]) == Joined(group) + (if u.of.None? then "\n\n" else " ") + u.text
  {
    assert (group + [u])[..|group|] == group;
  }

  lemma GroupEnds(units: seq<Unit>, groups: seq<seq<Unit>>, out: seq<string>, group: seq<Unit>, buf: string,
                  target: nat)
    requires Collecting(units, groups, out, group, buf, target) && group != []
    ensures Collecting(units, groups + [group], out + [buf], [], "", target)
  {
    hide Fits, EndsAt, Joined;
    var n, more := |units| - |group|, groups + [group];
    assert Joined([]) == "" by {
      NothingAdapted(target);
    }
    assert more[..|groups|] == groups && units[..n] + group == units && units[..|units|] == units;
    assert Fits([], target) by {
      NothingAdapted(target);
    }
  }

  /** Appends what has been collected, trimmed, unless it is blank. */
  method Flush(out: seq<string>, buf: string) returns (r: seq<string>)
    requires buf == "" || Tidy(buf)
    ensures r == if buf == "" then out else out + [buf]
  {
    hide Tidy;
    r := out;
    if buf != "" {
      TidyStays(buf);
    } else {
      NothingToTrim();
    }
    if Trim(buf) != "" {
      r := r + [Trim(buf)];
    }
  }

  lemma Flushed(out: seq<string>, buf: string, target: nat)
    requires AllTidy(out) && AllLoose(out, target) && (buf == "" || (Tidy(buf) && Loose(buf, target)))
    ensures var r := if buf == "" then out else out + [buf];
            AllTidy(r) && AllLoose(r, target) && Content(r) == Content(out) + Strip(buf)
  {
    ContentSnoc(out, buf);
    NoContent();
    hide Content, Strip, Tidy, Loose;
  }

  lemma ShortIsLoose(c: string, target: nat)
    requires |c| <= target + 2
    ensures Loose(c, target)
  {
  }

  ghost predicate LastIsNotOf(groups: seq<seq<Unit>>, k: nat) {
    groups != [] ==> groups[|groups| - 1] != [] && groups[|groups| - 1][0].of != Some(k)
  }

  /** After `n` sentences of the paragraph at `k`. */
  ghost predicate InParagraph(sents: seq<string>, n: nat, k: nat, before: seq<Unit>, groups: seq<seq<Unit>>,
                              out: seq<string>, group: seq<Unit>, sbuf: string, target: nat)
  {
    && n <= |sents|
    && Collecting(before + Sentenced(sents[..n], k), groups, out, group, sbuf, target)
    && (group != [] ==> group[0].of == Some(k)) && (n > 0 ==> group != [])
    && (group == [] ==> LastIsNotOf(groups, k))
  }

  lemma SentenceTaken(sents: seq<string>, n: nat, k: nat, before: seq<Unit>, groups: seq<seq<Unit>>,
                      out: seq<string>, group: seq<Unit>, sbuf: string, target: nat)
    requires InParagraph(sents, n, k, before, groups, out, group, sbuf, target) && n < |sents| && sents[n] != ""
    ensures if sbuf != "" && |sbuf| + |sents[n]| > target
            then InParagraph(sents, n + 1, k, before, groups + [group], out + [sbuf], [Unit(sents[n], Some(k))],
                             sents[n], target)
            else InParagraph(sents, n + 1, k, before, groups, out, group + [Unit(sents[n], Some(k))],
                             Glued(sbuf, " ", sents[n]), target)
  {
    hide Adapted, Joined, Fits;
    var u, units := Unit(sents[n], Some(k)), before + Sentenced(sents[..n], k);
    assert sents[..n + 1] == sents[..n] + [sents[n]];
    assert units + [u] == before + Sentenced(sents[..n + 1], k);
    assert [] + [u] == [u];
    if sbuf == "" {
      UnitBegins(units, groups, out, u, target);
    } else if |sbuf| + |sents[n]| > target {
      GroupEnds(units, groups, out, group, sbuf, target);
      UnitBegins(units, groups + [group], out + [sbuf], u, target);
    } else {
      UnitJoins(units, groups, out, group, sbuf, u, target);
    }
  }

  /** A paragraph longer than the target, packed sentence by sentence. */
  method AdaptiveParagraph(para: string, target: nat, before: seq<string>, ghost k: nat, ghost units: seq<Unit>,
                           ghost groups: seq<seq<Unit>>)
      returns (out: seq<string>, ghost all: seq<seq<Unit>>)
    requires AllTidy(before) && AllLoose(before, target) && Tidy(para)
    requires Collecting(units, groups, before, [], "", target)
    requires LastIsNotOf(groups, k)
    ensures AllTidy(out) && AllLoose(out, target) && Content(out) == Content(before) + Strip(para)
    ensures Collecting(units + Sentenced(SentenceList(para), k), all, out, [], "", target)
    ensures all != [] && all[|all| - 1] != [] && all[|all| - 1][0].of == Some(k)
  {
    hide Content, Strip, Tidy, OneSentence, IsEnd, Joined, Fits, Adapted, Loose, AllLoose, Collecting, InParagraph;
    hide Sentenced, SentenceList;
    out, all := before, groups;
    ghost var group: seq<Unit> := [];
    var sents := Sentences(para);
    var sbuf := "";
    NoContent();
    assert Content(before) + "" == Content(before);
    ParagraphBegins(sents, k, units, groups, before, target);
    for i := 0 to |sents|
      invariant AllTidy(out) && AllLoose(out, target) && (sbuf == "" || (Tidy(sbuf) && Loose(sbuf, target)))
      invariant Content(out) + Strip(sbuf) == Content(before) + Content(sents[..i])
      invariant InParagraph(sents, i, k, units, all, out, group, sbuf, target)
    {
      var sent := sents[i];
      assert sents[..i + 1] == sents[..i] + [sent];
      ContentSnoc(sents[..i], sent);
      TidyNotEmpty(sent);
      SentenceTaken(sents, i, k, units, all, out, group, sbuf, target);
      if sbuf != "" && |sbuf| + |sent| > target {
        Flushed(out, sbuf, target);
        out := Flush(out, sbuf);
        all, group := all + [group], [];
        sbuf := "";
      }
      ghost var sofar := Content(out) + Strip(sbuf);
      assert sofar == Content(before) + Content(sents[..i]) && Content(out) + "" == Content(out);
      assert sofar + Strip(sent) == Content(before) + (Content(sents[..i]) + Strip(sent));
      GluedFacts(out, sbuf, " ", sent);
      GluedIsLoose(sbuf, sent, target);
      sbuf := Glued(sbuf, " ", sent);
      group := group + [Unit(sent, Some(k))];
      assert [] + [Unit(sent, Some(k))] == [Unit(sent, Some(k))];
    }
    assert sents[..|sents|] == sents;
    SomeSentence(para, sents);
    ParagraphEnds(sents, k, units, all, out, group, sbuf, target);
    Flushed(out, sbuf, target);
    out := Flush(out, sbuf);
    all := all + [group];
  }

  lemma GluedIsLoose(sbuf: string, sent: string, target: nat)
    requires OneSentence(sent) && (sbuf != "" ==> |sbuf| + |sent| <= target)
    ensures Loose(Glued(sbuf, " ", sent), target)
  {
    hide OneSentence;
  }

  lemma ParagraphBegins(sents: seq<string>, k: nat, units: seq<Unit>, groups: seq<seq<Unit>>, out: seq<string>,
                        target: nat)
    requires Collecting(units, groups, out, [], "", target)
    requires LastIsNotOf(groups, k)
    ensures InParagraph(sents, 0, k, units, groups, out, [], "", target)
  {
    hide Collecting;
    assert sents[..0] == [];
    assert units + Sentenced([], k) == units;
  }

  lemma ParagraphEnds(sents: seq<string>, k: nat, units: seq<Unit>, groups: seq<seq<Unit>>, out: seq<string>,
                      group: seq<Unit>, sbuf: string, target: nat)
    requires InParagraph(sents, |sents|, k, units, groups, out, group, sbuf, target) && sents != []
    ensures sbuf != "" && group != [] && group[0].of == Some(k)
    ensures Collecting(units + Sentenced(sents, k), groups + [group], out + [sbuf], [], "", target)
  {
    hide Adapted, Joined, Fits;
    assert sents[..|sents|] == sents;
    GroupEnds(units + Sentenced(sents, k), groups, out, group, sbuf, target);
  }

  lemma SomeSentence(para: string, sents: seq<string>)
    requires Tidy(para) && Content(sents) == Strip(para)
    ensures sents != []
  {
    TidyHasContent(para);
    NoContent();
  }

  /** After `n` paragraphs. */
  ghost predicate InText(paras: seq<string>, n: nat, groups: seq<seq<Unit>>, out: seq<string>, group: seq<Unit>,
                         buf: string, target: nat)
  {
    && n <= |paras|
    && Collecting(Units(paras[..n], target), groups, out, group, buf, target)
    && (group != [] ==> group[0].of == None)
    && (groups != [] ==>
          var last := groups[|groups| - 1];
          last != [] && (last[0].of.Some? ==> last[0].of.value < n) && (group == [] ==> last[0].of.Some?))
  }

  lemma TextBegins(paras: seq<string>, target: nat)
    ensures InText(paras, 0, [], [], [], "", target)
  {
    NothingAdapted(target);
    assert paras[..0] == [];
  }

  lemma UnitsNext(paras: seq<string>, n: nat, target: nat)
    requires n < |paras|
    ensures Units(paras[..n + 1], target) == Units(paras[..n], target)
            + if |paras[n]| > target then Sentenced(SentenceList(paras[n]), n) else [Unit(paras[n], None)]
  {
    assert paras[..n + 1][..n] == paras[..n];
  }

  lemma ParagraphTaken(paras: seq<string>, n: nat, groups: seq<seq<Unit>>, out: seq<string>, group: seq<Unit>,
                       buf: string, target: nat)
    requires InText(paras, n, groups, out, group, buf, target) && n < |paras| && paras[n] != "" && |paras[n]| <= target
    ensures if buf != "" && |buf| + |paras[n]| > target
            then InText(paras, n + 1, groups + [group], out + [buf], [Unit(paras[n], None)], paras[n], target)
            else InText(paras, n + 1, groups, out, group + [Unit(paras[n], None)], Glued(buf, "\n\n", paras[n]), target)
  {
    hide Adapted, Joined, Fits, Units;
    UnitsNext(paras, n, target);
    var u, units := Unit(paras[n], None), Units(paras[..n], target);
    assert [] + [u] == [u];
    if buf == "" {
      UnitBegins(units, groups, out, u, target);
    } else if |buf| + |paras[n]| > target {
      GroupEnds(units, groups, out, group, buf, target);
      UnitBegins(units, groups + [group], out + [buf], u, target);
    } else {
      UnitJoins(units, groups, out, group, buf, u, target);
    }
  }

  /** Before a long paragraph what is collected ends. */
  lemma LongParagraphNext(paras: seq<string>, n: nat, groups: seq<seq<Unit>>, out: seq<string>, group: seq<Unit>,
                          buf: string, target: nat)
    requires InText(paras, n, groups, out, group, buf, target)
    ensures var (more, flushed) := if buf == "" then (groups, out) else (groups + [group], out + [buf]);
            && Collecting(Units(paras[..n], target), more, flushed, [], "", target)
            && LastIsNotOf(more, n)
  {
    hide Adapted, Joined, Fits, Units;
    if buf != "" {
      GroupEnds(Units(paras[..n], target), groups, out, group, buf, target);
    }
  }

  lemma LongParagraphTaken(paras: seq<string>, n: nat, groups: seq<seq<Unit>>, out: seq<string>, target: nat)
    requires n < |paras| && |paras[n]| > target
    requires Collecting(Units(paras[..n], target) + Sentenced(SentenceList(paras[n]), n), groups, out, [], "", target)
    requires groups != [] && groups[|groups| - 1] != [] && groups[|groups| - 1][0].of == Some(n)
    ensures InText(paras, n + 1, groups, out, [], "", target)
  {
    hide Collecting, Units;
    UnitsNext(paras, n, target);
  }

  lemma TextEnds(paras: seq<string>, groups: seq<seq<Unit>>, out: seq<string>, group: seq<Unit>, buf: string,
                 target: nat)
    requires InText(paras, |paras|, groups, out, group, buf, target)
    ensures if buf == "" then Adapted(Units(paras, target), groups, out, target)
            else Adapted(Units(paras, target), groups + [group], out + [buf], target)
  {
    hide Adapted, Joined, Fits, Units;
    assert paras[..|paras|] == paras;
    var units := Units(paras, target);
    if buf != "" {
      GroupEnds(units, groups, out, group, buf, target);
    }
    assert units[..|units|] == units;
  }

  /** Small paragraphs merge; a large one is packed sentence by sentence. */
  method Adaptive(text: string, target: nat) returns (out: seq<string>, ghost groups: seq<seq<Unit>>)
    ensures AllTidy(out) && AllLoose(out, target) && Content(out) == Strip(text)
    ensures Adapted(Units(Paragraphs(text), target), groups, out, target)
  {
    hide Content, Strip, Tidy, Loose, AllLoose, Paragraphs, Units, Sentenced, SentenceList, InText, Collecting, Adapted;
    out, groups := [], [];
    ghost var group: seq<Unit> := [];
    var buf := "";
    NoContent();
    NothingLoose(target);
    var paras := Paragraphs(text);
    ParagraphsFacts(text);
    TextBegins(paras, target);
    for i := 0 to |paras|
      invariant AllTidy(out) && AllLoose(out, target) && (buf == "" || (Tidy(buf) && |buf| <= target + 2))
      invariant Content(out) + Strip(buf) == Content(paras[..i])
      invariant InText(paras, i, groups, out, group, buf, target)
    {
      var para := paras[i];
      assert paras[..i + 1] == paras[..i] + [para];
      ContentSnoc(paras[..i], para);
      ShortIsLoose(buf, target);
      TidyNotEmpty(para);
      Flushed(out, buf, target);
      if |para| > target {
        LongParagraphNext(paras, i, groups, out, group, buf, target);
        out := Flush(out, buf);
        groups := if buf == "" then groups else groups + [group];
        out, groups := AdaptiveParagraph(para, target, out, i, Units(paras[..i], target), groups);
        LongParagraphTaken(paras, i, groups, out, target);
        assert Content(out) + "" == Content(out);
        group, buf := [], "";
      } else if buf != "" && |buf| + |para| > target {
        ParagraphTaken(paras, i, groups, out, group, buf, target);
        out := Flush(out, buf);
        groups, group, buf := groups + [group], [Unit(para, None)], para;
      } else {
        ParagraphTaken(paras, i, groups, out, group, buf, target);
        GluedFacts(out, buf, "\n\n", para);
        GluedLength(buf, "\n\n", para);
        buf, group := Glued(buf, "\n\n", para), group + [Unit(para, None)];
      }
    }
    assert paras[..|paras|] == paras;
    ShortIsLoose(buf, target);
    Flushed(out, buf, target);
    TextEnds(paras, groups, out, group, buf, target);
    out := Flush(out, buf);
    groups := if buf == "" then groups else groups + [group];
  }

  lemma NothingLoose(target: nat)
    ensures AllLoose([], target)
  {
  }

  // ---------------------------------------------------------------------------
  // Chunks
  // ---------------------------------------------------------------------------

  datatype ChunkStrategy = Paragraph | Fixed(size: nat) | AdaptiveTo(target: nat) | RecursiveTo(target: nat)

  function AtLeastOne(n: nat): (r: nat)
    ensures 1 <= r && n <= r <= n + 1 && (n > 0 ==> r == n)
  {
    if n == 0 then 1 else n
  }

  /** What each strategy promises. */
  ghost predicate SizesOk(strategy: ChunkStrategy, text: string, chunks: seq<string>) {
    match strategy
    case Paragraph => chunks == Paragraphs(text)
    case Fixed(n) => Within(chunks, AtLeastOne(n)) && chunks == NotBlank(Windows(text, AtLeastOne(n)))
    case AdaptiveTo(n) =>
      && AllTidy(chunks) && AllLoose(chunks, AtLeastOne(n))
      && exists groups :: Adapted(Units(Paragraphs(text), AtLeastOne(n)), groups, chunks, AtLeastOne(n))
    case RecursiveTo(n) =>
      && AllTidy(chunks) && Within(chunks, AtLeastOne(n))
      && exists groups :: Packed(groups, AtLeastOne(n), chunks) && Ungrouped(groups) == Atoms(text, AtLeastOne(n))
  }

  /** No chunk is blank, and together they say what the text says, white space aside. */
  method Chunk(text: string, strategy: ChunkStrategy) returns (chunks: seq<string>)
    ensures Content(chunks) == Strip(text) && SizesOk(strategy, text, chunks)
    ensures forall i :: 0 <= i < |chunks| ==> Strip(chunks[i]) != ""
  {
    hide Content, Strip, Tidy, Loose, Paragraphs, Windows, NotBlank, Adapted, Units, Packed, Ungrouped, Atoms;
    match strategy {
      case Paragraph =>
        chunks := Paragraphs(text);
        ParagraphsFacts(text);
      case Fixed(n) =>
        var windows := Windows(text, AtLeastOne(n));
        WindowsFacts(text, AtLeastOne(n));
        NotBlankFacts(windows, AtLeastOne(n));
        chunks := NotBlank(windows);
        return;
      case AdaptiveTo(n) =>
        ghost var groups;
        chunks, groups := Adaptive(text, AtLeastOne(n));
      case RecursiveTo(n) =>
        ghost var groups;
        chunks, groups := Recursive(text, AtLeastOne(n));
    }
    forall i | 0 <= i < |chunks| ensures Strip(chunks[i]) != "" {
      TidyHasContent(chunks[i]);
    }
  }

  // ---------------------------------------------------------------------------
  // Overlap
  // ---------------------------------------------------------------------------

  type IsToken = char -> bool

  /** Where the run of token characters that ends at `i` begins. */
  ghost function RunStart(isToken: IsToken, s: string, i: nat): (r: nat)
    requires i <= |s|
    ensures r <= i && (forall j :: r <= j < i ==> isToken(s[j])) && (r > 0 ==> !isToken(s[r - 1]))
  {
    if i == 0 || !isToken(s[i - 1]) then i else RunStart(isToken, s, i - 1)
  }

  /** Where the run of token characters that begins at `i` ends. */
  ghost function RunEnd(isToken: IsToken, s: string, i: nat): (r: nat)
    requires i <= |s|
    ensures i <= r <= |s| && (forall j :: i <= j < r ==> isToken(s[j])) && (r < |s| ==> !isToken(s[r]))
    decreases |s| - i
  {
    if i == |s| || !isToken(s[i]) then i else RunEnd(isToken, s, i + 1)
  }

  /** The run before `start` is taken in when it is short enough; else the rest of it is left out, unless that would
      leave nothing. */
  ghost function WindowStart(isToken: IsToken, s: string, start: nat, overlap: nat): nat
    requires start <= |s|
  {
    if start - RunStart(isToken, s, start) <= overlap then RunStart(isToken, s, start)
    else if RunEnd(isToken, s, start) == |s| then start
    else RunEnd(isToken, s, start)
  }

  /** The window reaches back by at most the overlap, and does not begin inside a word unless everything from `start`
      on is one word. */
  lemma WindowStartFacts(isToken: IsToken, s: string, start: nat, overlap: nat)
    requires start <= |s|
    ensures var r := WindowStart(isToken, s, start, overlap);
            && r <= |s| && start - r <= overlap
            && (0 < r < |s| && isToken(s[r - 1]) && isToken(s[r]) ==>
                  r == start && forall j :: start <= j < |s| ==> isToken(s[j]))
  {
  }

  method OverlapStart(isToken: IsToken, prev: string, start: nat, overlap: nat) returns (r: nat)
    requires start <= |prev|
    ensures r == WindowStart(isToken, prev, start, overlap)
  {
    if start == 0 || !isToken(prev[start - 1]) {
      return start;
    }
    var back := start;
    while back > 0 && isToken(prev[back - 1])
      invariant 0 <= back <= start && start - back <= overlap
      invariant RunStart(isToken, prev, start) == RunStart(isToken, prev, back)
    {
      back := back - 1;
      if start - back > overlap {
        break;
      }
    }
    if start - back <= overlap && (back == 0 || !isToken(prev[back - 1])) {
      return back;
    }
    var fwd := start;
    while fwd < |prev| && isToken(prev[fwd])
      invariant start <= fwd <= |prev| && RunEnd(isToken, prev, start) == RunEnd(isToken, prev, fwd)
    {
      fwd := fwd + 1;
    }
    return if fwd >= |prev| then start else fwd;
  }

  /** The tail of a chunk that is carried over. */
  ghost function Carried(isToken: IsToken, prev: string, overlap: nat): string {
    var start := if overlap < |prev| then |prev| - overlap else 0;
    WindowStartFacts(isToken, prev, start, overlap);
    TrimStart(prev[WindowStart(isToken, prev, start, overlap)..])
  }

  ghost function WithTail(tail: string, chunk: string): string {
    if tail == "" then chunk else tail + " " + chunk
  }

  /** Each chunk after the first is its base chunk behind the carried tail of the one before it. */
  method ChunkWithOverlap(isToken: IsToken, text: string, strategy: ChunkStrategy, overlap: nat)
      returns (out: seq<string>, ghost base: seq<string>)
    ensures Content(base) == Strip(text) && SizesOk(strategy, text, base)
    ensures overlap == 0 || |base| < 2 ==> out == base
    ensures overlap > 0 && |base| >= 2 ==>
              && |out| == |base| && out[0] == base[0]
              && forall i, j :: 0 <= i && j == i + 1 && j < |out| ==>
                   out[j] == WithTail(Carried(isToken, base[i], overlap), base[j])
  {
    hide Content, Strip, SizesOk, Carried, WithTail;
    var chunks := Chunk(text, strategy);
    base := chunks;
    if overlap == 0 || |chunks| < 2 {
      return chunks, base;
    }
    out := [chunks[0]];
    for n := 1 to |chunks|
      invariant |out| == n && out[0] == base[0]
      invariant forall i, j :: 0 <= i && j == i + 1 && j < n ==>
                  out[j] == WithTail(Carried(isToken, base[i], overlap), base[j])
    {
      var next := CarryOver(isToken, chunks[n - 1], chunks[n], overlap);
      out := out + [next];
    }
  }

  method CarryOver(isToken: IsToken, prev: string, chunk: string, overlap: nat) returns (next: string)
    ensures next == WithTail(Carried(isToken, prev, overlap), chunk)
  {
    hide TrimStart, WindowStart;
    var start := if overlap < |prev| then |prev| - overlap else 0;
    var from := OverlapStart(isToken, prev, start, overlap);
    WindowStartFacts(isToken, prev, start, overlap);
    var tail := TrimStart(prev[from..]);
    next := if tail == "" then chunk else tail + " " + chunk;
  }

  /** An overlapped chunk ends with its base chunk and is at most twice the overlap and one blank longer; what it
      carries is the end of the chunk before. */
  lemma OverlapBounded(isToken: IsToken, prev: string, chunk: string, overlap: nat)
    ensures var tail := Carried(isToken, prev, overlap);
            var c := WithTail(tail, chunk);
            && |tail| <= 2 * overlap && |tail| <= |prev| && tail == prev[|prev| - |tail|..]
            && |chunk| <= |c| <= |chunk| + 2 * overlap + 1 && c[|c| - |chunk|..] == chunk
  {
    hide Strip, TrimStart, WindowStart;
    var start := if overlap < |prev| then |prev| - overlap else 0;
    WindowStartFacts(isToken, prev, start, overlap);
    var window := prev[WindowStart(isToken, prev, start, overlap)..];
    var a := TrimStartIsPart(window);
    var tail := Carried(isToken, prev, overlap);
    hide Carried, AllBlank, IsWhitespace;
    assert |tail| == |window| - |a|;
    assert prev[|prev| - |tail|..] == window[|window| - |tail|..];
    assert (tail + " " + chunk)[|tail| + 1..] == chunk;
  }
}
