/** Reading a written document gives the document back, whatever its text and whatever order its metadata was
    written in. */
module FileRoundTrip {
  import opened Results
  import opened Text
  import opened LineText
  import opened FileFormat

  // ---------------------------------------------------------------------------
  // Cutting what was put together
  // ---------------------------------------------------------------------------

  lemma LineEndSkipped(more: string)
    requires more != "" && more[0] != '\n'
    ensures SplitOnce("\n" + more, "\n\n") == Prefixed("\n", SplitOnce(more, "\n\n"))
  {
    var s := "\n" + more;
    assert s[..2][1] == more[0] && s[1..] == more;
  }

  /** The first blank line is the one after the header. */
  lemma {:induction false} HeaderEnds(lines: seq<string>, body: string)
    requires lines != [] && forall i :: 0 <= i < |lines| ==> Clean(lines[i])
    ensures SplitOnce(Joined(lines) + "\n\n" + body, "\n\n") == Some((Joined(lines), body))
  {
    hide SplitOnce;
    if |lines| == 1 {
      CutHere(lines[0], body, "\n\n");
    } else {
      var rest := lines[1..];
      var more := Joined(rest) + "\n\n" + body;
      HeaderEnds(rest, body);
      JoinedFirst(rest);
      LineEndSkipped(more);
      assert Clean(lines[0]);
      CutSkips(lines[0], "\n" + more, "\n\n");
      assert Joined(lines) + "\n\n" + body == lines[0] + ("\n" + more);
      assert lines[0] + ("\n" + Joined(rest)) == Joined(lines);
    }
  }

  // ---------------------------------------------------------------------------
  // Fields
  // ---------------------------------------------------------------------------

  lemma FieldCut(key: string, value: string)
    requires ':' !in key
    ensures SplitOnce(Field(key, value), ": ") == Some((key, Escape(value, false)))
    ensures Unescape(Escape(value, false)) == value
  {
    CutHere(key, Escape(value, false), ": ");
    UnescapeEscape(value, false);
  }

  lemma FieldIsClean(key: string, value: string)
    requires '\n' !in key && '\r' !in key
    ensures Clean(Field(key, value))
  {
    EscapedIsOneLine(value, false);
  }

  lemma {:induction false} EmbeddingIsOneLine<F(!new)>(c: FloatCodec<F>, xs: seq<F>)
    requires Lawful(c)
    ensures '\n' !in ShowFloats(c, xs) && '\r' !in ShowFloats(c, xs)
  {
    if |xs| > 1 {
      EmbeddingIsOneLine(c, xs[1..]);
    }
  }

  lemma {:induction false} EmbeddingRoundTrip<F(!new)>(c: FloatCodec<F>, xs: seq<F>)
    requires Lawful(c)
    ensures ReadFloats(c, Pieces(ShowFloats(c, xs), ',')) == Some(xs)
  {
    if xs == [] {
      assert Pieces("", ',') == [""];
      assert [""][1..] == [];
    } else if |xs| == 1 {
      var s := c.show(xs[0]);
      assert LengthUntil(s, ',') == |s|;
      assert [s][1..] == [];
      assert [xs[0]] + [] == xs;
    } else {
      var s, more := c.show(xs[0]), ShowFloats(c, xs[1..]);
      var all := s + "," + more;
      assert all[..|s|] == s && all[|s|] == ',' && all[|s| + 1..] == more;
      LengthUntilAt(all, ',', |s|);
      EmbeddingRoundTrip(c, xs[1..]);
      assert ([s] + Pieces(more, ','))[1..] == Pieces(more, ',');
      assert [xs[0]] + xs[1..] == xs;
    }
  }

  // ---------------------------------------------------------------------------
  // Documents
  // ---------------------------------------------------------------------------

  lemma HeaderIsClean<F(!new)>(c: FloatCodec<F>, doc: Document<F>, keys: seq<string>)
    requires Lawful(c) && forall i :: 0 <= i < |keys| ==> keys[i] in doc.metadata
    ensures var lines := FixedLines(c, doc) + MetaLines(doc.metadata, keys);
            forall i :: 0 <= i < |lines| ==> Clean(lines[i])
  {
    hide Field, Clean;
    var fixed, meta := FixedLines(c, doc), MetaLines(doc.metadata, keys);
    FieldIsClean("doc_type", doc.docType);
    FieldIsClean("title", doc.title);
    if doc.author.Some? {
      FieldIsClean("author", doc.author.value);
    }
    NumbersAreClean(c, doc);
    forall i | 0 <= i < |keys| ensures Clean(meta[i]) {
      EscapedIsOneLine(keys[i], true);
      FieldIsClean("meta." + Escape(keys[i], true), doc.metadata[keys[i]]);
    }
  }

  lemma NumbersAreClean<F(!new)>(c: FloatCodec<F>, doc: Document<F>)
    requires Lawful(c)
    ensures Clean("confidence: " + Decimal(doc.confidence))
    ensures doc.embedding.Some? ==> Clean("embedding: " + ShowFloats(c, doc.embedding.value))
  {
    var d := Decimal(doc.confidence);
    assert forall i :: 0 <= i < |d| ==> IsDigit(d[i]);
    if doc.embedding.Some? {
      EmbeddingIsOneLine(c, doc.embedding.value);
    }
  }

  lemma ApplySnoc<F>(c: FloatCodec<F>, doc: Document<F>, lines: seq<string>, line: string)
    ensures ApplyLines(c, doc, lines + [line]) == ApplyLine(c, ApplyLines(c, doc, lines), line)
  {
    assert (lines + [line])[..|lines|] == lines;
  }

  lemma FieldApplied<F>(c: FloatCodec<F>, doc: Document<F>, value: string)
    ensures ApplyLine(c, doc, Field("doc_type", value)) == doc.(docType := value)
    ensures ApplyLine(c, doc, Field("title", value)) == doc.(title := value)
    ensures ApplyLine(c, doc, Field("author", value)) == doc.(author := Some(value))
  {
    hide Field, SplitOnce, Escape, Unescape;
    FieldCut("doc_type", value);
    FieldCut("title", value);
    FieldCut("author", value);
  }

  lemma ConfidenceApplied<F>(c: FloatCodec<F>, doc: Document<F>, n: Byte)
    ensures ApplyLine(c, doc, "confidence: " + Decimal(n)) == doc.(confidence := n)
  {
    hide SplitOnce, ParseUnsigned;
    CutHere("confidence", Decimal(n), ": ");
    assert "confidence" + ": " + Decimal(n) == "confidence: " + Decimal(n);
    ParsePrinted(n, 255);
  }

  lemma EmbeddingApplied<F(!new)>(c: FloatCodec<F>, doc: Document<F>, xs: seq<F>)
    requires Lawful(c)
    ensures ApplyLine(c, doc, "embedding: " + ShowFloats(c, xs)) == doc.(embedding := Some(xs))
  {
    hide SplitOnce, Pieces, ReadFloats, ShowFloats;
    CutHere("embedding", ShowFloats(c, xs), ": ");
    assert "embedding" + ": " + ShowFloats(c, xs) == "embedding: " + ShowFloats(c, xs);
    EmbeddingRoundTrip(c, xs);
  }

  lemma MetaApplied<F>(c: FloatCodec<F>, doc: Document<F>, key: string, value: string)
    ensures ApplyLine(c, doc, Field("meta." + Escape(key, true), value)) == doc.(metadata := doc.metadata[key := value])
  {
    hide Field, SplitOnce, Escape, Unescape;
    var k := "meta." + Escape(key, true);
    EscapedIsOneLine(key, true);
    FieldCut(k, value);
    UnescapeEscape(key, true);
    assert k[5..] == Escape(key, true) && k[0] == 'm' && k[4] == '.';
  }

  lemma FixedApplied<F(!new)>(c: FloatCodec<F>, doc: Document<F>)
    requires Lawful(c)
    ensures ApplyLines(c, Blank(doc.id, doc.body), FixedLines(c, doc)) == doc.(metadata := map[])
  {
    hide Field, ApplyLine, ShowFloats, Lawful, Decimal;
    var blank: Document<F> := Blank(doc.id, doc.body);
    var l1 := [Field("doc_type", doc.docType)];
    ApplySnoc(c, blank, [], l1[0]);
    assert [] + l1 == l1;
    FieldApplied(c, blank, doc.docType);
    var d1 := blank.(docType := doc.docType);
    ApplySnoc(c, blank, l1, Field("title", doc.title));
    FieldApplied(c, d1, doc.title);
    var l2 := l1 + [Field("title", doc.title)];
    var d2 := d1.(title := doc.title);
    var author := if doc.author.Some? then [Field("author", doc.author.value)] else [];
    if doc.author.Some? {
      ApplySnoc(c, blank, l2, author[0]);
      FieldApplied(c, d2, doc.author.value);
    }
    var l3, d3 := l2 + author, d2.(author := doc.author);
    assert author == [] ==> l3 == l2;
    var confidence := "confidence: " + Decimal(doc.confidence);
    ApplySnoc(c, blank, l3, confidence);
    ConfidenceApplied(c, d3, doc.confidence);
    var l4, d4 := l3 + [confidence], d3.(confidence := doc.confidence);
    if doc.embedding.Some? {
      ApplySnoc(c, blank, l4, "embedding: " + ShowFloats(c, doc.embedding.value));
      EmbeddingApplied(c, d4, doc.embedding.value);
    }
    var embedding := if doc.embedding.Some? then ["embedding: " + ShowFloats(c, doc.embedding.value)] else [];
    assert FixedLines(c, doc) == l4 + embedding;
    assert embedding == [] ==> l4 + embedding == l4;
  }

  ghost function Restricted(metadata: map<string, string>, keys: seq<string>): map<string, string>
    requires forall k :: k in keys ==> k in metadata
  {
    map k | k in keys :: metadata[k]
  }

  lemma RestrictedSnoc(metadata: map<string, string>, keys: seq<string>)
    requires keys != [] && forall k :: k in keys ==> k in metadata
    ensures var key, front := keys[|keys| - 1], keys[..|keys| - 1];
            Restricted(metadata, keys) == Restricted(metadata, front)[key := metadata[key]]
  {
    var key, front := keys[|keys| - 1], keys[..|keys| - 1];
    assert forall k :: k in keys <==> k in front || k == key;
  }

  lemma {:induction false} MetaAllApplied<F(!new)>(c: FloatCodec<F>, doc: Document<F>, keys: seq<string>)
    requires Lawful(c) && forall k :: k in keys ==> k in doc.metadata
    ensures ApplyLines(c, Blank(doc.id, doc.body), FixedLines(c, doc) + MetaLines(doc.metadata, keys))
         == doc.(metadata := Restricted(doc.metadata, keys))
  {
    hide Field, ApplyLine, FixedLines, Lawful, Restricted, ApplyLines, Blank, Escape;
    var fixed, meta := FixedLines(c, doc), MetaLines(doc.metadata, keys);
    if keys == [] {
      FixedApplied(c, doc);
      NothingRestricted(doc.metadata);
      assert fixed + meta == fixed;
    } else {
      var key, front := keys[|keys| - 1], keys[..|keys| - 1];
      MetaAllApplied(c, doc, front);
      var lines := fixed + MetaLines(doc.metadata, front);
      var line := Field("meta." + Escape(key, true), doc.metadata[key]);
      assert meta == MetaLines(doc.metadata, front) + [line];
      assert fixed + meta == lines + [line];
      ApplySnoc(c, Blank(doc.id, doc.body), lines, line);
      MetaApplied(c, doc.(metadata := Restricted(doc.metadata, front)), key, doc.metadata[key]);
      RestrictedSnoc(doc.metadata, keys);
    }
  }

  lemma NothingRestricted(metadata: map<string, string>)
    ensures Restricted(metadata, []) == map[]
  {
  }

  /** Reading undoes writing, for every document and every order of its metadata. */
  lemma RoundTrip<F(!new)>(c: FloatCodec<F>, doc: Document<F>, keys: seq<string>)
    requires Lawful(c) && Enumerates(keys, doc.metadata)
    ensures Deserialized(c, doc.id, Serialized(c, doc, keys)) == doc
  {
    hide FixedLines, MetaLines, Clean, SplitOnce, Lines, ApplyLines, Joined, Terminated, Lawful;
    var lines := FixedLines(c, doc) + MetaLines(doc.metadata, keys);
    assert lines != [] by { HasFixedLines(c, doc); }
    HeaderIsClean(c, doc, keys);
    TerminatedIsJoined(lines);
    HeaderEnds(lines, doc.body);
    assert Joined(lines) + "\n" + "\n" + doc.body == Joined(lines) + "\n\n" + doc.body;
    LinesOfJoined(lines);
    MetaAllApplied(c, doc, keys);
    assert Restricted(doc.metadata, keys) == doc.metadata;
  }

  lemma HasFixedLines<F>(c: FloatCodec<F>, doc: Document<F>)
    ensures FixedLines(c, doc) != []
  {
  }
}
