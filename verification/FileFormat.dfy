/** The on-disk format of a document (memory/src/file_store.rs): escaped header lines, a blank line, the raw body. */
module FileFormat {
  import opened Results
  import opened Sequences
  import opened Text
  import opened LineText

  type Byte = n: nat | n <= 255

  datatype Document<F> = Document(
    id: string, docType: string, title: string, author: Option<string>, body: string,
    metadata: map<string, string>, embedding: Option<seq<F>>, confidence: Byte)

  /** How numbers of an embedding are printed and read. */
  datatype FloatCodec<!F> = FloatCodec(show: F -> string, read: string -> Option<F>)

  ghost predicate Lawful<F(!new)>(c: FloatCodec<F>) {
    forall x: F :: c.read(c.show(x)) == Some(x)
                && c.show(x) != "" && ',' !in c.show(x) && '\n' !in c.show(x) && '\r' !in c.show(x)
  }

  // ---------------------------------------------------------------------------
  // Escapes
  // ---------------------------------------------------------------------------

  /** A character inside a header; a colon only needs it inside a metadata key. */
  function EscapeChar(c: char, isKey: bool): string {
    if c == '\\' then "\\\\"
    else if c == '\n' then "\\n"
    else if c == '\r' then "\\r"
    else if c == ':' && isKey then "\\c"
    else [c]
  }

  function Escape(s: string, isKey: bool): string {
    if s == "" then "" else EscapeChar(s[0], isKey) + Escape(s[1..], isKey)
  }

  /** What the two characters of an escape stand for; unknown escapes stay as they are. */
  function UnescapePair(c: char): string {
    if c == 'n' then "\n"
    else if c == 'r' then "\r"
    else if c == 'c' then ":"
    else if c == '\\' then "\\"
    else ['\\', c]
  }

  function Unescape(s: string): string {
    if s == "" then ""
    else if s[0] != '\\' then [s[0]] + Unescape(s[1..])
    else if |s| == 1 then "\\"
    else UnescapePair(s[1]) + Unescape(s[2..])
  }

  method WriteEscaped(s: string, isKey: bool) returns (out: string)
    ensures out == Escape(s, isKey)
  {
    hide Escape, EscapeChar;
    out := "";
    assert s[0..] == s;
    for i := 0 to |s|
      invariant out + Escape(s[i..], isKey) == Escape(s, isKey)
    {
      EscapeNext(out, s, i, isKey);
      out := out + EscapeChar(s[i], isKey);
    }
    NothingEscaped(isKey);
    assert s[|s|..] == "" && out + "" == out;
  }

  lemma EscapeNext(out: string, s: string, i: nat, isKey: bool)
    requires i < |s|
    ensures out + Escape(s[i..], isKey) == out + EscapeChar(s[i], isKey) + Escape(s[i + 1..], isKey)
  {
    hide EscapeChar;
    assert s[i..][1..] == s[i + 1..];
  }

  lemma NothingEscaped(isKey: bool)
    ensures Escape("", isKey) == ""
  {
  }

  method ReadEscaped(s: string) returns (out: string)
    ensures out == Unescape(s)
  {
    hide Unescape, UnescapePair;
    out := "";
    var i := 0;
    assert s[0..] == s;
    while i < |s|
      invariant i <= |s| && out + Unescape(s[i..]) == Unescape(s)
    {
      UnescapeNext(out, s, i);
      var c := s[i];
      i := i + 1;
      if c != '\\' {
        out := out + [c];
      } else if i < |s| {
        out := out + UnescapePair(s[i]);
        i := i + 1;
      } else {
        out := out + "\\";
      }
    }
    UnescapeNothing();
    assert s[i..] == "" && out + "" == out;
  }

  lemma UnescapeNext(out: string, s: string, i: nat)
    requires i < |s|
    ensures out + Unescape(s[i..]) ==
            if s[i] != '\\' then out + [s[i]] + Unescape(s[i + 1..])
            else if i + 1 < |s| then out + UnescapePair(s[i + 1]) + Unescape(s[i + 2..])
            else out + "\\" + Unescape(s[i + 1..])
  {
    hide UnescapePair;
    var t := s[i..];
    assert t[1..] == s[i + 1..] && (|t| > 1 ==> t[2..] == s[i + 2..]);
    if |t| == 1 {
      UnescapeNothing();
      assert s[i + 1..] == "" && out + "\\" + "" == out + "\\";
    }
  }

  lemma UnescapeFirst(c: char, isKey: bool, more: string)
    ensures Unescape(EscapeChar(c, isKey) + more) == [c] + Unescape(more)
  {
    var e := EscapeChar(c, isKey);
    if |e| == 1 {
      assert (e + more)[1..] == more;
    } else {
      assert (e + more)[2..] == more && UnescapePair(e[1]) == [c];
    }
  }

  lemma UnescapeNothing()
    ensures Unescape("") == ""
  {
  }

  lemma {:induction false} UnescapeEscape(s: string, isKey: bool)
    ensures Unescape(Escape(s, isKey)) == s
  {
    hide Unescape, EscapeChar;
    if s == "" {
      UnescapeNothing();
    } else {
      UnescapeEscape(s[1..], isKey);
      UnescapeFirst(s[0], isKey, Escape(s[1..], isKey));
      assert [s[0]] + s[1..] == s;
    }
  }

  /** Before any other character, and at the end, a backslash stands for itself. */
  lemma OtherEscapesStay(c: char, more: string)
    requires c !in "nrc\\"
    ensures Unescape("\\" + [c] + more) == "\\" + [c] + Unescape(more) && Unescape("\\") == "\\"
  {
    var s := "\\" + [c] + more;
    assert s[2..] == more && UnescapePair(c) == ['\\', c];
  }

  lemma {:induction false} EscapedIsOneLine(s: string, isKey: bool)
    ensures '\n' !in Escape(s, isKey) && '\r' !in Escape(s, isKey)
    ensures isKey ==> ':' !in Escape(s, isKey)
  {
    if s != "" {
      EscapedIsOneLine(s[1..], isKey);
    }
  }

  // ---------------------------------------------------------------------------
  // Embeddings
  // ---------------------------------------------------------------------------

  function ShowFloats<F>(c: FloatCodec<F>, xs: seq<F>): string {
    if xs == [] then ""
    else if |xs| == 1 then c.show(xs[0])
    else c.show(xs[0]) + "," + ShowFloats(c, xs[1..])
  }

  /** Empty pieces do not count; one unreadable piece spoils the whole. */
  function ReadFloats<F>(c: FloatCodec<F>, pieces: seq<string>): Option<seq<F>> {
    if pieces == [] then Some([])
    else if pieces[0] == "" then ReadFloats(c, pieces[1..])
    else
      var first := c.read(pieces[0]);
      if first.None? then None
      else
        var more := ReadFloats(c, pieces[1..]);
        if more.None? then None else Some([first.value] + more.value)
  }

  // ---------------------------------------------------------------------------
  // Documents
  // ---------------------------------------------------------------------------

  function Field(key: string, value: string): string {
    key + ": " + Escape(value, false)
  }

  function MetaLines(metadata: map<string, string>, keys: seq<string>): seq<string>
    requires forall i :: 0 <= i < |keys| ==> keys[i] in metadata
  {
    seq(|keys|, i requires 0 <= i < |keys| => Field("meta." + Escape(keys[i], true), metadata[keys[i]]))
  }

  /** The fixed fields of the header. */
  function FixedLines<F>(c: FloatCodec<F>, doc: Document<F>): seq<string> {
    [Field("doc_type", doc.docType), Field("title", doc.title)]
    + (if doc.author.Some? then [Field("author", doc.author.value)] else [])
    + ["confidence: " + Decimal(doc.confidence)]
    + (if doc.embedding.Some? then ["embedding: " + ShowFloats(c, doc.embedding.value)] else [])
  }

  /** `keys` lists the keys of the map once each, in any order. */
  ghost predicate Enumerates(keys: seq<string>, metadata: map<string, string>) {
    NoDup(keys) && forall k :: k in keys <==> k in metadata
  }

  /** The file's text, with the metadata in the order of `keys`. */
  function Serialized<F>(c: FloatCodec<F>, doc: Document<F>, keys: seq<string>): string
    requires forall i :: 0 <= i < |keys| ==> keys[i] in doc.metadata
  {
    Terminated(FixedLines(c, doc) + MetaLines(doc.metadata, keys)) + "\n" + doc.body
  }

  /** One header line taken into account; lines without a delimiter and unknown keys change nothing. */
  function ApplyLine<F>(c: FloatCodec<F>, doc: Document<F>, line: string): Document<F> {
    var cut := SplitOnce(line, ": ");
    if cut.None? then doc
    else
      var (key, value) := cut.value;
      if key == "doc_type" then doc.(docType := Unescape(value))
      else if key == "title" then doc.(title := Unescape(value))
      else if key == "author" then doc.(author := Some(Unescape(value)))
      else if key == "confidence" then
        var n := ParseUnsigned(value, 255);
        doc.(confidence := if n.Some? then n.value else 0)
      else if key == "embedding" then doc.(embedding := ReadFloats(c, Pieces(value, ',')))
      else if "meta." <= key then doc.(metadata := doc.metadata[Unescape(key[5..]) := Unescape(value)])
      else doc
  }

  function ApplyLines<F>(c: FloatCodec<F>, doc: Document<F>, lines: seq<string>): Document<F> {
    if lines == [] then doc
    else ApplyLine(c, ApplyLines(c, doc, lines[..|lines| - 1]), lines[|lines| - 1])
  }

  function Blank<F>(id: string, body: string): Document<F> {
    Document(id, "", "", None, body, map[], None, 0)
  }

  function Deserialized<F>(c: FloatCodec<F>, id: string, content: string): Document<F> {
    var cut := SplitOnce(content, "\n\n");
    var (header, body) := if cut.Some? then cut.value else (content, "");
    ApplyLines(c, Blank(id, body), Lines(header))
  }

  /** Header lines without a delimiter or with an unknown key say nothing. */
  lemma OtherLinesSayNothing<F>(c: FloatCodec<F>, doc: Document<F>, line: string)
    requires match SplitOnce(line, ": ")
             case None => true
             case Some((key, _)) =>
               key !in {"doc_type", "title", "author", "confidence", "embedding"} && !("meta." <= key)
    ensures ApplyLine(c, doc, line) == doc
  {
  }

  /** A text without header fields is a document with nothing but its id and what follows the first empty line. */
  lemma NothingStated<F>(c: FloatCodec<F>, id: string, body: string)
    ensures Deserialized(c, id, "\n\n" + body) == Document(id, "", "", None, body, map[], None, 0)
  {
    var content := "\n\n" + body;
    assert content[..2] == "\n\n" && content[2..] == body;
    assert SplitOnce(content, "\n\n") == Some(("", body));
  }
}
