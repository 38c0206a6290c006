/** The file-backed document store (memory/src/file_store.rs): a directory, an index kept in memory, and the
    proof that reopening the directory always rebuilds the index. */
module FileStores {
  import opened Results
  import opened Sequences
  import opened Text
  import opened LineText
  import opened FileFormat
  import FileRoundTrip

  // ---------------------------------------------------------------------------
  // Writing and reading one document
  // ---------------------------------------------------------------------------

  method WriteField(key: string, value: string) returns (line: string)
    ensures line == Field(key, value) + "\n"
  {
    var escaped := WriteEscaped(value, false);
    line := key + ": " + escaped + "\n";
  }

  /** Appends one header field to a text that ends its lines. */
  method AppendField(s: string, key: string, value: string, ghost lines: seq<string>) returns (r: string)
    requires s == Terminated(lines)
    ensures r == Terminated(lines + [Field(key, value)])
  {
    hide Field, Terminated;
    var line := WriteField(key, value);
    TerminatedSnoc(lines, Field(key, value));
    r := s + line;
  }

  /** The fixed header fields, one after another. */
  method WriteFixed<F>(c: FloatCodec<F>, doc: Document<F>) returns (s: string)
    ensures s == Terminated(FixedLines(c, doc))
  {
    NothingTerminated();
    hide Field, ShowFloats, Decimal, Terminated, FixedLines;
    s := AppendField("", "doc_type", doc.docType, []);
    ghost var lines := [] + [Field("doc_type", doc.docType)];
    s := AppendField(s, "title", doc.title, lines);
    lines := lines + [Field("title", doc.title)];
    if doc.author.Some? {
      s := AppendField(s, "author", doc.author.value, lines);
      lines := lines + [Field("author", doc.author.value)];
    }
    s, lines := WriteNumbers(c, doc, s, lines);
    FixedLinesAre(c, doc, lines);
  }

  method WriteNumbers<F>(c: FloatCodec<F>, doc: Document<F>, s: string, ghost lines: seq<string>)
      returns (r: string, ghost all: seq<string>)
    requires s == Terminated(lines)
    ensures r == Terminated(all)
    ensures all == lines + ["confidence: " + Decimal(doc.confidence)]
      + (if doc.embedding.Some? then ["embedding: " + ShowFloats(c, doc.embedding.value)] else [])
  {
    hide ShowFloats, Decimal, Terminated;
    var line := "confidence: " + Decimal(doc.confidence);
    TerminatedSnoc(lines, line);
    r, all := s + line + "\n", lines + [line];
    if doc.embedding.Some? {
      line := "embedding: " + ShowFloats(c, doc.embedding.value);
      TerminatedSnoc(all, line);
      r, all := r + line + "\n", all + [line];
    }
  }

  lemma FixedLinesAre<F>(c: FloatCodec<F>, doc: Document<F>, lines: seq<string>)
    requires lines == [Field("doc_type", doc.docType)] + [Field("title", doc.title)]
      + (if doc.author.Some? then [Field("author", doc.author.value)] else [])
      + ["confidence: " + Decimal(doc.confidence)]
      + (if doc.embedding.Some? then ["embedding: " + ShowFloats(c, doc.embedding.value)] else [])
    ensures lines == FixedLines(c, doc)
  {
  }

  /** The map's entries come out in some order; `keys` is that order. */
  method Serialize<F>(c: FloatCodec<F>, doc: Document<F>) returns (s: string, ghost keys: seq<string>)
    ensures Enumerates(keys, doc.metadata) && s == Serialized(c, doc, keys)
  {
    hide Field, FixedLines, Terminated, Escape;
    s := WriteFixed(c, doc);
    ghost var fixed := FixedLines(c, doc);
    keys := [];
    assert fixed + MetaLines(doc.metadata, keys) == fixed;
    var todo := doc.metadata.Keys;
    while todo != {}
      invariant todo <= doc.metadata.Keys && NoDup(keys)
      invariant forall k :: k in keys <==> k in doc.metadata && k !in todo
      invariant s == Terminated(fixed + MetaLines(doc.metadata, keys))
    {
      var k :| k in todo;
      var key := WriteEscaped(k, true);
      var line := WriteField("meta." + key, doc.metadata[k]);
      ghost var before := fixed + MetaLines(doc.metadata, keys);
      ghost var added := Field("meta." + Escape(k, true), doc.metadata[k]);
      TerminatedSnoc(before, added);
      keys := keys + [k];
      assert fixed + MetaLines(doc.metadata, keys) == before + [added];
      s, todo := s + line, todo - {k};
    }
    s := s + "\n" + doc.body;
  }

  method Deserialize<F>(c: FloatCodec<F>, id: string, content: string) returns (doc: Document<F>)
    ensures doc == Deserialized(c, id, content)
  {
    hide SplitOnce, Lines;
    var cut := SplitOnce(content, "\n\n");
    var (header, body) := if cut.Some? then cut.value else (content, "");
    doc := Blank(id, body);
    var lines := Lines(header);
    for i := 0 to |lines|
      invariant doc == ApplyLines(c, Blank(id, body), lines[..i])
    {
      assert lines[..i + 1] == lines[..i] + [lines[i]];
      FileRoundTrip.ApplySnoc(c, Blank(id, body), lines[..i], lines[i]);
      doc := ReadLine(c, doc, lines[i]);
    }
    assert lines[..|lines|] == lines;
  }

  method ReadLine<F>(c: FloatCodec<F>, doc: Document<F>, line: string) returns (r: Document<F>)
    ensures r == ApplyLine(c, doc, line)
  {
    hide SplitOnce, Unescape, ParseUnsigned, ReadFloats, Pieces;
    r := doc;
    var cut := SplitOnce(line, ": ");
    if cut.None? {
      return;
    }
    var (key, raw) := cut.value;
    var value := ReadEscaped(raw);
    match key {
      case "doc_type" => r := r.(docType := value);
      case "title" => r := r.(title := value);
      case "author" => r := r.(author := Some(value));
      case "confidence" =>
        var n := ParseUnsigned(raw, 255);
        r := r.(confidence := if n.Some? then n.value else 0);
      case "embedding" => r := r.(embedding := ReadFloats(c, Pieces(raw, ',')));
      case _ =>
        if "meta." <= key {
          var name := ReadEscaped(key[5..]);
          r := r.(metadata := r.metadata[name := value]);
        }
    }
  }

  // ---------------------------------------------------------------------------
  // The directory and the index
  // ---------------------------------------------------------------------------

  datatype FileData = Readable(text: string) | Unreadable

  function FileName(id: string): string {
    id + ".doc"
  }

  /** The id a file stands for: its name without the extension, when that extension is `doc`. */
  function StemOf(name: string): Option<string> {
    if |name| > 4 && name[|name| - 4..] == ".doc" then Some(name[..|name| - 4]) else None
  }

  function ScratchName(name: string, pid: nat, n: nat): string {
    "." + name + "." + Decimal(pid) + "." + Decimal(n) + ".tmp"
  }

  lemma StemOfFileName(id: string)
    ensures StemOf(FileName(id)) == if id == "" then None else Some(id)
  {
    assert FileName(id)[|id|..] == ".doc" && FileName(id)[..|id|] == id;
  }

  lemma FileNameOfStem(name: string)
    requires StemOf(name).Some?
    ensures FileName(StemOf(name).value) == name && StemOf(name).value != ""
  {
    assert name == name[..|name| - 4] + name[|name| - 4..];
  }

  /** At this id the index says what reading the directory would. */
  ghost predicate MirrorsAt<F>(c: FloatCodec<F>, index: map<string, Document<F>>, files: map<string, FileData>,
                               id: string)
  {
    if id != "" && FileName(id) in files && files[FileName(id)].Readable?
    then id in index && index[id] == Deserialized(c, id, files[FileName(id)].text)
    else id !in index
  }

  /** The index holds exactly the documents of the readable document files, each as read from its file. */
  ghost predicate Mirrors<F>(c: FloatCodec<F>, index: map<string, Document<F>>, files: map<string, FileData>) {
    forall id :: MirrorsAt(c, index, files, id)
  }

  /** Every indexed document is under its own id and has a readable file. */
  ghost predicate Backed<F>(index: map<string, Document<F>>, files: map<string, FileData>) {
    forall id :: id in index ==> index[id].id == id && FileName(id) in files && files[FileName(id)].Readable?
  }

  lemma MirrorsIsBacked<F>(c: FloatCodec<F>, index: map<string, Document<F>>, files: map<string, FileData>)
    requires Mirrors(c, index, files)
    ensures Backed(index, files)
  {
    hide Deserialized, FileName;
    forall id | id in index
      ensures index[id].id == id && FileName(id) in files && files[FileName(id)].Readable?
    {
      assert MirrorsAt(c, index, files, id);
      IdStays(c, id, files[FileName(id)].text);
    }
  }

  lemma MirrorsUnique<F>(c: FloatCodec<F>, a: map<string, Document<F>>, b: map<string, Document<F>>,
                         files: map<string, FileData>)
    requires Mirrors(c, a, files) && Mirrors(c, b, files)
    ensures a == b
  {
    hide Deserialized, FileName;
    forall id
      ensures id in a <==> id in b
      ensures id in a ==> a[id] == b[id]
    {
      assert MirrorsAt(c, a, files, id) && MirrorsAt(c, b, files, id);
    }
  }

  // ---------------------------------------------------------------------------
  // Runs
  // ---------------------------------------------------------------------------

  datatype StoreState<!F> = StoreState(files: map<string, FileData>, index: map<string, Document<F>>)

  /** A write may fail before its scratch file exists, or leave a partial one behind. */
  datatype WriteFault = NoFault | NothingWritten | ScratchLeft(partial: FileData)

  datatype Op<!F> =
    | Write(doc: Document<F>, keys: seq<string>, pid: nat, n: nat, fault: WriteFault)
    | Delete(id: string, removable: bool)

  ghost predicate OpOk<F>(op: Op<F>) {
    op.Write? ==> Enumerates(op.keys, op.doc.metadata)
  }

  /** The operation does something to this document: failed writes and the deletion of what is not indexed do not. */
  ghost predicate Affects<F>(s: StoreState<F>, op: Op<F>, id: string) {
    match op
    case Write(doc, _, _, _, fault) => fault.NoFault? && doc.id == id
    case Delete(id', _) => id' == id && id in s.index
  }

  /** The operation parts the index from the directory: the deletion drops a document whose file stays, or the write
      makes a file without a stem, which is never listed. */
  ghost predicate Parts<F>(op: Op<F>) {
    match op
    case Write(doc, _, _, _, _) => doc.id == ""
    case Delete(id, removable) => id != "" && !removable
  }

  ghost function Apply<F>(c: FloatCodec<F>, s: StoreState<F>, op: Op<F>): StoreState<F>
    requires OpOk(op)
  {
    match op
    case Delete(id, removable) =>
      if id !in s.index then s
      else StoreState(if removable then s.files - {FileName(id)} else s.files, s.index - {id})
    case Write(doc, keys, pid, n, fault) =>
      var scratch := ScratchName(FileName(doc.id), pid, n);
      match fault
      case NothingWritten => s
      case ScratchLeft(partial) => s.(files := s.files[scratch := partial])
      case NoFault =>
        StoreState((s.files - {scratch})[FileName(doc.id) := Readable(Serialized(c, doc, keys))],
                   s.index[doc.id := doc])
  }

  ghost function Applied<F>(c: FloatCodec<F>, s: StoreState<F>, ops: seq<Op<F>>): StoreState<F>
    requires forall i :: 0 <= i < |ops| ==> OpOk(ops[i])
  {
    if ops == [] then s else Apply(c, Applied(c, s, ops[..|ops| - 1]), ops[|ops| - 1])
  }

  lemma FileNamesDiffer(a: string, b: string)
    requires a != b
    ensures FileName(a) != FileName(b)
  {
    assert FileName(a)[..|FileName(a)| - 4] == a && FileName(b)[..|FileName(b)| - 4] == b;
  }

  lemma ScratchIsNotNamed(name: string, pid: nat, n: nat, id: string)
    ensures ScratchName(name, pid, n) != FileName(id)
  {
    assert FileName(id)[|FileName(id)| - 1] == 'c';
    assert ScratchName(name, pid, n)[|ScratchName(name, pid, n)| - 1] == 'p';
  }

  lemma ApplyKeepsBacked<F(!new)>(c: FloatCodec<F>, s: StoreState<F>, op: Op<F>)
    requires OpOk(op) && Backed(s.index, s.files)
    ensures var s' := Apply(c, s, op); Backed(s'.index, s'.files)
  {
    hide Serialized, FileName, ScratchName, Enumerates;
    var s' := Apply(c, s, op);
    var own := if op.Write? then op.doc.id else op.id;
    forall id | id in s'.index
      ensures s'.index[id].id == id && FileName(id) in s'.files && s'.files[FileName(id)].Readable?
    {
      if op.Write? {
        ScratchIsNotNamed(FileName(op.doc.id), op.pid, op.n, id);
      }
      if id != own {
        FileNamesDiffer(id, own);
      }
    }
  }

  /** An operation settles whether index and directory agree on a document it affects, and leaves all others alone. */
  lemma ApplyAt<F(!new)>(c: FloatCodec<F>, s: StoreState<F>, op: Op<F>, id: string)
    requires Lawful(c) && OpOk(op) && Backed(s.index, s.files)
    ensures var s' := Apply(c, s, op);
            MirrorsAt(c, s'.index, s'.files, id) <==>
              if Affects(s, op, id) then !Parts(op) else MirrorsAt(c, s.index, s.files, id)
  {
    hide Deserialized, Serialized, FileName, ScratchName, Lawful, Enumerates;
    var own := if op.Write? then op.doc.id else op.id;
    if op.Write? {
      ScratchIsNotNamed(FileName(op.doc.id), op.pid, op.n, id);
      if id == own && op.fault.NoFault? {
        FileRoundTrip.RoundTrip(c, op.doc, op.keys);
      }
    }
    if id != own {
      FileNamesDiffer(id, own);
    }
  }

  /** The last operation that did something to the document. */
  ghost function LastAffecting<F>(c: FloatCodec<F>, s: StoreState<F>, ops: seq<Op<F>>, id: string): Option<Op<F>>
    requires forall i :: 0 <= i < |ops| ==> OpOk(ops[i])
  {
    if ops == [] then None
    else
      var front, last := ops[..|ops| - 1], ops[|ops| - 1];
      if Affects(Applied(c, s, front), last, id) then Some(last) else LastAffecting(c, s, front, id)
  }

  /** The index and the directory were parted over this document, and not brought together again. */
  ghost predicate Parted<F>(c: FloatCodec<F>, s: StoreState<F>, ops: seq<Op<F>>, id: string)
    requires forall i :: 0 <= i < |ops| ==> OpOk(ops[i])
  {
    LastAffecting(c, s, ops, id).Some? && Parts(LastAffecting(c, s, ops, id).value)
  }

  lemma {:induction false} RunKeepsBacked<F(!new)>(c: FloatCodec<F>, s: StoreState<F>, ops: seq<Op<F>>)
    requires Backed(s.index, s.files) && forall i :: 0 <= i < |ops| ==> OpOk(ops[i])
    ensures var s' := Applied(c, s, ops); Backed(s'.index, s'.files)
  {
    hide Apply, Backed, OpOk;
    if ops != [] {
      RunKeepsBacked(c, s, ops[..|ops| - 1]);
      ApplyKeepsBacked(c, Applied(c, s, ops[..|ops| - 1]), ops[|ops| - 1]);
    }
  }

  /** After any run, index and directory agree on a document exactly if they were not parted over it. */
  lemma {:induction false} RunAt<F(!new)>(c: FloatCodec<F>, s: StoreState<F>, ops: seq<Op<F>>, id: string)
    requires Lawful(c) && Mirrors(c, s.index, s.files) && forall i :: 0 <= i < |ops| ==> OpOk(ops[i])
    ensures var s' := Applied(c, s, ops); MirrorsAt(c, s'.index, s'.files, id) <==> !Parted(c, s, ops, id)
  {
    hide Apply, MirrorsAt, Backed, Lawful, OpOk, Affects, Parts;
    if ops != [] {
      var front, last := ops[..|ops| - 1], ops[|ops| - 1];
      RunAt(c, s, front, id);
      MirrorsIsBacked(c, s.index, s.files);
      RunKeepsBacked(c, s, front);
      ApplyAt(c, Applied(c, s, front), last, id);
    }
  }

  /** After any run of writes and deletes, failed ones included: whoever opens the directory anew finds exactly the live
      index if and only if, for each document, the last operation that did something to it is neither a deletion whose
      file stayed nor a write under the empty id. */
  lemma {:induction false} ReopeningFindsIndex<F(!new)>(
      c: FloatCodec<F>, s: StoreState<F>, ops: seq<Op<F>>, reopened: map<string, Document<F>>)
    requires Lawful(c) && Mirrors(c, s.index, s.files) && forall i :: 0 <= i < |ops| ==> OpOk(ops[i])
    requires Mirrors(c, reopened, Applied(c, s, ops).files)
    ensures reopened == Applied(c, s, ops).index <==> forall id :: !Parted(c, s, ops, id)
  {
    hide Apply, MirrorsAt, Lawful, OpOk, Parted;
    var s' := Applied(c, s, ops);
    forall id
      ensures MirrorsAt(c, s'.index, s'.files, id) <==> !Parted(c, s, ops, id)
    {
      RunAt(c, s, ops, id);
    }
    if Mirrors(c, s'.index, s'.files) {
      MirrorsUnique(c, reopened, s'.index, s'.files);
    }
  }

  // ---------------------------------------------------------------------------
  // The store
  // ---------------------------------------------------------------------------

  datatype StoreError = WriteFailed | DeleteFailed

  class Directory {
    var files: map<string, FileData>

    constructor (files: map<string, FileData>)
      ensures this.files == files
    {
      this.files := files;
    }
  }

  class FileStore<F(!new)> {
    const codec: FloatCodec<F>
    const dir: Directory
    var index: map<string, Document<F>>
    var skipped: nat

    ghost predicate Valid()
      reads this, dir
    {
      Backed(index, dir.files)
    }

    /** The index is what opening the directory anew would find. */
    ghost predicate Mirrored()
      reads this, dir
    {
      Mirrors(codec, index, dir.files)
    }

    /** Nothing changed but what the operation says: over each document the two agree as they did, unless it was
        affected. */
    twostate predicate Did(op: Op<F>)
      reads this, dir
    {
      && Valid() && OpOk(op) && State() == Apply(codec, old(State()), op)
      && (forall id :: MirrorsAt(codec, index, dir.files, id) <==>
            if Affects(old(State()), op, id) then !Parts(op)
            else MirrorsAt(codec, old(index), old(dir.files), id))
    }

    ghost function State(): StoreState<F>
      reads this, dir
    {
      StoreState(dir.files, index)
    }

    /** Reads every document file, in whatever order the directory lists them; unreadable ones are counted. */
    constructor Open(codec: FloatCodec<F>, dir: Directory)
      ensures this.codec == codec && this.dir == dir && Valid() && Mirrored()
      ensures skipped == |Damaged(dir.files)|
    {
      this.codec, this.dir, this.index, this.skipped := codec, dir, map[], 0;
      new;
      NothingListed(codec);
      hide Deserialized, FileName, StemOf, Mirrors, Damaged;
      ghost var all := dir.files;
      var names := dir.files.Keys;
      ghost var done: map<string, FileData> := map[];
      while names != {}
        invariant dir.files == all && this.codec == codec && this.dir == dir && names <= all.Keys
        invariant done == all - names
        invariant Mirrors(codec, index, done) && skipped == |Damaged(done)|
      {
        var name :| name in names;
        names := names - {name};
        Listed(codec, index, done, name, all[name]);
        done := done[name := all[name]];
        assert done == all - names;
        var stem := StemOf(name);
        if stem.Some? {
          match dir.files[name] {
            case Unreadable => skipped := skipped + 1;
            case Readable(text) =>
              var doc := Deserialize(codec, stem.value, text);
              index := index[doc.id := doc];
          }
        }
      }
      assert all - {} == all;
      MirrorsIsBacked(codec, index, all);
    }

    method Write(doc: Document<F>, pid: nat, n: nat, fault: WriteFault)
        returns (r: Result<(), StoreError>, ghost keys: seq<string>)
      requires Valid() && Lawful(codec)
      modifies this`index, dir
      ensures Enumerates(keys, doc.metadata) && Did(Op.Write(doc, keys, pid, n, fault))
      ensures old(Mirrored()) ==> (Mirrored() <==> r.Err? || doc.id != "")
      ensures r.Ok? <==> fault.NoFault?
    {
      hide Serialized, FileName, ScratchName, MirrorsAt, Backed, Lawful;
      var text;
      text, keys := Serialize(codec, doc);
      OperationDoes(codec, State(), Op.Write(doc, keys, pid, n, fault));
      var name := FileName(doc.id);
      var scratch := ScratchName(name, pid, n);
      ScratchIsNotNamed(name, pid, n, doc.id);
      if fault.NothingWritten? {
        return Err(WriteFailed), keys;
      }
      dir.files := dir.files[scratch := if fault.NoFault? then Readable(text) else fault.partial];
      if fault.ScratchLeft? {
        return Err(WriteFailed), keys;
      }
      dir.files := (dir.files - {scratch})[name := dir.files[scratch]];
      index := index[doc.id := doc];
      assert dir.files == (old(dir.files) - {scratch})[name := Readable(text)];
      assert MirrorsAt(codec, index, dir.files, doc.id) <==> doc.id != "";
      return Ok(()), keys;
    }

    method Read(id: string) returns (doc: Option<Document<F>>)
      requires Valid()
      ensures doc == if id in index then Some(index[id]) else None
      ensures doc.Some? ==> doc.value.id == id && FileName(id) in dir.files
    {
      doc := if id in index then Some(index[id]) else None;
    }

    /** When the file cannot be removed, the index has lost the document already, and the directory has not. */
    method Delete(id: string, removable: bool) returns (r: Result<(), StoreError>)
      requires Valid() && Lawful(codec)
      modifies this`index, dir
      ensures Did(Op.Delete(id, removable))
      ensures r.Err? <==> id in old(index) && !removable
      ensures r.Err? ==> index == old(index) - {id} && dir.files == old(dir.files)
      ensures old(Mirrored()) ==> (Mirrored() <==> r.Ok? || id == "")
    {
      hide FileName, MirrorsAt, Lawful;
      OperationDoes(codec, State(), Op.Delete(id, removable));
      if id in index {
        index := index - {id};
        var name := FileName(id);
        if name in dir.files {
          if !removable {
            assert MirrorsAt(codec, index, dir.files, id) <==> id == "";
            return Err(DeleteFailed);
          }
          dir.files := dir.files - {name};
        }
      }
      return Ok(());
    }
  }

  lemma OperationDoes<F(!new)>(c: FloatCodec<F>, s: StoreState<F>, op: Op<F>)
    requires Lawful(c) && OpOk(op) && Backed(s.index, s.files)
    ensures var s' := Apply(c, s, op);
            && Backed(s'.index, s'.files)
            && forall id :: MirrorsAt(c, s'.index, s'.files, id) <==>
                 if Affects(s, op, id) then !Parts(op) else MirrorsAt(c, s.index, s.files, id)
  {
    hide Apply, MirrorsAt, Backed, Lawful, OpOk, Affects, Parts;
    ApplyKeepsBacked(c, s, op);
    forall id
      ensures MirrorsAt(c, Apply(c, s, op).index, Apply(c, s, op).files, id) <==>
              if Affects(s, op, id) then !Parts(op) else MirrorsAt(c, s.index, s.files, id)
    {
      ApplyAt(c, s, op, id);
    }
  }

  lemma {:induction false} IdKept<F>(c: FloatCodec<F>, doc: Document<F>, lines: seq<string>)
    ensures ApplyLines(c, doc, lines).id == doc.id
  {
    hide SplitOnce, Unescape, ParseUnsigned, ReadFloats, Pieces;
    if lines != [] {
      IdKept(c, doc, lines[..|lines| - 1]);
    }
  }

  lemma IdStays<F>(c: FloatCodec<F>, id: string, content: string)
    ensures Deserialized(c, id, content).id == id
  {
    var cut := SplitOnce(content, "\n\n");
    var (header, body) := if cut.Some? then cut.value else (content, "");
    IdKept(c, Blank(id, body), Lines(header));
  }

  lemma NothingListed<F>(c: FloatCodec<F>)
    ensures Mirrors(c, map[], map[]) && Damaged(map[]) == {}
  {
  }

  /** The document files that cannot be read. */
  ghost function Damaged(files: map<string, FileData>): set<string> {
    set name | name in files && StemOf(name).Some? && files[name].Unreadable?
  }

  lemma DamagedGrows(files: map<string, FileData>, name: string, data: FileData)
    requires name !in files
    ensures |Damaged(files[name := data])|
         == |Damaged(files)| + (if StemOf(name).Some? && data.Unreadable? then 1 else 0)
  {
    hide StemOf;
    var more := files[name := data];
    assert Damaged(more) == Damaged(files) + (if StemOf(name).Some? && data.Unreadable? then {name} else {});
  }

  /** One more file listed: only a readable document file adds to the index. */
  lemma Listed<F>(c: FloatCodec<F>, index: map<string, Document<F>>, files: map<string, FileData>,
                  name: string, data: FileData)
    requires name !in files && Mirrors(c, index, files)
    ensures StemOf(name).Some? && data.Readable? ==>
              var id := StemOf(name).value;
              var doc := Deserialized(c, id, data.text);
              doc.id == id && Mirrors(c, index[id := doc], files[name := data])
    ensures !(StemOf(name).Some? && data.Readable?) ==> Mirrors(c, index, files[name := data])
    ensures |Damaged(files[name := data])|
         == |Damaged(files)| + (if StemOf(name).Some? && data.Unreadable? then 1 else 0)
  {
    hide Deserialized, FileName, StemOf;
    DamagedGrows(files, name, data);
    if StemOf(name).Some? {
      FileNameOfStem(name);
      if data.Readable? {
        IdStays(c, StemOf(name).value, data.text);
      }
    }
    forall id | StemOf(name) != Some(id) && id != ""
      ensures FileName(id) != name
    {
      StemOfFileName(id);
    }
    if StemOf(name).Some? {
      forall id | id != StemOf(name).value
        ensures FileName(id) != name
      {
        FileNamesDiffer(id, StemOf(name).value);
      }
    }
    var listed := StemOf(name).Some? && data.Readable?;
    var more := if listed then index[StemOf(name).value := Deserialized(c, StemOf(name).value, data.text)] else index;
    var all := files[name := data];
    forall id
      ensures MirrorsAt(c, more, all, id)
    {
      assert MirrorsAt(c, index, files, id);
    }
  }
}
