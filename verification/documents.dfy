/** The document side of the knowledge base: fixed-width chunking of the text
    extracted from an upload, the size and blank-text skip rules of
    `processar_arquivos`, the embedding-input filter of `gerar_embeddings`, and
    how each frontend merges newly processed uploads into the assistant's
    knowledge base.

    The embedding service is a parameter `embed`: `Some(v)` is the vector the
    service returned, `None` a call that raised. Reading and decoding the
    uploaded bytes is summarised by `Upload.text` (`None` when reading failed). */
module Documents {
  import opened Optional
  import opened Text

  /** Characters per chunk. */
  const ChunkSize: nat := 1500

  /** Largest accepted upload: 2 MiB. */
  const MaxFileBytes: nat := 2 * 1024 * 1024

  /** An embedding vector; its numbers are never inspected by the model. */
  type Vec = seq<real>

  /** The embedding call: `None` when the call raised. */
  type Embedder = string -> Option<Vec>

  // ----- chunking -----------------------------------------------------------

  /** `[text[i:i+1500] for i in range(0, len(text), 1500)]`. */
  function Chunks(text: string): (r: seq<string>)
    ensures |r| == (|text| + ChunkSize - 1) / ChunkSize
    ensures forall i :: 0 <= i < |r| ==> 0 < |r[i]| <= ChunkSize
    ensures forall i :: 0 <= i < |r| - 1 ==> |r[i]| == ChunkSize
    ensures Concat(r) == text
    decreases |text|
  {
    if |text| == 0 then []
    else if |text| <= ChunkSize then [text]
    else
      var rest := Chunks(text[ChunkSize..]);
      assert text == text[..ChunkSize] + text[ChunkSize..];
      [text[..ChunkSize]] + rest
  }

  /** Chunk `i` is exactly the slice the list comprehension takes at offset
      `i * 1500`. */
  lemma {:induction false} ChunkIsSlice(text: string, i: nat)
    requires i < |Chunks(text)|
    ensures i * ChunkSize < |text|
    ensures Chunks(text)[i] == text[i * ChunkSize .. if (i + 1) * ChunkSize <= |text| then (i + 1) * ChunkSize else |text|]
    decreases |text|
  {
    if i == 0 {
      FirstChunk(text);
    } else {
      var tail := text[ChunkSize..];
      NextChunks(text, i);
      ChunkIsSlice(tail, i - 1);
      var lo, mid, hi := (i - 1) * ChunkSize, i * ChunkSize, (i + 1) * ChunkSize;
      ChunkOffsets(i, lo, mid, hi);
      var end := if mid <= |tail| then mid else |tail|;
      var top := if hi <= |text| then hi else |text|;
      SliceOfSuffix(text, ChunkSize, lo, end, mid, top);
    }
  }

  /** Past the first chunk, the chunks are those of the rest of the text. */
  lemma NextChunks(text: string, i: nat)
    requires 0 < i < |Chunks(text)|
    ensures |text| > ChunkSize && Chunks(text)[i] == Chunks(text[ChunkSize..])[i - 1]
  {
    assert |text| > ChunkSize;
    assert Chunks(text) == [text[..ChunkSize]] + Chunks(text[ChunkSize..]);
  }

  lemma SliceOfSuffix(s: string, c: nat, a: nat, b: nat, a': nat, b': nat)
    requires c <= |s| && a <= b <= |s| - c && a' == c + a && b' == c + b
    ensures s[c..][a..b] == s[a'..b']
  {
  }

  lemma FirstChunk(text: string)
    requires |Chunks(text)| > 0
    ensures 0 < |text| && Chunks(text)[0] == text[..if ChunkSize <= |text| then ChunkSize else |text|]
  {
  }

  /** The offsets of consecutive chunks are `ChunkSize` apart. */
  lemma ChunkOffsets(i: nat, lo: int, mid: int, hi: int)
    requires i > 0 && lo == (i - 1) * ChunkSize && mid == i * ChunkSize && hi == (i + 1) * ChunkSize
    ensures mid == ChunkSize + lo && hi == ChunkSize + mid
  {
  }

  /** The chunks a readable text contributes: none for blank text. */
  function TextChunks(text: string): (r: seq<string>)
    ensures r == [] <==> IsBlank(text)
    ensures !IsBlank(text) ==> Concat(r) == text
  {
    if Strip(text) != [] then Chunks(text) else []
  }

  // ----- embeddings ---------------------------------------------------------

  /** Inputs `gerar_embeddings` actually sends: non-blank ones. */
  predicate Embeddable(t: string) {
    !IsBlank(t)  // `chunk.strip()` is non-empty, see `Text.Strip`
  }

  /** The loop of `gerar_embeddings`: blank inputs and failed calls are
      skipped, every other input contributes its vector, in input order. */
  function EmbedAll(texts: seq<string>, embed: Embedder): (r: seq<Vec>)
    ensures |r| <= |texts|
    ensures forall v :: v in r ==> exists i :: 0 <= i < |texts| && Embeddable(texts[i]) && embed(texts[i]) == Some(v)
    ensures (forall i :: 0 <= i < |texts| ==> Embeddable(texts[i]) && embed(texts[i]).Some?) ==>
              |r| == |texts| && forall i :: 0 <= i < |texts| ==> r[i] == embed(texts[i]).value
  {
    if |texts| == 0 then []
    else
      var rest := EmbedAll(texts[1..], embed);
      var head := if Embeddable(texts[0]) && embed(texts[0]).Some? then [embed(texts[0]).value] else [];
      EmbeddedFromTail(texts, rest, embed);
      head + rest
  }

  /** A vector produced for `texts[1..]` was produced for some element of `texts`. */
  lemma EmbeddedFromTail(texts: seq<string>, rest: seq<Vec>, embed: Embedder)
    requires |texts| > 0
    requires forall v :: v in rest ==> exists i :: 0 <= i < |texts[1..]| && Embeddable(texts[1..][i]) && embed(texts[1..][i]) == Some(v)
    ensures forall v :: v in rest ==> exists i :: 0 <= i < |texts| && Embeddable(texts[i]) && embed(texts[i]) == Some(v)
  {
    forall v | v in rest ensures exists i :: 0 <= i < |texts| && Embeddable(texts[i]) && embed(texts[i]) == Some(v) {
      var j :| 0 <= j < |texts[1..]| && Embeddable(texts[1..][j]) && embed(texts[1..][j]) == Some(v);
      assert texts[j + 1] == texts[1..][j];
    }
  }

  /** `gerar_embeddings(textos, key)`: nothing at all without a key. */
  function GenerateEmbeddings(texts: seq<string>, apiKey: string, embed: Embedder): (r: seq<Vec>)
    ensures apiKey == [] ==> r == []
    ensures |r| <= |texts|
    ensures forall v :: v in r ==> exists i :: 0 <= i < |texts| && Embeddable(texts[i]) && embed(texts[i]) == Some(v)
  {
    if apiKey == [] then [] else EmbedAll(texts, embed)
  }

  /** A blank input never reaches the embedding service: appending one
      changes nothing. */
  lemma {:induction false} BlankInputIgnored(texts: seq<string>, blank: string, embed: Embedder)
    requires IsBlank(blank)
    ensures EmbedAll(texts + [blank], embed) == EmbedAll(texts, embed)
  {
    if |texts| == 0 {
      assert EmbedAll([blank], embed) == [] + EmbedAll([], embed);
    } else {
      assert (texts + [blank])[1..] == texts[1..] + [blank];
      BlankInputIgnored(texts[1..], blank, embed);
    }
  }

  /** Chunk/vector alignment breaks even when every call succeeds: a
      non-blank text whose second chunk is whitespace only yields two chunks
      but at most one vector, so vector `i` of the index is no longer chunk `i`. */
  lemma ChunkVectorMisalignment(head: string, tail: string, apiKey: string, embed: Embedder)
    requires |head| == ChunkSize && !IsBlank(head)
    requires 0 < |tail| <= ChunkSize && IsBlank(tail)
    ensures TextChunks(head + tail) == [head, tail]
    ensures |GenerateEmbeddings(TextChunks(head + tail), apiKey, embed)| < |TextChunks(head + tail)|
  {
    TwoChunks(head, tail);
    if apiKey != [] {
      BlankSecondIgnored(head, tail, embed);
    }
  }

  lemma TwoChunks(head: string, tail: string)
    requires |head| == ChunkSize && !IsBlank(head)
    requires 0 < |tail| <= ChunkSize
    ensures TextChunks(head + tail) == [head, tail]
  {
    var text := head + tail;
    assert !IsBlank(text) by {
      var k :| 0 <= k < |head| && !IsSpace(head[k]);
      assert text[k] == head[k];
    }
    assert text[..ChunkSize] == head && text[ChunkSize..] == tail;
    assert Chunks(text) == [head] + Chunks(tail);
  }

  lemma BlankSecondIgnored(head: string, tail: string, embed: Embedder)
    requires IsBlank(tail)
    ensures |EmbedAll([head, tail], embed)| <= 1
  {
    assert [head, tail] == [head] + [tail];
    BlankInputIgnored([head], tail, embed);
    assert EmbedAll([head], embed) == (if Embeddable(head) && embed(head).Some? then [embed(head).value] else []) + EmbedAll([], embed);
  }

  // ----- processing uploads -------------------------------------------------

  /** One uploaded file: its name, its size in bytes, and its decoded text
      (`None` when it could not be read in either encoding). */
  datatype Upload = Upload(name: string, size: nat, text: Option<string>)

  /** Files `processar_arquivos` passes over without a trace: empty, larger
      than 2 MiB, unreadable, or without non-blank text. */
  predicate Skipped(f: Upload) {
    f.size == 0 || f.size > MaxFileBytes || f.text.None? || IsBlank(f.text.value)
  }

  /** Files that are not skipped, in upload order. */
  function Accepted(files: seq<Upload>): (r: seq<Upload>)
    ensures forall f :: f in r <==> f in files && !Skipped(f)
  {
    if |files| == 0 then []
    else (if Skipped(files[0]) then [] else [files[0]]) + Accepted(files[1..])
  }

  function Names(files: seq<Upload>): (r: seq<string>)
    ensures |r| == |files|
    ensures forall i :: 0 <= i < |files| ==> r[i] == files[i].name
  {
    if |files| == 0 then [] else [files[0].name] + Names(files[1..])
  }

  /** The accepted texts, all run together. */
  function AcceptedText(files: seq<Upload>): string {
    if |files| == 0 then []
    else (if Skipped(files[0]) then [] else files[0].text.value) + AcceptedText(files[1..])
  }

  /** The per-file loop of `processar_arquivos`: chunks of every accepted
      file, and the names of the accepted files. */
  datatype Extracted = Extracted(chunks: seq<string>, names: seq<string>)

  /** The chunks one file contributes: none when it is skipped. */
  function FileChunks(f: Upload): (r: seq<string>)
    ensures forall i :: 0 <= i < |r| ==> 0 < |r[i]| <= ChunkSize
  {
    if Skipped(f) then [] else TextChunks(f.text.value)
  }

  /** The name one file contributes: none when it is skipped. */
  function FileName(f: Upload): seq<string> {
    if Skipped(f) then [] else [f.name]
  }

  function Extract(files: seq<Upload>): (r: Extracted)
    ensures forall i :: 0 <= i < |r.chunks| ==> 0 < |r.chunks[i]| <= ChunkSize
    ensures r.chunks == [] <==> r.names == []
  {
    if |files| == 0 then Extracted([], [])
    else
      var rest := Extract(files[1..]);
      assert FileChunks(files[0]) == [] <==> FileName(files[0]) == [];
      Extracted(FileChunks(files[0]) + rest.chunks, FileName(files[0]) + rest.names)
  }

  /** The processed names are the accepted files' names, and the chunks run
      back together into the accepted files' texts. */
  lemma {:induction false} ExtractSpec(files: seq<Upload>)
    ensures Extract(files).names == Names(Accepted(files))
    ensures Concat(Extract(files).chunks) == AcceptedText(files)
  {
    if |files| > 0 {
      ExtractSpec(files[1..]);
      var f := files[0];
      ConcatAppend(FileChunks(f), Extract(files[1..]).chunks);
      if !Skipped(f) {
        assert Names([f] + Accepted(files[1..])) == [f.name] + Names(Accepted(files[1..]));
      } else {
        assert Accepted(files) == Accepted(files[1..]);
      }
    }
  }

  /** Processing is file by file: the result for a concatenation of uploads
      is the concatenation of the results. */
  lemma {:induction false} ExtractAppend(a: seq<Upload>, b: seq<Upload>)
    ensures Extract(a + b).chunks == Extract(a).chunks + Extract(b).chunks
    ensures Extract(a + b).names == Extract(a).names + Extract(b).names
  {
    if |a| == 0 {
      assert a + b == b;
    } else {
      assert (a + b)[0] == a[0];
      assert (a + b)[1..] == a[1..] + b;
      ExtractAppend(a[1..], b);
      var f, ea, eb := a[0], Extract(a[1..]), Extract(b);
      assert FileChunks(f) + (ea.chunks + eb.chunks) == (FileChunks(f) + ea.chunks) + eb.chunks;
      assert FileName(f) + (ea.names + eb.names) == (FileName(f) + ea.names) + eb.names;
    }
  }

  /** A skipped file contributes nothing: removing it changes no chunk and no name. */
  lemma SkippedFileContributesNothing(before: seq<Upload>, f: Upload, after: seq<Upload>)
    requires Skipped(f)
    ensures Extract(before + [f] + after) == Extract(before + after)
  {
    assert before + [f] + after == before + ([f] + after);
    ExtractAppend(before, [f] + after);
    ExtractAppend(before, after);
    SkippedHead(f, after);
  }

  lemma SkippedHead(f: Upload, after: seq<Upload>)
    requires Skipped(f)
    ensures Extract([f] + after) == Extract(after)
  {
    var s := [f] + after;
    assert s[0] == f && s[1..] == after;
    assert FileChunks(f) == [] && FileName(f) == [];
    assert [] + Extract(after).chunks == Extract(after).chunks;
    assert [] + Extract(after).names == Extract(after).names;
  }

  /** Every file that is not skipped has its name among the processed names. */
  lemma {:induction false} AcceptedNameListed(files: seq<Upload>, f: Upload)
    requires f in files && !Skipped(f)
    ensures f.name in Extract(files).names
  {
    if files[0] != f {
      AcceptedNameListed(files[1..], f);
    }
  }

  /** What `processar_arquivos` returns. */
  datatype Processed = Processed(chunks: seq<string>, vectors: seq<Vec>, names: seq<string>)

  /** `processar_arquivos(arquivos, key)`. */
  function ProcessFiles(files: seq<Upload>, apiKey: string, embed: Embedder): (r: Processed)
    ensures r.names == Names(Accepted(files))
    ensures Concat(r.chunks) == AcceptedText(files)
    ensures forall i :: 0 <= i < |r.chunks| ==> 0 < |r.chunks[i]| <= ChunkSize
    ensures |r.vectors| <= |r.chunks|
    ensures apiKey == [] ==> r.vectors == []
    ensures (forall f :: f in files ==> Skipped(f)) ==> r == Processed([], [], [])
  {
    if |files| == 0 then Processed([], [], [])
    else
      var e := Extract(files);
      ExtractSpec(files);
      assert (forall f :: f in files ==> Skipped(f)) ==> Accepted(files) == [] by {
        var a := Accepted(files);
        assert |a| > 0 ==> a[0] in a;
      }
      if |e.chunks| == 0 then Processed([], [], e.names)
      else Processed(e.chunks, GenerateEmbeddings(e.chunks, apiKey, embed), e.names)
  }

  // ----- merging into the knowledge base ------------------------------------

  /** The part of an assistant's session state that uploads change: display
      names of processed files, chunk texts and the vectors added to the
      FAISS index (in insertion order). */
  datatype KnowledgeBase = KnowledgeBase(uploaded: seq<string>, chunks: seq<string>, index: seq<Vec>)

  predicate NoDuplicates<T(==)>(xs: seq<T>) {
    forall i, j :: 0 <= i < j < |xs| ==> xs[i] != xs[j]
  }

  /** `for n in nomes: if n not in current: current.append(n)`. */
  function AppendAbsent(current: seq<string>, added: seq<string>): (r: seq<string>)
    ensures |current| <= |r| && r[..|current|] == current
    ensures forall y :: y in r <==> y in current || y in added
    ensures NoDuplicates(current) ==> NoDuplicates(r)
    decreases |added|
  {
    if |added| == 0 then current
    else if added[0] in current then AppendAbsent(current, added[1..])
    else
      var r := AppendAbsent(current + [added[0]], added[1..]);
      assert r[..|current|] == r[..|current| + 1][..|current|];
      r
  }

  /** The upload handler of the second frontend: every upload on the page is
      processed again on every run; names are added once, while chunks and
      vectors are appended unconditionally. */
  function MergeUploads(kb: KnowledgeBase, p: Processed): (r: KnowledgeBase)
    ensures p.names == [] ==> r == kb
    ensures p.names != [] ==> r.chunks == kb.chunks + p.chunks && r.index == kb.index + p.vectors
    ensures NoDuplicates(kb.uploaded) ==> NoDuplicates(r.uploaded)
    ensures |kb.uploaded| <= |r.uploaded| && r.uploaded[..|kb.uploaded|] == kb.uploaded
    ensures forall n :: n in r.uploaded <==> n in kb.uploaded || n in p.names
  {
    if p.names != [] then KnowledgeBase(AppendAbsent(kb.uploaded, p.names), kb.chunks + p.chunks, kb.index + p.vectors)
    else kb
  }

  /** Running the second frontend's handler twice on the same uploads leaves
      the file list as after one run, but stores every chunk twice. */
  lemma ReprocessingDuplicatesChunks(kb: KnowledgeBase, p: Processed)
    requires p.names != []
    ensures MergeUploads(MergeUploads(kb, p), p).uploaded == MergeUploads(kb, p).uploaded
    ensures MergeUploads(MergeUploads(kb, p), p).chunks == kb.chunks + p.chunks + p.chunks
  {
    var kb1 := MergeUploads(kb, p);
    AppendAbsentPresent(kb1.uploaded, p.names);
  }

  lemma {:induction false} AppendAbsentPresent(current: seq<string>, added: seq<string>)
    requires forall n :: n in added ==> n in current
    ensures AppendAbsent(current, added) == current
    decreases |added|
  {
    if |added| > 0 {
      AppendAbsentPresent(current, added[1..]);
    }
  }

  /** Uploads whose name is not yet in the knowledge base. */
  function Fresh(files: seq<Upload>, uploaded: seq<string>): (r: seq<Upload>)
    ensures forall f :: f in r <==> f in files && f.name !in uploaded
  {
    if |files| == 0 then []
    else (if files[0].name in uploaded then [] else [files[0]]) + Fresh(files[1..], uploaded)
  }

  /** The upload handler of the first frontend: only uploads with an unseen
      name are processed, and the result is kept only when it has both chunks
      and vectors. */
  function UploadOnce(kb: KnowledgeBase, files: seq<Upload>, apiKey: string, embed: Embedder): (r: KnowledgeBase)
    ensures r == kb || (r.uploaded == kb.uploaded + ProcessFiles(Fresh(files, kb.uploaded), apiKey, embed).names
                        && r.chunks == kb.chunks + ProcessFiles(Fresh(files, kb.uploaded), apiKey, embed).chunks)
    ensures apiKey == [] ==> r == kb
  {
    var unseen := Fresh(files, kb.uploaded);
    if |unseen| == 0 || apiKey == [] then kb
    else
      var p := ProcessFiles(unseen, apiKey, embed);
      if |p.chunks| > 0 && |p.vectors| > 0 then
        KnowledgeBase(kb.uploaded + p.names, kb.chunks + p.chunks, kb.index + p.vectors)
      else kb
  }

  /** Streamlit re-runs the page with the same uploads; in the first frontend,
      once a run has kept its uploads, a later run changes nothing, whatever
      the embedding service answers then. (A run that kept nothing leaves the
      same uploads unseen, and the next run tries them again.) */
  lemma UploadOnceIdempotent(kb: KnowledgeBase, files: seq<Upload>, apiKey: string, embed: Embedder, later: Embedder)
    requires UploadOnce(kb, files, apiKey, embed) != kb
    ensures UploadOnce(UploadOnce(kb, files, apiKey, embed), files, apiKey, later) == UploadOnce(kb, files, apiKey, embed)
  {
    var kb1 := UploadOnce(kb, files, apiKey, embed);
    var unseen := Fresh(files, kb.uploaded);
    var p := ProcessFiles(unseen, apiKey, embed);
    var unseen2 := Fresh(files, kb1.uploaded);
    forall f | f in unseen2 ensures Skipped(f) {
      assert f in unseen;
      if !Skipped(f) {
        AcceptedNameListed(unseen, f);
        assert false;
      }
    }
  }
}
