/** The messages each chat page sends to the language model. The first
    frontend's main chat builds a list of messages: the assistant's
    instructions, a recalled-memory message, the session history and a
    knowledge-base message whose position depends on the first message. The
    second frontend sends one system prompt (instructions, document excerpts,
    recalled history) followed by the last ten messages of the session. The
    embedding call and the FAISS search are inputs: `hits` is the row of ids
    the search returns, `None` when the embedding or the search raised. */
module ContextAssembly {
  import opened Optional
  import opened Text
  import opened Chat
  import opened Memory
  import opened Documents

  /** An id FAISS returns: a vector position, or -1 for an empty slot. */
  type FaissId = i: int | -1 <= i

  /** A search for `k` neighbours over `ntotal` vectors: the first
      `min(k, ntotal)` slots hold vector positions and the rest are -1. */
  predicate SearchResult(hits: seq<FaissId>, ntotal: nat, k: nat) {
    |hits| == k && forall j :: 0 <= j < k ==> if j < ntotal then 0 <= hits[j] < ntotal else hits[j] == -1
  }

  /** Neighbours asked for by the main chats (`k=3`) and by the second
      frontend's configuration chat (`min(5, len(chunks))`); the second
      frontend's main chat asks for `min(3, len(chunks))`. */
  const ChatNeighbours: nat := 3
  const ConfigNeighbours: nat := 5

  function Min(a: nat, b: nat): nat {
    if a < b then a else b
  }

  /** What a search of `k` neighbours over an index of `ntotal` vectors, no
      longer than the chunk list, should yield under the second frontend's
      comprehension: the chunks the filled slots name, in slot order, then one
      copy of the last chunk per empty slot. */
  function PaddedPicks(chunks: seq<string>, hits: seq<FaissId>, ntotal: nat, k: nat): seq<string>
    requires SearchResult(hits, ntotal, k) && 0 < ntotal <= |chunks|
  {
    var m := Min(k, ntotal);
    seq(m, j requires 0 <= j < m => chunks[hits[j]]) + seq(k - m, _ => chunks[|chunks| - 1])
  }

  // ----- picking chunks by id -----------------------------------------------

  /** The chunks the ids name, skipping -1 and ids past the end. */
  function SelectChunks(chunks: seq<string>, hits: seq<FaissId>): (r: seq<string>)
    ensures |r| <= |hits|
    ensures forall c :: c in r <==> exists j :: 0 <= j < |hits| && 0 <= hits[j] < |chunks| && c == chunks[hits[j]]
  {
    if |hits| == 0 then []
    else
      var rest := SelectChunks(chunks, hits[1..]);
      assert forall j :: 1 <= j < |hits| ==> hits[j] == hits[1..][j - 1];
      (if 0 <= hits[0] < |chunks| then [chunks[hits[0]]] else []) + rest
  }

  /** When every id names a chunk, the selection is the chunks in hit order. */
  lemma {:induction false} SelectChunksAllValid(chunks: seq<string>, hits: seq<FaissId>)
    requires forall j :: 0 <= j < |hits| ==> hits[j] < |chunks| && hits[j] != -1
    ensures |SelectChunks(chunks, hits)| == |hits|
    ensures forall j :: 0 <= j < |hits| ==> SelectChunks(chunks, hits)[j] == chunks[hits[j]]
  {
    if |hits| > 0 {
      SelectChunksAllValid(chunks, hits[1..]);
    }
  }

  /** Empty slots contribute nothing. */
  lemma {:induction false} SelectChunksPadding(chunks: seq<string>, hits: seq<FaissId>, pad: seq<FaissId>)
    requires forall j :: 0 <= j < |pad| ==> pad[j] == -1
    ensures SelectChunks(chunks, hits + pad) == SelectChunks(chunks, hits)
  {
    if |hits| == 0 {
      assert hits + pad == pad;
      PaddingSelectsNothing(chunks, pad);
    } else {
      assert (hits + pad)[1..] == hits[1..] + pad;
      SelectChunksPadding(chunks, hits[1..], pad);
    }
  }

  lemma {:induction false} PaddingSelectsNothing(chunks: seq<string>, pad: seq<FaissId>)
    requires forall j :: 0 <= j < |pad| ==> pad[j] == -1
    ensures SelectChunks(chunks, pad) == []
  {
    if |pad| > 0 {
      PaddingSelectsNothing(chunks, pad[1..]);
    }
  }

  /** The second frontend's comprehension `[chunks[i] for i in I[0] if i <
      len(chunks)]`: -1 passes the test and Python reads it as the last
      chunk. */
  function SelectChunksAsWritten(chunks: seq<string>, hits: seq<FaissId>): (r: seq<string>)
    requires |chunks| > 0
    ensures |r| <= |hits|
    ensures (forall j :: 0 <= j < |hits| ==> hits[j] != -1) ==> r == SelectChunks(chunks, hits)
  {
    if |hits| == 0 then []
    else
      var i := hits[0];
      (if i < |chunks| then [if i == -1 then chunks[|chunks| - 1] else chunks[i]] else [])
      + SelectChunksAsWritten(chunks, hits[1..])
  }

  /** Each trailing empty slot adds one more copy of the last chunk. */
  lemma {:induction false} SelectChunksAsWrittenPadding(chunks: seq<string>, hits: seq<FaissId>, pad: seq<FaissId>)
    requires |chunks| > 0
    requires forall j :: 0 <= j < |pad| ==> pad[j] == -1
    ensures SelectChunksAsWritten(chunks, hits + pad)
            == SelectChunksAsWritten(chunks, hits) + seq(|pad|, _ => chunks[|chunks| - 1])
  {
    if |hits| == 0 {
      assert hits + pad == pad;
      PaddingReadsLast(chunks, pad);
    } else {
      assert (hits + pad)[1..] == hits[1..] + pad;
      SelectChunksAsWrittenPadding(chunks, hits[1..], pad);
    }
  }

  lemma {:induction false} PaddingReadsLast(chunks: seq<string>, pad: seq<FaissId>)
    requires |chunks| > 0
    requires forall j :: 0 <= j < |pad| ==> pad[j] == -1
    ensures SelectChunksAsWritten(chunks, pad) == seq(|pad|, _ => chunks[|chunks| - 1])
  {
    if |pad| > 0 {
      PaddingReadsLast(chunks, pad[1..]);
    }
  }

  /** Over a search result of an index no longer than the chunk list, the
      comprehension yields the chunks the filled slots name, in slot order,
      then one copy of the last chunk per empty slot. */
  lemma SelectChunksAsWrittenSearch(chunks: seq<string>, hits: seq<FaissId>, ntotal: nat, k: nat)
    requires SearchResult(hits, ntotal, k) && 0 < ntotal <= |chunks|
    ensures SelectChunksAsWritten(chunks, hits) == PaddedPicks(chunks, hits, ntotal, k)
  {
    var m := Min(k, ntotal);
    var filled, pad := hits[..m], hits[m..];
    assert hits == filled + pad;
    SelectChunksAsWrittenPadding(chunks, filled, pad);
    SelectChunksAllValid(chunks, filled);
    assert SelectChunksAsWritten(chunks, filled) == SelectChunks(chunks, filled);
    assert SelectChunks(chunks, filled) == seq(m, j requires 0 <= j < m => chunks[hits[j]]);
    assert SelectChunksAsWritten(chunks, hits)
           == seq(m, j requires 0 <= j < m => chunks[hits[j]]) + seq(k - m, _ => chunks[|chunks| - 1]);
  }

  /** A search over an index holding fewer vectors than there are chunks
      (which happens when some embedding calls fail) pads with -1, and the
      comprehension turns each pad into a copy of the last chunk. */
  lemma PaddingReadsLastChunk()
    ensures SearchResult([0, -1, -1], 1, 3)
    ensures SelectChunksAsWritten(["a", "b", "c"], [0, -1, -1]) == ["a", "c", "c"]
    ensures SelectChunks(["a", "b", "c"], [0, -1, -1]) == ["a"]
  {
    var hits: seq<FaissId> := [0, -1, -1];
    assert hits[1..] == [-1, -1] && hits[1..][1..] == [-1];
    assert SelectChunks(["a", "b", "c"], [-1]) == [] + SelectChunks(["a", "b", "c"], []);
  }

  // ----- first frontend: the message list -----------------------------------

  const KnowledgeHeader: string := "Use as seguintes informações da base de conhecimento para responder à pergunta do usuário:\n"

  /** Each selected chunk followed by a blank line. */
  function Paragraphs(chunks: seq<string>): (r: string)
    ensures r == [] <==> chunks == []
  {
    if |chunks| == 0 then [] else chunks[0] + "\n\n" + Paragraphs(chunks[1..])
  }

  lemma {:induction false} ParagraphsJoin(chunks: seq<string>)
    requires |chunks| > 0
    ensures Paragraphs(chunks) == Join(chunks, "\n\n") + "\n\n"
  {
    if |chunks| > 1 {
      ParagraphsJoin(chunks[1..]);
    }
  }

  /** The knowledge-base text of one turn, if any: the search runs only with
      a non-empty index and chunks, and is used only when its first slot is
      filled. */
  function KnowledgeText(kb: KnowledgeBase, hits: Option<seq<FaissId>>): (r: Option<string>)
    ensures r.Some? <==> |kb.index| > 0 && kb.chunks != [] && hits.Some? && |hits.value| > 0 && hits.value[0] != -1
                         && SelectChunks(kb.chunks, hits.value) != []
    ensures r.Some? ==> r.value == KnowledgeHeader + Paragraphs(SelectChunks(kb.chunks, hits.value))
  {
    if |kb.index| > 0 && kb.chunks != [] && hits.Some? && |hits.value| > 0 && hits.value[0] != -1 then
      var body := Paragraphs(SelectChunks(kb.chunks, hits.value));
      if body == [] then None else Some(KnowledgeHeader + body)
    else None
  }

  /** The main chat searches for `ChatNeighbours` neighbours. Over an index no
      longer than the chunk list, the knowledge text carries the chunks the
      filled slots name, in slot order, one paragraph each. */
  lemma ChatKnowledgeFromSearch(kb: KnowledgeBase, hits: seq<FaissId>)
    requires SearchResult(hits, |kb.index|, ChatNeighbours) && 0 < |kb.index| <= |kb.chunks|
    ensures var m := if ChatNeighbours < |kb.index| then ChatNeighbours else |kb.index|;
            KnowledgeText(kb, Some(hits))
            == Some(KnowledgeHeader + Paragraphs(seq(m, j requires 0 <= j < m => kb.chunks[hits[j]])))
  {
    var m := if ChatNeighbours < |kb.index| then ChatNeighbours else |kb.index|;
    var filled, pad := hits[..m], hits[m..];
    assert hits == filled + pad;
    SelectChunksPadding(kb.chunks, filled, pad);
    SelectChunksAllValid(kb.chunks, filled);
    assert SelectChunks(kb.chunks, filled) == seq(m, j requires 0 <= j < m => kb.chunks[hits[j]]);
  }

  /** History entries with a truthy role and content. */
  function FilterHistory(history: seq<Msg>): (r: seq<Msg>)
    ensures |r| <= |history|
    ensures forall m :: m in r <==> m in history && m.role != [] && m.content != []
  {
    if |history| == 0 then []
    else
      var m := history[0];
      assert forall x :: x in history <==> x == m || x in history[1..];
      (if m.role != [] && m.content != [] then [m] else []) + FilterHistory(history[1..])
  }

  lemma {:induction false} FilterHistoryAppend(a: seq<Msg>, b: seq<Msg>)
    ensures FilterHistory(a + b) == FilterHistory(a) + FilterHistory(b)
  {
    if |a| == 0 {
      assert a + b == b;
    } else {
      assert (a + b)[1..] == a[1..] + b;
      FilterHistoryAppend(a[1..], b);
    }
  }

  /** The instruction message, present only for non-empty instructions. */
  function InstructionMessages(instructions: string): (r: seq<Msg>)
    ensures |r| <= 1 && (r == [] <==> instructions == [])
    ensures forall m :: m in r ==> m == Msg("system", instructions)
  {
    if instructions != [] then [Msg("system", instructions)] else []
  }

  /** The memory message of one turn: `None` when mem0 is not active (no
      client or no user) or nothing was recalled. */
  function RecalledMessage(recalled: Option<seq<MemRecord>>): (r: Option<Msg>)
    ensures r.Some? <==> recalled.Some? && MemoryTexts(recalled.value) != []
    ensures r.Some? ==> r == MemoryMessage(recalled.value)
  {
    if recalled.Some? then MemoryMessage(recalled.value) else None
  }

  function MsgList(m: Option<Msg>): seq<Msg> {
    if m.Some? then [m.value] else []
  }

  /** The list before the knowledge-base message goes in: the memory
      message (inserted at the front), the instructions, the history. */
  function BaseContext(instructions: string, recalled: Option<seq<MemRecord>>, history: seq<Msg>): (r: seq<Msg>)
    ensures r == MsgList(RecalledMessage(recalled)) + InstructionMessages(instructions) + FilterHistory(history)
  {
    var ctx := InstructionMessages(instructions);
    var ctx := MsgList(RecalledMessage(recalled)) + ctx;
    ctx + FilterHistory(history)
  }

  /** The knowledge-base message, if there is knowledge text. */
  function KnowledgeMessage(knowledge: Option<string>): Option<Msg> {
    if knowledge.Some? then Some(Msg("system", knowledge.value)) else None
  }

  /** `ctx.insert(i, message)` when there is a knowledge message. */
  function Place(base: seq<Msg>, i: nat, knowledge: Option<string>): (r: seq<Msg>)
    requires i <= |base|
    ensures |r| == |base| + |MsgList(KnowledgeMessage(knowledge))|
    ensures knowledge.Some? ==> r[i] == KnowledgeMessage(knowledge).value
    ensures r == base[..i] + MsgList(KnowledgeMessage(knowledge)) + base[i..]
  {
    if knowledge.None? then
      assert base[..i] + base[i..] == base;
      base
    else
      var r := base[..i] + [Msg("system", knowledge.value)] + base[i..];
      assert r[i] == Msg("system", knowledge.value);
      r
  }

  lemma PlaceSplit(pre: seq<Msg>, mid: seq<Msg>, post: seq<Msg>, knowledge: Option<string>)
    ensures Place(pre + mid + post, |pre|, knowledge) == pre + MsgList(KnowledgeMessage(knowledge)) + mid + post
  {
    var base := pre + mid + post;
    assert base[..|pre|] == pre && base[|pre|..] == mid + post;
    var k := MsgList(KnowledgeMessage(knowledge));
    assert pre + k + (mid + post) == pre + k + mid + post;
  }

  /** The test that places the knowledge-base message: the first message is a
      system message that mentions mem0. */
  predicate SniffsMem0(ctx: seq<Msg>) {
    |ctx| > 0 && ctx[0].role == "system" && Contains(ctx[0].content, "mem0")
  }

  /** The main chat's message list as the code builds it: the knowledge
      message goes second when the first message passes the test, first
      otherwise. Nothing is lost or invented. */
  function AssembleContext(instructions: string, recalled: Option<seq<MemRecord>>, history: seq<Msg>,
                           knowledge: Option<string>): (r: seq<Msg>)
    ensures |r| == |BaseContext(instructions, recalled, history)| + |MsgList(KnowledgeMessage(knowledge))|
    ensures var base := BaseContext(instructions, recalled, history);
            var i := if SniffsMem0(base) then 1 else 0;
            r == base[..i] + MsgList(KnowledgeMessage(knowledge)) + base[i..]
  {
    var base := BaseContext(instructions, recalled, history);
    Place(base, if SniffsMem0(base) then 1 else 0, knowledge)
  }

  /** The placement the code's comment describes: right after the memory
      message when there is one, otherwise first. */
  function AssembleContextIntended(instructions: string, recalled: Option<seq<MemRecord>>, history: seq<Msg>,
                                   knowledge: Option<string>): (r: seq<Msg>)
    ensures r == MsgList(RecalledMessage(recalled)) + MsgList(KnowledgeMessage(knowledge))
                 + InstructionMessages(instructions) + FilterHistory(history)
  {
    var pre := MsgList(RecalledMessage(recalled));
    var instr, hist := InstructionMessages(instructions), FilterHistory(history);
    PlaceSplit(pre, instr, hist, knowledge);
    Place(BaseContext(instructions, recalled, history), |pre|, knowledge)
  }

  /** A memory message always passes the test. */
  lemma RecalledSniffed(recalled: Option<seq<MemRecord>>, rest: seq<Msg>)
    requires RecalledMessage(recalled).Some?
    ensures SniffsMem0(MsgList(RecalledMessage(recalled)) + rest)
  {
  }

  /** The two placements differ only when no memory message was built and
      the list starts with a system message mentioning mem0. */
  lemma IntendedAgrees(instructions: string, recalled: Option<seq<MemRecord>>, history: seq<Msg>, knowledge: Option<string>)
    requires RecalledMessage(recalled).Some? || !SniffsMem0(InstructionMessages(instructions) + FilterHistory(history))
    ensures AssembleContextIntended(instructions, recalled, history, knowledge) == AssembleContext(instructions, recalled, history, knowledge)
  {
    var rest := InstructionMessages(instructions) + FilterHistory(history);
    if RecalledMessage(recalled).Some? {
      RecalledSniffed(recalled, rest);
    }
  }

  /** With a memory message, the list is memory, knowledge, instructions,
      history. */
  lemma AssembleWithMemory(instructions: string, recalled: Option<seq<MemRecord>>, history: seq<Msg>, knowledge: Option<string>)
    requires RecalledMessage(recalled).Some?
    ensures AssembleContext(instructions, recalled, history, knowledge)
            == MsgList(RecalledMessage(recalled)) + MsgList(KnowledgeMessage(knowledge))
               + InstructionMessages(instructions) + FilterHistory(history)
  {
    IntendedAgrees(instructions, recalled, history, knowledge);
  }

  /** Without one, the knowledge message leads unless the first remaining
      message is itself a system message mentioning mem0. */
  lemma AssembleWithoutMemory(instructions: string, recalled: Option<seq<MemRecord>>, history: seq<Msg>, knowledge: Option<string>)
    requires RecalledMessage(recalled).None?
    requires !SniffsMem0(InstructionMessages(instructions) + FilterHistory(history))
    ensures AssembleContext(instructions, recalled, history, knowledge)
            == MsgList(KnowledgeMessage(knowledge)) + InstructionMessages(instructions) + FilterHistory(history)
  {
    IntendedAgrees(instructions, recalled, history, knowledge);
  }

  /** Instructions that mention mem0 are taken for the memory message: the
      knowledge message lands after them instead of first. */
  lemma InstructionsMentioningMem0()
    ensures AssembleContext("Use mem0", None, [], Some("K"))
            == [Msg("system", "Use mem0"), Msg("system", "K")]
    ensures AssembleContextIntended("Use mem0", None, [], Some("K"))
            == [Msg("system", "K"), Msg("system", "Use mem0")]
  {
    var base := BaseContext("Use mem0", None, []);
    assert base == [Msg("system", "Use mem0")];
    var c: string := "Use mem0";
    assert c[4..][..4] == "mem0";
    assert Contains(c[4..], "mem0");
    assert Contains(c[3..], "mem0") && Contains(c[2..], "mem0") && Contains(c[1..], "mem0");
    assert SniffsMem0(base);
  }

  /** One main-chat turn as the code builds it: the memory searches'
      survivors (`None` when mem0 is not active), the session history, and
      the knowledge base with the search result. The history closes the list
      unless the list starts with a history message that passes the mem0
      test, in which case the knowledge message lands right after it. */
  function ChatTurnMessages(instructions: string, recalled: Option<seq<MemRecord>>, history: seq<Msg>,
                            kb: KnowledgeBase, hits: Option<seq<FaissId>>): (r: seq<Msg>)
    ensures |FilterHistory(history)| <= |r| <= 3 + |history|
    ensures instructions != [] || RecalledMessage(recalled).Some? || !SniffsMem0(FilterHistory(history))
            ==> FilterHistory(history) == r[|r| - |FilterHistory(history)|..]
    ensures instructions != [] ==> Msg("system", instructions) in r
    ensures KnowledgeText(kb, hits).Some? ==> Msg("system", KnowledgeText(kb, hits).value) in r
  {
    AssembleKeepsHistory(instructions, recalled, history, KnowledgeText(kb, hits));
    AssembleKeepsMessages(instructions, recalled, history, KnowledgeText(kb, hits));
    AssembleContext(instructions, recalled, history, KnowledgeText(kb, hits))
  }

  /** The history survives the insertion whole, and at the end unless the
      knowledge message goes in after a leading history message. */
  lemma AssembleKeepsHistory(instructions: string, recalled: Option<seq<MemRecord>>, history: seq<Msg>, knowledge: Option<string>)
    ensures var r := AssembleContext(instructions, recalled, history, knowledge);
            var hist := FilterHistory(history);
            && |hist| <= |r| <= 3 + |history|
            && (instructions != [] || RecalledMessage(recalled).Some? || !SniffsMem0(hist) ==> hist == r[|r| - |hist|..])
  {
    var pre, hist := MsgList(RecalledMessage(recalled)) + InstructionMessages(instructions), FilterHistory(history);
    var i := if SniffsMem0(pre + hist) then 1 else 0;
    var k := MsgList(KnowledgeMessage(knowledge));
    var r := AssembleContext(instructions, recalled, history, knowledge);
    assert r == (pre + hist)[..i] + k + (pre + hist)[i..];
    if instructions != [] || RecalledMessage(recalled).Some? {
      assert |pre| >= 1;
      PlaceBehind(pre, hist, i, k, r);
    } else if !SniffsMem0(hist) {
      assert pre + hist == hist;
      PlaceBehind(pre, hist, i, k, r);
    }
  }

  lemma PlaceBehind(pre: seq<Msg>, hist: seq<Msg>, i: nat, k: seq<Msg>, r: seq<Msg>)
    requires i <= |pre| && r == (pre + hist)[..i] + k + (pre + hist)[i..]
    ensures hist == r[|r| - |hist|..]
  {
    var base := pre + hist;
    assert base[i..] == pre[i..] + hist;
    assert r == (base[..i] + k + pre[i..]) + hist;
  }

  /** The instructions and the knowledge text each reach the list. */
  lemma AssembleKeepsMessages(instructions: string, recalled: Option<seq<MemRecord>>, history: seq<Msg>, knowledge: Option<string>)
    ensures var r := AssembleContext(instructions, recalled, history, knowledge);
            && (instructions != [] ==> Msg("system", instructions) in r)
            && (knowledge.Some? ==> Msg("system", knowledge.value) in r)
  {
    var mem, instr, hist := MsgList(RecalledMessage(recalled)), InstructionMessages(instructions), FilterHistory(history);
    var i := if SniffsMem0(mem + instr + hist) then 1 else 0;
    var k := MsgList(KnowledgeMessage(knowledge));
    var r := AssembleContext(instructions, recalled, history, knowledge);
    PlacedFacts(mem, instr, hist, i, k, r);
    assert knowledge.Some? ==> Msg("system", knowledge.value) in k;
  }

  /** Inserting `k` at `i` into `mem + instr + hist` loses no message. */
  lemma PlacedFacts(mem: seq<Msg>, instr: seq<Msg>, hist: seq<Msg>, i: nat, k: seq<Msg>, r: seq<Msg>)
    requires i <= |mem + instr + hist|
    requires r == (mem + instr + hist)[..i] + k + (mem + instr + hist)[i..]
    ensures forall m :: m in instr ==> m in r
    ensures forall m :: m in k ==> m in r
  {
    var base := mem + instr + hist;
    assert base == base[..i] + base[i..];
    forall m | m in instr ensures m in r {
      assert m in base;
    }
  }

  /** The turn with the placement the comment at the insertion describes. */
  function ChatTurnIntended(instructions: string, recalled: Option<seq<MemRecord>>, history: seq<Msg>,
                            kb: KnowledgeBase, hits: Option<seq<FaissId>>): (r: seq<Msg>)
    ensures r == MsgList(RecalledMessage(recalled)) + MsgList(KnowledgeMessage(KnowledgeText(kb, hits)))
                 + InstructionMessages(instructions) + FilterHistory(history)
  {
    AssembleContextIntended(instructions, recalled, history, KnowledgeText(kb, hits))
  }

  /** With a memory message the turn is memory, knowledge, instructions,
      history, as intended. */
  lemma ChatTurnWithMemory(instructions: string, recalled: Option<seq<MemRecord>>, history: seq<Msg>,
                           kb: KnowledgeBase, hits: Option<seq<FaissId>>)
    requires RecalledMessage(recalled).Some?
    ensures ChatTurnMessages(instructions, recalled, history, kb, hits) == ChatTurnIntended(instructions, recalled, history, kb, hits)
    ensures ChatTurnMessages(instructions, recalled, history, kb, hits)
            == MsgList(RecalledMessage(recalled)) + MsgList(KnowledgeMessage(KnowledgeText(kb, hits)))
               + InstructionMessages(instructions) + FilterHistory(history)
  {
    AssembleWithMemory(instructions, recalled, history, KnowledgeText(kb, hits));
    IntendedAgrees(instructions, recalled, history, KnowledgeText(kb, hits));
  }

  /** The turn as built and as intended agree when there is a memory
      message, no knowledge, or a first message that fails the mem0 test;
      otherwise they differ, unless that first message is the knowledge
      message itself. */
  lemma ChatTurnAgrees(instructions: string, recalled: Option<seq<MemRecord>>, history: seq<Msg>,
                       kb: KnowledgeBase, hits: Option<seq<FaissId>>)
    ensures var rest := InstructionMessages(instructions) + FilterHistory(history);
            RecalledMessage(recalled).Some? || KnowledgeText(kb, hits).None? || !SniffsMem0(rest)
            ==> ChatTurnMessages(instructions, recalled, history, kb, hits) == ChatTurnIntended(instructions, recalled, history, kb, hits)
    ensures var rest := InstructionMessages(instructions) + FilterHistory(history);
            RecalledMessage(recalled).None? && KnowledgeText(kb, hits).Some? && SniffsMem0(rest)
            && rest[0] != Msg("system", KnowledgeText(kb, hits).value)
            ==> ChatTurnMessages(instructions, recalled, history, kb, hits) != ChatTurnIntended(instructions, recalled, history, kb, hits)
  {
    var knowledge := KnowledgeText(kb, hits);
    var rest := InstructionMessages(instructions) + FilterHistory(history);
    if RecalledMessage(recalled).Some? || !SniffsMem0(rest) {
      IntendedAgrees(instructions, recalled, history, knowledge);
    } else if knowledge.Some? {
      var built := ChatTurnMessages(instructions, recalled, history, kb, hits);
      var meant := ChatTurnIntended(instructions, recalled, history, kb, hits);
      assert built[0] == rest[0];
      assert meant[0] == Msg("system", knowledge.value);
    }
  }

  /** A session whose first history message is a system message mentioning
      mem0, with no instructions and no memory message: the knowledge
      message goes in second, inside the history. */
  lemma ChatTurnSplitsHistory(recalled: Option<seq<MemRecord>>, history: seq<Msg>, kb: KnowledgeBase,
                              hits: Option<seq<FaissId>>)
    requires RecalledMessage(recalled).None? && SniffsMem0(FilterHistory(history))
    requires KnowledgeText(kb, hits).Some?
    ensures var h := FilterHistory(history);
            ChatTurnMessages([], recalled, history, kb, hits)
            == [h[0], Msg("system", KnowledgeText(kb, hits).value)] + h[1..]
  {
    AssembleSplitsHistory(recalled, history, KnowledgeText(kb, hits).value);
  }

  lemma AssembleSplitsHistory(recalled: Option<seq<MemRecord>>, history: seq<Msg>, knowledge: string)
    requires RecalledMessage(recalled).None? && SniffsMem0(FilterHistory(history))
    ensures var h := FilterHistory(history);
            AssembleContext([], recalled, history, Some(knowledge)) == [h[0], Msg("system", knowledge)] + h[1..]
  {
    var h := FilterHistory(history);
    var k := [Msg("system", knowledge)];
    assert MsgList(RecalledMessage(recalled)) + InstructionMessages([]) == [];
    assert BaseContext([], recalled, history) == h;
    assert MsgList(KnowledgeMessage(Some(knowledge))) == k;
    assert h[..1] + k == [h[0], Msg("system", knowledge)];
  }

  // ----- second frontend: the API request -----------------------------------

  const NoKeyReply: string := "OPENAI_API_KEY não configurada. Não posso responder."
  const NoInstructionsReply: string := "Instruções do assistente não carregadas. Configure o assistente primeiro."
  const DocumentsHeader: string := "\n\nContexto dos documentos:\n"
  const ExcerptsHeader: string := "\n\n---\nTrechos relevantes dos documentos para contexto adicional:\n"

  /** Messages of the session sent along with the system prompt. */
  const ApiWindow: nat := 10


  /** Document excerpts for the second frontend's prompts: searched only
      with a non-empty index and chunks, the chunks the comprehension picks
      joined by newlines under the header, or nothing when it picks none. */
  function DocBlock(header: string, kb: KnowledgeBase, hits: Option<seq<FaissId>>): (r: string)
    ensures r != [] ==> |kb.index| > 0 && kb.chunks != [] && hits.Some?
    ensures |kb.index| > 0 && kb.chunks != [] && hits.Some? ==>
              r == if SelectChunksAsWritten(kb.chunks, hits.value) == [] then []
                   else header + Join(SelectChunksAsWritten(kb.chunks, hits.value), "\n")
    ensures header != [] ==> (r != [] <==> |kb.index| > 0 && kb.chunks != [] && hits.Some?
                                           && SelectChunksAsWritten(kb.chunks, hits.value) != [])
  {
    if |kb.index| > 0 && kb.chunks != [] && hits.Some? then
      var sel := SelectChunksAsWritten(kb.chunks, hits.value);
      if sel == [] then [] else header + Join(sel, "\n")
    else []
  }

  datatype Turn = Reply(text: string) | Request(messages: seq<Msg>)

  /** The main chat of the second frontend: a fixed reply without a key or
      without instructions; otherwise one system message (instructions,
      document excerpts, recalled history) and the last ten session
      messages. */
  function ApiTurn(apiKey: string, instructions: string, history: seq<Msg>, kb: KnowledgeBase,
                   hits: Option<seq<FaissId>>, recalled: seq<Msg>): (r: Turn)
    ensures apiKey == [] ==> r == Reply(NoKeyReply)
    ensures apiKey != [] && instructions == [] ==> r == Reply(NoInstructionsReply)
    ensures r.Request? <==> apiKey != [] && instructions != []
    ensures r.Request? ==>
              |r.messages| == 1 + (if |history| < ApiWindow then |history| else ApiWindow)
              && r.messages[0].role == "system"
              && StartsWith(r.messages[0].content, instructions)
              && EndsWith(r.messages[0].content, RecallContext(recalled))
              && r.messages[1..] == history[|history| - (|r.messages| - 1)..]
    ensures r.Request? ==>
              r.messages[0].content == instructions + DocBlock(DocumentsHeader, kb, hits) + RecallContext(recalled)
  {
    if apiKey == [] then Reply(NoKeyReply)
    else if instructions == [] then Reply(NoInstructionsReply)
    else
      var docs := DocBlock(DocumentsHeader, kb, hits);
      var recall := RecallContext(recalled);
      var system := instructions + docs + recall;
      assert system[..|instructions|] == instructions;
      assert system[|system| - |recall|..] == recall;
      var tail := LastN(history, ApiWindow);
      assert tail == history[|history| - |tail|..];
      Request([Msg("system", system)] + tail)
  }

  /** Without documents and without recalled history, the system prompt is
      the instructions alone. */
  lemma ApiTurnPlain(apiKey: string, instructions: string, history: seq<Msg>, kb: KnowledgeBase, hits: Option<seq<FaissId>>)
    requires apiKey != [] && instructions != []
    requires |kb.index| == 0 || hits.None?
    ensures ApiTurn(apiKey, instructions, history, kb, hits, []).messages[0] == Msg("system", instructions)
  {
  }

  /** A request's system prompt over a search of `min(3, len(chunks))`
      neighbours: the instructions, then the chunks the filled slots name,
      then one copy of the last chunk per empty slot, then the recalled
      history. */
  lemma {:induction false} ApiTurnSearch(apiKey: string, instructions: string, history: seq<Msg>, kb: KnowledgeBase,
                      hits: seq<FaissId>, recalled: seq<Msg>)
    requires apiKey != [] && instructions != []
    requires var k := Min(ChatNeighbours, |kb.chunks|);
             SearchResult(hits, |kb.index|, k) && 0 < |kb.index| <= |kb.chunks|
    ensures var k := Min(ChatNeighbours, |kb.chunks|);
            ApiTurn(apiKey, instructions, history, kb, Some(hits), recalled).messages[0].content
            == instructions + (DocumentsHeader + Join(PaddedPicks(kb.chunks, hits, |kb.index|, k), "\n"))
               + RecallContext(recalled)
  {
    var k := Min(ChatNeighbours, |kb.chunks|);
    DocBlockSearch(DocumentsHeader, kb, hits, k);
    ApiTurnSystem(apiKey, instructions, history, kb, Some(hits), recalled,
                  DocumentsHeader + Join(PaddedPicks(kb.chunks, hits, |kb.index|, k), "\n"));
  }

  lemma ApiTurnSystem(apiKey: string, instructions: string, history: seq<Msg>, kb: KnowledgeBase,
                      hits: Option<seq<FaissId>>, recalled: seq<Msg>, docs: string)
    requires apiKey != [] && instructions != [] && docs == DocBlock(DocumentsHeader, kb, hits)
    ensures ApiTurn(apiKey, instructions, history, kb, hits, recalled).messages[0].content
            == instructions + docs + RecallContext(recalled)
  {
  }

  /** The excerpt block over a search of `k > 0` neighbours. */
  lemma {:induction false} DocBlockSearch(header: string, kb: KnowledgeBase, hits: seq<FaissId>, k: nat)
    requires SearchResult(hits, |kb.index|, k) && 0 < |kb.index| <= |kb.chunks| && k > 0
    ensures DocBlock(header, kb, Some(hits)) == header + Join(PaddedPicks(kb.chunks, hits, |kb.index|, k), "\n")
  {
    SelectChunksAsWrittenSearch(kb.chunks, hits, |kb.index|, k);
  }

  /** The configuration chat's document context. */
  function ConfigDocContext(kb: KnowledgeBase, hits: Option<seq<FaissId>>): (r: string)
    ensures r != [] <==> |kb.index| > 0 && kb.chunks != [] && hits.Some? && SelectChunksAsWritten(kb.chunks, hits.value) != []
    ensures r != [] ==> r == ExcerptsHeader + Join(SelectChunksAsWritten(kb.chunks, hits.value), "\n")
  {
    DocBlock(ExcerptsHeader, kb, hits)
  }

  /** Over a search of `min(5, len(chunks))` neighbours, the configuration
      chat's excerpts are the chunks the filled slots name, then a copy of
      the last chunk per empty slot. */
  lemma {:induction false} ConfigDocContextSearch(kb: KnowledgeBase, hits: seq<FaissId>)
    requires var k := Min(ConfigNeighbours, |kb.chunks|);
             SearchResult(hits, |kb.index|, k) && 0 < |kb.index| <= |kb.chunks|
    ensures ConfigDocContext(kb, Some(hits))
            == ExcerptsHeader + Join(PaddedPicks(kb.chunks, hits, |kb.index|, Min(ConfigNeighbours, |kb.chunks|)), "\n")
  {
    DocBlockSearch(ExcerptsHeader, kb, hits, Min(ConfigNeighbours, |kb.chunks|));
  }

  /** When the search fills every slot with a vector position the index
      holds and the index is no longer than the chunk list, both selections
      agree, and the prompt carries one excerpt per slot. */
  lemma FullSearchSelectsEveryHit(kb: KnowledgeBase, hits: seq<FaissId>, k: nat)
    requires SearchResult(hits, |kb.index|, k) && k <= |kb.index| <= |kb.chunks|
    ensures |SelectChunks(kb.chunks, hits)| == k
    ensures k > 0 ==> SelectChunksAsWritten(kb.chunks, hits) == SelectChunks(kb.chunks, hits)
  {
    SelectChunksAllValid(kb.chunks, hits);
  }
}
