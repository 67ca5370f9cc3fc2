/** Saving and loading an assistant. The save directory is a map from file
    name to contents; each file has the shape its reader expects, and a file
    of any other shape stands for one whose reading raises. Both frontends
    load with `carregar_ou_inicializar_dados_assistente`, which resets the
    assistant part of the session state and then runs its loading block
    twice (the block occurs twice in the function body). The first frontend
    saves instructions under a markdown header in `_config.md`; the second
    saves them bare in `_instrucoes.txt` and keeps the other files in step
    with the session. Also `reset_session` in both versions. */
module ProfileStore {
  import opened Optional
  import opened Text
  import opened Chat
  import opened Documents
  import opened AssistantNames
  import ConfigFlow

  datatype File = TextFile(text: string) | ChunkFile(chunks: seq<string>) | IndexFile(vectors: seq<Vec>) | NameFile(names: seq<string>)

  type Directory = map<string, File>

  const FaissSuffix: string := "_faiss.index"
  const ChunksSuffix: string := "_chunks.json"
  const UploadedSuffix: string := "_uploaded_files.json"

  /** The assistant part of the session state. */
  datatype AssistantState = AssistantState(
    history: seq<Msg>,
    kb: KnowledgeBase,
    instructions: Option<string>,
    loading: bool,
    config: ConfigFlow.Config)

  /** Names for which nothing is loaded. */
  predicate IsPlaceholder(name: string) {
    name == NoneSaved || name == "Nenhum" || IsBlank(name)
  }

  /** The state every load starts from. */
  function FreshState(name: string): (s: AssistantState)
    ensures s.history == [] && s.kb == KnowledgeBase([], [], []) && s.instructions.None?
    ensures !s.loading && ConfigFlow.Get(s.config, "nome") == Some(name) && |s.config| == 1
  {
    AssistantState([], KnowledgeBase([], [], []), None, false, [("nome", name)])
  }

  // ----- the loading block --------------------------------------------------

  datatype Loaded = Loaded(state: AssistantState, dir: Directory, loaded: bool)

  /** The instructions file, read through `reader` (the first frontend's
      corrected reader drops the save header; see `ReadInstructions`). */
  function LoadInstructions(s: AssistantState, dir: Directory, file: string, reader: string -> string): (r: (AssistantState, bool))
    ensures r.1 <==> file in dir && dir[file].TextFile?
    ensures r.1 ==> r.0 == s.(instructions := Some(reader(dir[file].text)))
    ensures !r.1 ==> r.0 == s
  {
    if file in dir && dir[file].TextFile? then (s.(instructions := Some(reader(dir[file].text))), true)
    else (s, false)
  }

  /** Chunks, index and uploaded names. With both the chunks and the index
      file: all three are read, and any failure empties all three. With the
      chunks file alone: the chunks are read and, given a key, the index is
      rebuilt from them and written back. */
  function LoadKnowledge(s: AssistantState, dir: Directory, safe: string, apiKey: string, embed: Embedder): (r: Loaded)
    ensures r.state.history == s.history && r.state.instructions == s.instructions
    ensures r.state.loading == s.loading && r.state.config == s.config
    ensures r.dir == dir || r.dir == dir[SavedFileName(safe, FaissSuffix) := IndexFile(r.state.kb.index)]
    ensures r.loaded <==> BothReadable(dir, safe)
    ensures r.loaded ==> r.state.kb.chunks == dir[SavedFileName(safe, ChunksSuffix)].chunks
                         && r.state.kb.index == dir[SavedFileName(safe, FaissSuffix)].vectors
                         && r.state.kb.uploaded == (if SavedFileName(safe, UploadedSuffix) in dir
                                                    then dir[SavedFileName(safe, UploadedSuffix)].names
                                                    else s.kb.uploaded)
                         && r.dir == dir
    ensures SavedFileName(safe, ChunksSuffix) in dir && SavedFileName(safe, FaissSuffix) in dir && !BothReadable(dir, safe)
            ==> r.state.kb == KnowledgeBase([], [], []) && r.dir == dir
    ensures SavedFileName(safe, ChunksSuffix) in dir && SavedFileName(safe, FaissSuffix) !in dir
            && dir[SavedFileName(safe, ChunksSuffix)].ChunkFile?
            ==> var chunks := dir[SavedFileName(safe, ChunksSuffix)].chunks;
                var rebuilt := if chunks != [] && apiKey != [] then GenerateEmbeddings(chunks, apiKey, embed) else [];
                && r.state.kb.chunks == chunks && r.state.kb.uploaded == s.kb.uploaded
                && (rebuilt != [] ==> r.state.kb.index == rebuilt
                                      && r.dir == dir[SavedFileName(safe, FaissSuffix) := IndexFile(rebuilt)])
                && (rebuilt == [] ==> r.state.kb.index == s.kb.index && r.dir == dir)
    ensures SavedFileName(safe, ChunksSuffix) !in dir
            || (SavedFileName(safe, FaissSuffix) !in dir && !dir[SavedFileName(safe, ChunksSuffix)].ChunkFile?)
            ==> r.state == s && r.dir == dir
  {
    var chunksFile, faissFile, namesFile := SavedFileName(safe, ChunksSuffix), SavedFileName(safe, FaissSuffix), SavedFileName(safe, UploadedSuffix);
    if chunksFile in dir && faissFile in dir then
      if BothReadable(dir, safe) then
        var names := if namesFile in dir then dir[namesFile].names else s.kb.uploaded;
        Loaded(s.(kb := KnowledgeBase(names, dir[chunksFile].chunks, dir[faissFile].vectors)), dir, true)
      else
        Loaded(s.(kb := KnowledgeBase([], [], [])), dir, false)
    else if chunksFile in dir then
      if !dir[chunksFile].ChunkFile? then Loaded(s, dir, false)
      else
        var chunks := dir[chunksFile].chunks;
        var s1 := s.(kb := s.kb.(chunks := chunks));
        if chunks != [] && apiKey != [] then
          var vectors := GenerateEmbeddings(chunks, apiKey, embed);
          if vectors != [] then Loaded(s1.(kb := s1.kb.(index := vectors)), dir[faissFile := IndexFile(vectors)], false)
          else Loaded(s1, dir, false)
        else Loaded(s1, dir, false)
    else Loaded(s, dir, false)
  }

  /** Both knowledge files are there and every file the branch reads has the
      shape its reader expects. */
  predicate BothReadable(dir: Directory, safe: string) {
    var chunksFile, faissFile, namesFile := SavedFileName(safe, ChunksSuffix), SavedFileName(safe, FaissSuffix), SavedFileName(safe, UploadedSuffix);
    chunksFile in dir && faissFile in dir && dir[chunksFile].ChunkFile? && dir[faissFile].IndexFile?
    && (namesFile in dir ==> dir[namesFile].NameFile?)
  }

  /** One pass of the loading block. */
  function LoadBlock(s: AssistantState, dir: Directory, safe: string, suffix: string, reader: string -> string,
                     apiKey: string, embed: Embedder): (r: Loaded)
    ensures r.loaded <==> (SavedFileName(safe, suffix) in dir && dir[SavedFileName(safe, suffix)].TextFile?) || BothReadable(dir, safe)
    ensures r.state.history == s.history && r.state.config == s.config && r.state.loading == s.loading
  {
    var (s1, instructionsLoaded) := LoadInstructions(s, dir, SavedFileName(safe, suffix), reader);
    var k := LoadKnowledge(s1, dir, safe, apiKey, embed);
    Loaded(k.state, k.dir, instructionsLoaded || k.loaded)
  }

  /** `carregar_ou_inicializar_dados_assistente` of the first frontend
      without the mem0 part: reset, stop for a placeholder, otherwise the
      block twice. The loaded flag is the second pass's. */
  function Load(name: string, dir: Directory, suffix: string, reader: string -> string, apiKey: string, embed: Embedder): (r: Loaded)
    ensures IsPlaceholder(name) ==> r == Loaded(FreshState(name), dir, false)
    ensures r.state.history == [] && !r.state.loading && r.state.config == FreshState(name).config
  {
    if IsPlaceholder(name) then Loaded(FreshState(name), dir, false)
    else
      var safe := SafeName(name);
      var a := LoadBlock(FreshState(name), dir, safe, suffix, reader, apiKey, embed);
      LoadBlock(a.state, a.dir, safe, suffix, reader, apiKey, embed)
  }

  /** The second pass is not redundant: with a chunks file and no index
      file, the first pass rebuilds and writes the index, so the second pass
      finds both files and reports the assistant as loaded. */
  lemma SecondPassReportsRebuild(name: string, dir: Directory, suffix: string, reader: string -> string, apiKey: string, embed: Embedder)
    requires !IsPlaceholder(name)
    requires var safe := SafeName(name);
             SavedFileName(safe, ChunksSuffix) in dir && dir[SavedFileName(safe, ChunksSuffix)].ChunkFile?
             && SavedFileName(safe, FaissSuffix) !in dir
             && (SavedFileName(safe, UploadedSuffix) in dir ==> dir[SavedFileName(safe, UploadedSuffix)].NameFile?)
    requires GenerateEmbeddings(dir[SavedFileName(SafeName(name), ChunksSuffix)].chunks, apiKey, embed) != []
    ensures Load(name, dir, suffix, reader, apiKey, embed).loaded
    ensures LoadBlock(FreshState(name), dir, SafeName(name), suffix, reader, apiKey, embed).loaded
            <==> SavedFileName(SafeName(name), suffix) in dir && dir[SavedFileName(SafeName(name), suffix)].TextFile?
  {
    var safe := SafeName(name);
    var chunksFile, faissFile := SavedFileName(safe, ChunksSuffix), SavedFileName(safe, FaissSuffix);
    SuffixesDistinct(safe);
    var vectors := GenerateEmbeddings(dir[chunksFile].chunks, apiKey, embed);
    assert apiKey != [];
    var a := LoadBlock(FreshState(name), dir, safe, suffix, reader, apiKey, embed);
    assert a.dir == dir[faissFile := IndexFile(vectors)];
    assert BothReadable(a.dir, safe);
  }

  /** The three knowledge files of one assistant have different names. */
  lemma SuffixesDistinct(safe: string)
    ensures SavedFileName(safe, ChunksSuffix) != SavedFileName(safe, FaissSuffix)
    ensures SavedFileName(safe, ChunksSuffix) != SavedFileName(safe, UploadedSuffix)
    ensures SavedFileName(safe, FaissSuffix) != SavedFileName(safe, UploadedSuffix)
  {
    var p := Prefix + safe;
    assert SavedFileName(safe, ChunksSuffix) == p + ChunksSuffix;
    assert SavedFileName(safe, FaissSuffix) == p + FaissSuffix;
    assert SavedFileName(safe, UploadedSuffix) == p + UploadedSuffix;
    if p + ChunksSuffix == p + FaissSuffix { PrefixCancel(p, ChunksSuffix, FaissSuffix); }
    if p + ChunksSuffix == p + UploadedSuffix { PrefixCancel(p, ChunksSuffix, UploadedSuffix); }
    if p + FaissSuffix == p + UploadedSuffix { PrefixCancel(p, FaissSuffix, UploadedSuffix); }
  }

  /** Different suffixes give different file names. */
  lemma SavedFileNamesDistinct(safe: string, a: string, b: string)
    requires a != b
    ensures SavedFileName(safe, a) != SavedFileName(safe, b)
  {
    var p := Prefix + safe;
    assert SavedFileName(safe, a) == p + a && SavedFileName(safe, b) == p + b;
    if p + a == p + b {
      PrefixCancel(p, a, b);
    }
  }

  /** After a load, the instructions are what the reader makes of the
      instructions file, whatever the knowledge files hold. */
  lemma LoadReadsInstructions(name: string, dir: Directory, suffix: string, reader: string -> string, apiKey: string, embed: Embedder)
    requires !IsPlaceholder(name) && suffix != FaissSuffix
    requires SavedFileName(SafeName(name), suffix) in dir && dir[SavedFileName(SafeName(name), suffix)].TextFile?
    ensures Load(name, dir, suffix, reader, apiKey, embed).state.instructions
            == Some(reader(dir[SavedFileName(SafeName(name), suffix)].text))
    ensures Load(name, dir, suffix, reader, apiKey, embed).loaded
  {
    var safe := SafeName(name);
    var f := SavedFileName(safe, suffix);
    SavedFileNamesDistinct(safe, suffix, FaissSuffix);
    var a := LoadBlock(FreshState(name), dir, safe, suffix, reader, apiKey, embed);
    assert a.dir[f] == dir[f];
  }

  // ----- first frontend: the instructions file ------------------------------

  const ConfigTitle: string := "# Configuração do Assistente: "
  const ConfigMarker: string := "\n\n## Instruções Finais:\n"

  /** What the save button writes to `_config.md`. */
  function ConfigFileText(name: string, instructions: string): (r: string)
    ensures StartsWith(r, ConfigTitle + name) && EndsWith(r, ConfigMarker + instructions)
  {
    var r := ConfigTitle + name + ConfigMarker + instructions;
    assert r[..|ConfigTitle + name|] == ConfigTitle + name;
    assert r[|r| - |ConfigMarker + instructions|..] == ConfigMarker + instructions;
    r
  }

  /** Position of the first occurrence of `sub` in `s`. */
  function IndexOf(s: string, sub: string): (r: Option<nat>)
    ensures r.Some? ==> r.value <= |s| && StartsWith(s[r.value..], sub)
    ensures r.Some? ==> forall j :: 0 <= j < r.value ==> !StartsWith(s[j..], sub)
    ensures r.None? ==> forall j :: 0 <= j <= |s| ==> !StartsWith(s[j..], sub)
    decreases |s|
  {
    if StartsWith(s, sub) then
      assert s[0..] == s;
      Some(0)
    else if s == [] then None
    else
      var r := IndexOf(s[1..], sub);
      assert forall j :: 1 <= j <= |s| ==> s[j..] == s[1..][j - 1..];
      assert s[0..] == s;
      match r
      case None => None
      case Some(i) => Some(i + 1)
  }

  /** The reader that undoes the header: what follows the first marker,
      when the text opens with the title. */
  function ReadInstructions(text: string): (r: string)
    ensures !StartsWith(text, ConfigTitle) ==> r == text
    ensures |r| <= |text|
  {
    if StartsWith(text, ConfigTitle) then
      var rest := text[|ConfigTitle|..];
      match IndexOf(rest, ConfigMarker)
      case None => text
      case Some(i) => rest[i + |ConfigMarker|..]
    else text
  }

  /** The corrected reader inverts the save format for any name typed on one
      line. */
  lemma ReadConfigFile(name: string, instructions: string)
    requires '\n' !in name
    ensures ReadInstructions(ConfigFileText(name, instructions)) == instructions
  {
    var text := ConfigFileText(name, instructions);
    assert text == ConfigTitle + (name + ConfigMarker + instructions);
    assert text[..|ConfigTitle|] == ConfigTitle;
    var rest := text[|ConfigTitle|..];
    assert rest == name + ConfigMarker + instructions;
    forall j | 0 <= j < |name| ensures !StartsWith(rest[j..], ConfigMarker) {
      assert rest[j..][0] == name[j];
    }
    assert rest[|name|..] == ConfigMarker + instructions;
    assert StartsWith(rest[|name|..], ConfigMarker);
    assert IndexOf(rest, ConfigMarker) == Some(|name|);
    assert rest[|name| + |ConfigMarker|..] == instructions;
  }

  /** The code reads the file whole. */
  function Identity(text: string): string {
    text
  }

  /** The last assistant message of the configuration chat. */
  function LastAssistant(history: seq<Msg>): (r: Option<string>)
    ensures r.Some? ==> exists i :: 0 <= i < |history| && history[i] == Msg("assistant", r.value)
                                    && forall j :: i < j < |history| ==> history[j].role != "assistant"
    ensures r.None? ==> forall j :: 0 <= j < |history| ==> history[j].role != "assistant"
  {
    if |history| == 0 then None
    else
      var last := history[|history| - 1];
      if last.role == "assistant" then Some(last.content)
      else
        var r := LastAssistant(history[..|history| - 1]);
        assert forall j :: 0 <= j < |history| - 1 ==> history[..|history| - 1][j] == history[j];
        r
  }

  /** Replies this short are not taken for instructions. */
  const MinInferredLength: nat := 50

  const InstructionsChunkPrefix: string := "Instruções do Assistente: "

  /** How a save ends: refused for a missing name or missing instructions,
      saved, or failed inside the save's `try` after some files were
      written (the error is shown and nothing after it runs). */
  datatype SaveOutcome =
    | NameRequired
    | InstructionsRequired
    | Saved(dir: Directory, kb: KnowledgeBase, instructions: string)
    | SaveFailed(dir: Directory, instructions: string)

  /** The instructions the first frontend's save button uses: the session's
      own, or else the last assistant reply of the configuration chat when
      it is longer than fifty characters. */
  function SaveInstructions(instructions: Option<string>, configChat: seq<Msg>): (r: Option<string>)
    ensures instructions.Some? && instructions.value != [] ==> r == instructions
    ensures !(instructions.Some? && instructions.value != []) ==>
              (r.Some? <==> LastAssistant(configChat).Some? && |LastAssistant(configChat).value| > MinInferredLength)
              && (r.Some? ==> r == LastAssistant(configChat))
    ensures r.Some? ==> r.value != []
  {
    if instructions.Some? && instructions.value != [] then instructions
    else
      var inferred := LastAssistant(configChat);
      if inferred.Some? && |inferred.value| > MinInferredLength then inferred else None
  }

  /** The instructions become one more chunk, with its vector, when the
      embedding call gives one. */
  function AddInstructionsChunk(kb: KnowledgeBase, instructions: string, apiKey: string, embed: Embedder): (r: KnowledgeBase)
    ensures r.uploaded == kb.uploaded
    ensures r == kb || (r.chunks == kb.chunks + [InstructionsChunkPrefix + instructions]
                        && |r.index| == |kb.index| + 1 && r.index[..|kb.index|] == kb.index)
    ensures apiKey == [] ==> r == kb
  {
    var vectors := GenerateEmbeddings([instructions], apiKey, embed);
    if vectors != [] then kb.(chunks := kb.chunks + [InstructionsChunkPrefix + instructions], index := kb.index + [vectors[0]])
    else kb
  }

  /** The files the first frontend's save sets out to write: the
      instructions under the header, and the three knowledge files when the
      index is not empty. Nothing is removed. */
  function WriteSrcFiles(dir: Directory, safe: string, name: string, instructions: string, kb: KnowledgeBase): (r: Directory)
    ensures SavedFileName(safe, ConfigSuffix) in r && r[SavedFileName(safe, ConfigSuffix)] == TextFile(ConfigFileText(name, instructions))
    ensures kb.index != [] ==>
              && SavedFileName(safe, FaissSuffix) in r && r[SavedFileName(safe, FaissSuffix)] == IndexFile(kb.index)
              && SavedFileName(safe, ChunksSuffix) in r && r[SavedFileName(safe, ChunksSuffix)] == ChunkFile(kb.chunks)
              && SavedFileName(safe, UploadedSuffix) in r && r[SavedFileName(safe, UploadedSuffix)] == NameFile(kb.uploaded)
    ensures kb.index == [] ==> r == dir[SavedFileName(safe, ConfigSuffix) := TextFile(ConfigFileText(name, instructions))]
  {
    var configFile := SavedFileName(safe, ConfigSuffix);
    var dir1 := dir[configFile := TextFile(ConfigFileText(name, instructions))];
    SavedFileNamesDistinct(safe, ConfigSuffix, FaissSuffix);
    SavedFileNamesDistinct(safe, ConfigSuffix, ChunksSuffix);
    SavedFileNamesDistinct(safe, ConfigSuffix, UploadedSuffix);
    SuffixesDistinct(safe);
    if kb.index != [] then
      dir1[SavedFileName(safe, FaissSuffix) := IndexFile(kb.index)]
          [SavedFileName(safe, ChunksSuffix) := ChunkFile(kb.chunks)]
          [SavedFileName(safe, UploadedSuffix) := NameFile(kb.uploaded)]
    else dir1
  }

  /** The config file the first frontend's save writes first. */
  function WithConfig(dir: Directory, name: string, instructions: string): (r: Directory)
    ensures SavedFileName(SafeName(name), ConfigSuffix) in r
    ensures r[SavedFileName(SafeName(name), ConfigSuffix)] == TextFile(ConfigFileText(name, instructions))
    ensures forall f :: f != SavedFileName(SafeName(name), ConfigSuffix) ==> (f in r <==> f in dir) && (f in r ==> r[f] == dir[f])
  {
    dir[SavedFileName(SafeName(name), ConfigSuffix) := TextFile(ConfigFileText(name, instructions))]
  }

  /** The save button of the first frontend as written: a non-blank name is
      required, then instructions (see `SaveInstructions`); the config file
      is written and the instructions are offered to the embedding service.
      The module never imports `faiss`, so as soon as a vector is to be kept
      (`faiss.IndexFlatL2` for a missing index, or `faiss.write_index` for a
      non-empty one) the save raises and is reported as failed, with only
      the config file written. Without a vector the save succeeds and
      writes nothing else. */
  function SrcSave(name: Option<string>, instructions: Option<string>, configChat: seq<Msg>, kb: KnowledgeBase,
                   dir: Directory, apiKey: string, embed: Embedder): (r: SaveOutcome)
    ensures r.NameRequired? <==> name.None? || IsBlank(name.value)
    ensures r.InstructionsRequired? <==> !(name.None? || IsBlank(name.value)) && SaveInstructions(instructions, configChat).None?
    ensures r.Saved? || r.SaveFailed? ==>
              Some(r.instructions) == SaveInstructions(instructions, configChat) && r.dir == WithConfig(dir, name.value, r.instructions)
    ensures r.Saved? || r.SaveFailed? ==> (r.SaveFailed? <==> AddInstructionsChunk(kb, r.instructions, apiKey, embed).index != [])
    ensures r.Saved? ==> r.kb == kb && kb.index == []
  {
    if name.None? || IsBlank(name.value) then NameRequired
    else
      match SaveInstructions(instructions, configChat)
      case None => InstructionsRequired
      case Some(instr) =>
        var kb1 := AddInstructionsChunk(kb, instr, apiKey, embed);
        if kb1.index != [] then SaveFailed(WithConfig(dir, name.value, instr), instr)
        else Saved(WithConfig(dir, name.value, instr), kb1, instr)
  }

  /** The save as evidently intended, with `faiss` available as the second
      frontend imports it: the instructions are added to the knowledge base
      and all the files written. */
  function SrcSaveIntended(name: Option<string>, instructions: Option<string>, configChat: seq<Msg>, kb: KnowledgeBase,
                           dir: Directory, apiKey: string, embed: Embedder): (r: SaveOutcome)
    ensures r.NameRequired? <==> name.None? || IsBlank(name.value)
    ensures r.InstructionsRequired? <==> !(name.None? || IsBlank(name.value)) && SaveInstructions(instructions, configChat).None?
    ensures !r.SaveFailed?
    ensures r.Saved? ==> Some(r.instructions) == SaveInstructions(instructions, configChat)
                         && r.kb == AddInstructionsChunk(kb, r.instructions, apiKey, embed)
                         && r.dir == WriteSrcFiles(dir, SafeName(name.value), name.value, r.instructions, r.kb)
  {
    if name.None? || IsBlank(name.value) then NameRequired
    else
      match SaveInstructions(instructions, configChat)
      case None => InstructionsRequired
      case Some(instr) =>
        var kb1 := AddInstructionsChunk(kb, instr, apiKey, embed);
        Saved(WriteSrcFiles(dir, SafeName(name.value), name.value, instr, kb1), kb1, instr)
  }

  /** When the embedding service answers for the instructions, the save as
      written always fails. */
  lemma SrcSaveFailsWhenEmbedded(name: string, instructions: Option<string>, configChat: seq<Msg>, kb: KnowledgeBase,
                                 dir: Directory, apiKey: string, embed: Embedder)
    requires !IsBlank(name) && SaveInstructions(instructions, configChat).Some?
    requires GenerateEmbeddings([SaveInstructions(instructions, configChat).value], apiKey, embed) != []
    ensures SrcSave(Some(name), instructions, configChat, kb, dir, apiKey, embed).SaveFailed?
  {
  }

  /** The two saves agree exactly when no vector is kept; otherwise the save
      as written leaves every file but the config file as it was, while the
      intended save writes the knowledge files. */
  lemma SrcSaveAgrees(name: string, instructions: Option<string>, configChat: seq<Msg>, kb: KnowledgeBase,
                      dir: Directory, apiKey: string, embed: Embedder)
    ensures var r, i := SrcSave(Some(name), instructions, configChat, kb, dir, apiKey, embed),
                        SrcSaveIntended(Some(name), instructions, configChat, kb, dir, apiKey, embed);
            && (!r.SaveFailed? ==> r == i)
            && (r.SaveFailed? ==> i.Saved? && i.instructions == r.instructions && i.kb.index != []
                                  && var safe := SafeName(name);
                                     && i.dir[SavedFileName(safe, FaissSuffix)] == IndexFile(i.kb.index)
                                     && (SavedFileName(safe, FaissSuffix) in r.dir <==> SavedFileName(safe, FaissSuffix) in dir))
  {
    var r := SrcSave(Some(name), instructions, configChat, kb, dir, apiKey, embed);
    if r.SaveFailed? {
      SavedFileNamesDistinct(SafeName(name), ConfigSuffix, FaissSuffix);
      SuffixesDistinct(SafeName(name));
    } else if r.Saved? {
      var kb1 := AddInstructionsChunk(kb, r.instructions, apiKey, embed);
      assert kb1 == kb;
    }
  }

  /** A failed save of an assistant with no knowledge files leaves nothing
      for a later load to read: the knowledge part of the session stays as
      the load found it. */
  lemma SrcSaveLosesKnowledge(name: string, instructions: Option<string>, configChat: seq<Msg>, kb: KnowledgeBase,
                              dir: Directory, apiKey: string, embed: Embedder, s: AssistantState)
    requires SrcSave(Some(name), instructions, configChat, kb, dir, apiKey, embed).SaveFailed?
    requires SavedFileName(SafeName(name), ChunksSuffix) !in dir
    ensures var r := SrcSave(Some(name), instructions, configChat, kb, dir, apiKey, embed);
            LoadKnowledge(s, r.dir, SafeName(name), apiKey, embed) == Loaded(s, r.dir, false)
  {
    SavedFileNamesDistinct(SafeName(name), ConfigSuffix, ChunksSuffix);
    SuffixesDistinct(SafeName(name));
  }

  /** After the intended save with a non-empty index, loading the knowledge
      files gives back the saved knowledge base. */
  lemma SrcSaveIntendedKeepsKnowledge(name: string, instructions: Option<string>, configChat: seq<Msg>, kb: KnowledgeBase,
                                      dir: Directory, apiKey: string, embed: Embedder, s: AssistantState)
    requires SrcSaveIntended(Some(name), instructions, configChat, kb, dir, apiKey, embed).Saved?
    requires SrcSaveIntended(Some(name), instructions, configChat, kb, dir, apiKey, embed).kb.index != []
    ensures var r := SrcSaveIntended(Some(name), instructions, configChat, kb, dir, apiKey, embed);
            LoadKnowledge(s, r.dir, SafeName(name), apiKey, embed) == Loaded(s.(kb := r.kb), r.dir, true)
  {
  }

  /** Loading what was saved, by the name the listing shows: the code hands
      back the header together with the instructions, so every further save
      nests one more header. */
  lemma SrcReloadKeepsHeader(name: string, instructions: Option<string>, configChat: seq<Msg>, kb: KnowledgeBase,
                             dir: Directory, apiKey: string, embed: Embedder)
    requires SrcSave(Some(name), instructions, configChat, kb, dir, apiKey, embed).Saved? || SrcSave(Some(name), instructions, configChat, kb, dir, apiKey, embed).SaveFailed?
    requires !IsPlaceholder(DisplayName(SafeName(name))) && TitleExact(SafeName(name))
    ensures var saved := SrcSave(Some(name), instructions, configChat, kb, dir, apiKey, embed);
            Load(DisplayName(SafeName(name)), saved.dir, ConfigSuffix, Identity, apiKey, embed).state.instructions
            == Some(ConfigFileText(name, saved.instructions))
  {
    var saved := SrcSave(Some(name), instructions, configChat, kb, dir, apiKey, embed);
    ReloadByDisplayName(name);
    LoadReadsInstructions(DisplayName(SafeName(name)), saved.dir, ConfigSuffix, Identity, apiKey, embed);
  }

  /** With the corrected reader, loading returns exactly the saved
      instructions. */
  lemma SrcSaveThenLoad(name: string, instructions: Option<string>, configChat: seq<Msg>, kb: KnowledgeBase,
                        dir: Directory, apiKey: string, embed: Embedder)
    requires SrcSave(Some(name), instructions, configChat, kb, dir, apiKey, embed).Saved? || SrcSave(Some(name), instructions, configChat, kb, dir, apiKey, embed).SaveFailed?
    requires !IsPlaceholder(DisplayName(SafeName(name))) && TitleExact(SafeName(name)) && '\n' !in name
    ensures var saved := SrcSave(Some(name), instructions, configChat, kb, dir, apiKey, embed);
            Load(DisplayName(SafeName(name)), saved.dir, ConfigSuffix, ReadInstructions, apiKey, embed).state.instructions
            == Some(saved.instructions)
  {
    var saved := SrcSave(Some(name), instructions, configChat, kb, dir, apiKey, embed);
    ReloadByDisplayName(name);
    LoadReadsInstructions(DisplayName(SafeName(name)), saved.dir, ConfigSuffix, ReadInstructions, apiKey, embed);
    ReadConfigFile(name, saved.instructions);
  }

  /** The listed name of a saved assistant leads back to its files. */
  lemma ReloadByDisplayName(name: string)
    requires TitleExact(SafeName(name))
    ensures SafeName(DisplayName(SafeName(name))) == SafeName(name)
  {
    DisplayNameRoundTrip(SafeName(name));
  }

  // ----- second frontend: save and load -------------------------------------

  /** Writes `file` under `f` when `present`, otherwise removes `f`. */
  function Put(dir: Directory, f: string, present: bool, file: File): (r: Directory)
    ensures f in r <==> present
    ensures present ==> r[f] == file
    ensures forall g :: g != f ==> (g in r <==> g in dir) && (g in r ==> r[g] == dir[g])
  {
    if present then dir[f := file] else dir - {f}
  }

  /** The four files the second frontend keeps for one assistant. */
  function FrontendFiles(safe: string): set<string> {
    {SavedFileName(safe, InstructionsSuffix), SavedFileName(safe, FaissSuffix),
     SavedFileName(safe, ChunksSuffix), SavedFileName(safe, UploadedSuffix)}
  }

  /** The save button of the second frontend: nothing happens without
      instructions and a name; otherwise the instructions file is written and
      each knowledge file is written when the session holds something for it
      and removed when it does not. */
  function FrontendSave(dir: Directory, s: AssistantState, name: string): (r: Directory)
    ensures s.instructions.None? || s.instructions.value == [] || name == [] ==> r == dir
    ensures s.instructions.Some? && s.instructions.value != [] && name != [] ==>
              SavedAs(r, dir, s.instructions.value, s.kb, SafeName(name))
  {
    if s.instructions.None? || s.instructions.value == [] || name == [] then dir
    else WriteFiles(dir, s.instructions.value, s.kb, SafeName(name))
  }

  /** What the directory holds after a save under `safe`. */
  ghost predicate SavedAs(r: Directory, dir: Directory, instructions: string, kb: KnowledgeBase, safe: string) {
    && SavedFileName(safe, InstructionsSuffix) in r
    && r[SavedFileName(safe, InstructionsSuffix)] == TextFile(instructions)
    && (SavedFileName(safe, FaissSuffix) in r <==> kb.index != [])
    && (SavedFileName(safe, ChunksSuffix) in r <==> kb.chunks != [])
    && (SavedFileName(safe, UploadedSuffix) in r <==> kb.uploaded != [])
    && (kb.index != [] ==> r[SavedFileName(safe, FaissSuffix)] == IndexFile(kb.index))
    && (kb.chunks != [] ==> r[SavedFileName(safe, ChunksSuffix)] == ChunkFile(kb.chunks))
    && (kb.uploaded != [] ==> r[SavedFileName(safe, UploadedSuffix)] == NameFile(kb.uploaded))
    && forall g :: g !in FrontendFiles(safe) ==> (g in r <==> g in dir) && (g in r ==> r[g] == dir[g])
  }

  function WriteFiles(dir: Directory, instructions: string, kb: KnowledgeBase, safe: string): (r: Directory)
    ensures SavedAs(r, dir, instructions, kb, safe)
  {
    var fi, ff, fc, fu := SavedFileName(safe, InstructionsSuffix), SavedFileName(safe, FaissSuffix),
                          SavedFileName(safe, ChunksSuffix), SavedFileName(safe, UploadedSuffix);
    SuffixesDistinct(safe);
    SavedFileNamesDistinct(safe, InstructionsSuffix, FaissSuffix);
    SavedFileNamesDistinct(safe, InstructionsSuffix, ChunksSuffix);
    SavedFileNamesDistinct(safe, InstructionsSuffix, UploadedSuffix);
    var d1 := dir[fi := TextFile(instructions)];
    var d2 := Put(d1, ff, kb.index != [], IndexFile(kb.index));
    var d3 := Put(d2, fc, kb.chunks != [], ChunkFile(kb.chunks));
    Put(d3, fu, kb.uploaded != [], NameFile(kb.uploaded))
  }

  /** `carregar_ou_inicializar_dados_assistente` of the second frontend: the
      load of the first, with the mem0 client made between the two passes of
      the block and again after them. `mem0History` is what the client's
      history call returns, `None` when it raises; the history is taken over
      only when a client was made. The second result is the client's user
      id. */
  function FrontendLoad(username: string, name: string, dir: Directory, apiKey: string, mem0Key: string,
                        mem0History: Option<seq<Msg>>, embed: Embedder): (r: (Loaded, Option<string>))
    ensures IsPlaceholder(name) ==> r == (Loaded(FreshState(name), dir, false), None)
    ensures !IsPlaceholder(name) ==> r.1 == Mem0UserId(mem0Key, username, name)
    ensures r.0.state.history == (if !IsPlaceholder(name) && mem0Key != [] && mem0History.Some? then mem0History.value else [])
    ensures !r.0.state.loading && r.0.state.config == FreshState(name).config
  {
    if IsPlaceholder(name) then (Loaded(FreshState(name), dir, false), None)
    else
      var safe := SafeName(name);
      var a := LoadBlock(FreshState(name), dir, safe, InstructionsSuffix, Identity, apiKey, embed);
      var client := Mem0UserId(mem0Key, username, name);
      var s1 := if client.Some? && mem0History.Some? then a.state.(history := mem0History.value) else a.state;
      (LoadBlock(s1, a.dir, safe, InstructionsSuffix, Identity, apiKey, embed), client)
  }

  /** Loading what the second frontend saved, under any name with the same
      file-safe form, gives back the instructions and the knowledge base.
      The index and chunks must both be non-empty: with only one of them on
      disk the loading block does not read the other. */
  lemma FrontendSaveThenLoad(username: string, dir: Directory, s: AssistantState, name: string, loadName: string,
                             apiKey: string, mem0Key: string, mem0History: Option<seq<Msg>>, embed: Embedder)
    requires s.instructions.Some? && s.instructions.value != [] && name != []
    requires s.kb.index != [] && s.kb.chunks != []
    requires !IsPlaceholder(loadName) && SafeName(loadName) == SafeName(name)
    ensures var l := FrontendLoad(username, loadName, FrontendSave(dir, s, name), apiKey, mem0Key, mem0History, embed).0;
            l.loaded && l.state.instructions == s.instructions && l.state.kb == s.kb
  {
    var safe := SafeName(name);
    var saved := FrontendSave(dir, s, name);
    var a := LoadBlock(FreshState(loadName), saved, safe, InstructionsSuffix, Identity, apiKey, embed);
    LoadBlockOfSaved(FreshState(loadName), saved, dir, s.instructions.value, s.kb, safe, apiKey, embed);
    var client := Mem0UserId(mem0Key, username, loadName);
    var s1 := if client.Some? && mem0History.Some? then a.state.(history := mem0History.value) else a.state;
    LoadBlockOfSaved(s1, saved, dir, s.instructions.value, s.kb, safe, apiKey, embed);
  }

  /** One pass of the block over a saved directory reads back what was
      saved and writes nothing. With no uploaded-names file the names already
      in the state are kept, hence the condition on `s0`. */
  lemma LoadBlockOfSaved(s0: AssistantState, saved: Directory, dir: Directory, instructions: string, kb: KnowledgeBase,
                         safe: string, apiKey: string, embed: Embedder)
    requires SavedAs(saved, dir, instructions, kb, safe) && kb.index != [] && kb.chunks != []
    requires s0.kb.uploaded == [] || s0.kb.uploaded == kb.uploaded
    ensures var r := LoadBlock(s0, saved, safe, InstructionsSuffix, Identity, apiKey, embed);
            r.loaded && r.dir == saved && r.state.instructions == Some(instructions) && r.state.kb == kb
  {
    SuffixesDistinct(safe);
    assert BothReadable(saved, safe);
  }

  /** In particular under the name the assistant list shows for it. */
  lemma FrontendReloadByDisplayName(username: string, dir: Directory, s: AssistantState, name: string,
                                    apiKey: string, mem0Key: string, mem0History: Option<seq<Msg>>, embed: Embedder)
    requires s.instructions.Some? && s.instructions.value != [] && name != []
    requires s.kb.index != [] && s.kb.chunks != []
    requires !IsPlaceholder(DisplayName(SafeName(name))) && TitleExact(SafeName(name))
    ensures var l := FrontendLoad(username, DisplayName(SafeName(name)), FrontendSave(dir, s, name), apiKey, mem0Key, mem0History, embed).0;
            l.loaded && l.state.instructions == s.instructions && l.state.kb == s.kb
  {
    ReloadByDisplayName(name);
    FrontendSaveThenLoad(username, dir, s, name, DisplayName(SafeName(name)), apiKey, mem0Key, mem0History, embed);
  }

  /** An assistant saved as "nenhum" is listed as "Nenhum", which the load
      takes for the placeholder: its files are never read back. */
  lemma NenhumIsNeverLoaded(username: string, dir: Directory, apiKey: string, mem0Key: string,
                            mem0History: Option<seq<Msg>>, embed: Embedder)
    ensures FrontendLoad(username, DisplayName(SafeName("nenhum")), dir, apiKey, mem0Key, mem0History, embed).0
            == Loaded(FreshState("Nenhum"), dir, false)
  {
    NenhumListedAsNenhum();
  }

  lemma NenhumListedAsNenhum()
    ensures DisplayName(SafeName("nenhum")) == "Nenhum"
  {
    NenhumIsSafe();
    SafeNameOfSafe("nenhum");
    NenhumTitle();
  }

  lemma NenhumIsSafe()
    ensures IsSafe("nenhum")
  {
    assert IsStripped("nenhum");
  }

  lemma NenhumTitle()
    ensures DisplayName("nenhum") == "Nenhum"
  {
    NenhumHasNoUnderscore();
    TitleOfLowerWord("nenhum");
    NenhumCapital();
  }

  lemma NenhumHasNoUnderscore()
    ensures ReplaceChar("nenhum", '_', ' ') == "nenhum"
  {
  }

  lemma NenhumCapital()
    ensures [UpperChar("nenhum"[0])] + "nenhum"[1..] == "Nenhum"
  {
    var w := "nenhum";
    assert UpperChar(w[0]) == 'N';
    assert w[1..] == "enhum";
  }

  // ----- reset_session ------------------------------------------------------

  /** Keys `reset_session` of the first frontend removes. */
  const SrcResetKeys: set<string> := {
    "username", "assistente_selecionado", "menu_sidebar", "chat_history", "config_chat_history",
    "assistente_config", "instrucoes_finais", "uploaded_files", "doc_chunks", "faiss_index",
    "config_flow_initial_message_shown", "config_flow_complete", "current_config_step_key",
    "loading_ia", "chat_mode", "chat_principal_history"}

  /** Keys `reset_session` of the second frontend removes. */
  const FrontendResetKeys: set<string> := {
    "username", "assistente_selecionado", "assistente_novo", "chat_history", "chat_mode",
    "uploaded_files", "assistente_config", "faiss_index", "doc_chunks", "mem0_instance",
    "instrucoes_finais", "config_flow_complete", "current_config_step_key",
    "config_flow_initial_message_shown", "loading_ia"}

  /** Deletes the listed keys that are present; the rest of the session is
      kept as it was. */
  function ResetSession<V>(session: map<string, V>, keys: set<string>): (r: map<string, V>)
    ensures forall k :: k in r <==> k in session && k !in keys
    ensures forall k :: k in r ==> r[k] == session[k]
  {
    session - keys
  }

  /** Resetting twice is resetting once. */
  lemma ResetIdempotent<V>(session: map<string, V>, keys: set<string>)
    ensures ResetSession(ResetSession(session, keys), keys) == ResetSession(session, keys)
  {
    var once := ResetSession(session, keys);
    assert forall k :: k in ResetSession(once, keys) <==> k in once;
  }

  /** The two versions differ: the first clears the main chat history and
      keeps a mem0 client key, the second does the opposite. */
  lemma ResetVersionsDiffer<V>(session: map<string, V>)
    requires "chat_principal_history" in session && "mem0_instance" in session
    ensures "chat_principal_history" !in ResetSession(session, SrcResetKeys)
    ensures "chat_principal_history" in ResetSession(session, FrontendResetKeys)
    ensures "mem0_instance" in ResetSession(session, SrcResetKeys)
    ensures "mem0_instance" !in ResetSession(session, FrontendResetKeys)
  {
  }
}
