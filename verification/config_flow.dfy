/** The configuration dialogue both frontends run to create an assistant:
    four fixed questions answered in order, the replies stored in an ordered
    dictionary, then a free conversation with the model until it produces the
    final instructions; and the save button's name and enablement rules. */
module ConfigFlow {
  import opened Optional
  import opened Text
  import opened Chat

  // ----- the configuration dictionary ---------------------------------------

  /** A Python dict of strings: entries in insertion order, keys distinct. */
  type Config = seq<(string, string)>

  predicate DistinctKeys(cfg: Config) {
    forall i, j :: 0 <= i < j < |cfg| ==> cfg[i].0 != cfg[j].0
  }

  /** `cfg.get(key)`. */
  function Get(cfg: Config, key: string): (r: Option<string>)
    ensures r.None? <==> forall i :: 0 <= i < |cfg| ==> cfg[i].0 != key
  {
    if |cfg| == 0 then None
    else if cfg[0].0 == key then Some(cfg[0].1)
    else
      var r := Get(cfg[1..], key);
      assert forall i :: 1 <= i < |cfg| ==> cfg[i] == cfg[1..][i - 1];
      r
  }

  /** What `Get` finds is the value of the first entry with the key. */
  lemma {:induction false} GetFirst(cfg: Config, key: string)
    requires Get(cfg, key).Some?
    ensures exists i :: 0 <= i < |cfg| && cfg[i] == (key, Get(cfg, key).value)
                        && forall j :: 0 <= j < i ==> cfg[j].0 != key
  {
    if cfg[0].0 == key {
      assert cfg[0] == (key, Get(cfg, key).value);
    } else {
      var tail := cfg[1..];
      assert Get(cfg, key) == Get(tail, key);
      GetFirst(tail, key);
      var i :| 0 <= i < |tail| && tail[i] == (key, Get(tail, key).value)
               && forall j :: 0 <= j < i ==> tail[j].0 != key;
      assert cfg[i + 1] == tail[i];
      forall j | 0 <= j < i + 1 ensures cfg[j].0 != key {
        if j > 0 { assert cfg[j] == tail[j - 1]; }
      }
    }
  }

  /** `cfg[key] = value`: an existing key keeps its place, a new one goes
      last. */
  function Set(cfg: Config, key: string, value: string): (r: Config)
    ensures |r| == if Get(cfg, key).Some? then |cfg| else |cfg| + 1
    ensures Get(cfg, key).None? ==> r == cfg + [(key, value)]
  {
    if |cfg| == 0 then [(key, value)]
    else if cfg[0].0 == key then [(key, value)] + cfg[1..]
    else [cfg[0]] + Set(cfg[1..], key, value)
  }

  /** Setting keeps every existing key in its place. */
  lemma {:induction false} SetKeepsOrder(cfg: Config, key: string, value: string)
    ensures forall i :: 0 <= i < |cfg| ==> Set(cfg, key, value)[i].0 == cfg[i].0
  {
    if |cfg| > 0 && cfg[0].0 != key {
      SetKeepsOrder(cfg[1..], key, value);
      assert Set(cfg, key, value)[1..] == Set(cfg[1..], key, value);
    }
  }

  /** The dictionary laws: the key now reads as the value and every other
      key reads as before. */
  lemma {:induction false} GetSet(cfg: Config, key: string, value: string, other: string)
    ensures Get(Set(cfg, key, value), key) == Some(value)
    ensures other != key ==> Get(Set(cfg, key, value), other) == Get(cfg, other)
  {
    if |cfg| > 0 && cfg[0].0 != key {
      var r := Set(cfg, key, value);
      GetSet(cfg[1..], key, value, other);
      assert r[0] == cfg[0] && r[1..] == Set(cfg[1..], key, value);
    }
  }

  /** And keys stay distinct. */
  lemma SetDistinct(cfg: Config, key: string, value: string)
    requires DistinctKeys(cfg)
    ensures DistinctKeys(Set(cfg, key, value))
  {
    var r := Set(cfg, key, value);
    if Get(cfg, key).None? {
      forall i, j | 0 <= i < j < |r| ensures r[i].0 != r[j].0 {
        assert r[i] == cfg[i];
        if j < |cfg| {
          assert r[j] == cfg[j];
        } else {
          assert r[j].0 == key;
        }
      }
    } else {
      SetKeepsOrder(cfg, key, value);
      forall i, j | 0 <= i < j < |r| ensures r[i].0 != r[j].0 {
        assert r[i].0 == cfg[i].0 && r[j].0 == cfg[j].0;
      }
    }
  }

  // ----- the four questions -------------------------------------------------

  /** `CONFIG_STEPS_ORDER`. */
  const Steps: seq<string> := ["nome", "estilo", "funcoes", "fontes_info"]

  /** Every step has an answer. */
  predicate Filled(cfg: Config) {
    forall i :: 0 <= i < |Steps| ==> Get(cfg, Steps[i]).Some?
  }

  /** `k` is the first step without an answer. */
  predicate IsNextStep(cfg: Config, k: string) {
    exists i :: 0 <= i < |Steps| && Steps[i] == k && Get(cfg, k).None?
                && forall j :: 0 <= j < i ==> Get(cfg, Steps[j]).Some?
  }

  /** Position of the first of `steps` with no answer. */
  function FirstMissing(cfg: Config, steps: seq<string>): (r: Option<nat>)
    ensures r.None? ==> forall i :: 0 <= i < |steps| ==> Get(cfg, steps[i]).Some?
    ensures r.Some? ==> r.value < |steps| && Get(cfg, steps[r.value]).None?
                        && forall j :: 0 <= j < r.value ==> Get(cfg, steps[j]).Some?
  {
    if |steps| == 0 then None
    else if Get(cfg, steps[0]).None? then Some(0)
    else
      match FirstMissing(cfg, steps[1..])
      case None => None
      case Some(i) => Some(i + 1)
  }

  /** The `for step_key in CONFIG_STEPS_ORDER` search. */
  function NextStep(cfg: Config): (r: Option<string>)
    ensures r.None? <==> Filled(cfg)
    ensures r.Some? ==> IsNextStep(cfg, r.value)
  {
    match FirstMissing(cfg, Steps)
    case None => None
    case Some(i) => Some(Steps[i])
  }

  /** The current step of the configuration page. */
  datatype Flow = Flow(config: Config, complete: bool, current: Option<string>)

  /** A reply goes into the configuration rather than to the model. */
  predicate Pending(f: Flow) {
    !f.complete && f.current.Some? && f.current.value != []
  }

  /** First visit to the page: editing an assistant whose instructions are
      loaded starts complete; everything else starts at the first question.
      `editing` is `chat_mode == "editar"` with an assistant selected. */
  function InitFlow(cfg: Config, editing: bool, hasInstructions: bool): (f: Flow)
    ensures f.config == cfg
    ensures f.complete <==> editing && hasInstructions
    ensures f.complete <==> f.current.None?
    ensures !f.complete ==> f.current == Some(Steps[0])
  {
    var complete := editing && hasInstructions;
    Flow(cfg, complete, if complete then None else Some(Steps[0]))
  }

  /** The step logic at the top of every render: when creating, point at the
      first unanswered step, or mark the flow complete when there is none.
      Nothing moves while editing. */
  function Advance(f: Flow, editing: bool): (r: Flow)
    ensures r.config == f.config
    ensures editing || f.complete ==> r == f
    ensures !editing && !f.complete ==>
              (r.complete <==> Filled(f.config)) && (r.complete <==> r.current.None?)
    ensures !editing && !f.complete && r.current.Some? ==> IsNextStep(f.config, r.current.value)
  {
    if editing || f.complete then f
    else
      match NextStep(f.config)
      case None => f.(complete := true, current := None)
      case Some(k) => f.(current := Some(k))
  }

  /** What happens to a submitted reply. */
  datatype Captured = Ignored | Stored(flow: Flow) | ToModel

  /** The submitted text, stripped (`prompt.strip()`): empty is ignored, a
      reply to a pending step is stored under that step, anything else goes
      to the model. */
  function Route(f: Flow, reply: string): (r: Captured)
    ensures r.Ignored? <==> reply == []
    ensures r.Stored? <==> reply != [] && Pending(f)
    ensures r.Stored? ==> r.flow.complete == f.complete && r.flow.current == f.current
                          && Get(r.flow.config, f.current.value) == Some(reply)
                          && forall k :: k != f.current.value ==> Get(r.flow.config, k) == Get(f.config, k)
  {
    if reply == [] then Ignored
    else if Pending(f) then
      GetSetAll(f.config, f.current.value, reply);
      Stored(f.(config := Set(f.config, f.current.value, reply)))
    else ToModel
  }

  /** A non-blank reply is stored, stripped, under the pending step; without
      a pending step it goes to the model. */
  function Capture(f: Flow, prompt: string): (r: Captured)
    ensures r.Ignored? <==> IsBlank(prompt)
    ensures r.Stored? <==> !IsBlank(prompt) && Pending(f)
    ensures r.Stored? ==> Get(r.flow.config, f.current.value) == Some(Strip(prompt))
  {
    Route(f, Strip(prompt))
  }

  lemma GetSetAll(cfg: Config, key: string, value: string)
    ensures Get(Set(cfg, key, value), key) == Some(value)
    ensures forall k :: k != key ==> Get(Set(cfg, key, value), k) == Get(cfg, k)
  {
    forall k ensures k == key || Get(Set(cfg, key, value), k) == Get(cfg, k) {
      GetSet(cfg, key, value, k);
    }
    GetSet(cfg, key, value, key);
  }

  /** One stripped reply while creating: route it, then the re-render's step
      logic. */
  function CreateTurn(f: Flow, reply: string): (r: Flow)
    ensures reply == [] || !Pending(f) ==> r == f
    ensures reply != [] && Pending(f) ==>
              && Get(r.config, f.current.value) == Some(reply)
              && (forall k :: k != f.current.value ==> Get(r.config, k) == Get(f.config, k))
              && (r.complete <==> Filled(r.config)) && (r.complete <==> r.current.None?)
              && (r.current.Some? ==> IsNextStep(r.config, r.current.value))
  {
    match Route(f, reply)
    case Stored(g) => Advance(g, false)
    case _ => f
  }

  /** The four step keys are distinct. */
  lemma StepsDistinct(i: nat, j: nat)
    requires i < |Steps| && j < |Steps| && i != j
    ensures Steps[i] != Steps[j]
  {
  }

  /** The flow is at step `i` with the first `i` steps holding `answers`
      and the later ones open (`i == 4`: complete). */
  predicate AtStep(f: Flow, i: nat, answers: seq<string>) {
    && i <= |Steps| && |answers| == i
    && (forall j :: 0 <= j < i ==> Get(f.config, Steps[j]) == Some(answers[j]))
    && (forall j :: i <= j < |Steps| ==> Get(f.config, Steps[j]).None?)
    && (i < |Steps| ==> !f.complete && f.current == Some(Steps[i]))
    && (i == |Steps| ==> f.complete && f.current.None?)
  }

  /** Answering the pending step stores the answer and moves to the next
      step, or completes the flow after the last one. */
  lemma AnswerStep(f: Flow, i: nat, answers: seq<string>, reply: string)
    requires AtStep(f, i, answers) && i < |Steps| && reply != []
    ensures AtStep(CreateTurn(f, reply), i + 1, answers + [reply])
  {
    var c := Route(f, reply);
    var h := c.flow.config;
    var ans := answers + [reply];
    forall j | 0 <= j <= i ensures Get(h, Steps[j]) == Some(ans[j]) {
      if j < i { StepsDistinct(i, j); }
    }
    forall j | i < j < |Steps| ensures Get(h, Steps[j]).None? {
      StepsDistinct(i, j);
    }
    if i + 1 < |Steps| {
      FirstMissingAt(h, Steps, i + 1);
    } else {
      assert Filled(h);
    }
  }

  /** The first missing step is the one with every earlier step answered. */
  lemma {:induction false} FirstMissingAt(cfg: Config, steps: seq<string>, i: nat)
    requires i < |steps| && Get(cfg, steps[i]).None?
    requires forall j :: 0 <= j < i ==> Get(cfg, steps[j]).Some?
    ensures FirstMissing(cfg, steps) == Some(i)
  {
    if i > 0 {
      assert Get(cfg, steps[0]).Some?;
      FirstMissingAt(cfg, steps[1..], i - 1);
    }
  }

  /** A sequence of stripped replies while creating. */
  function CreateTurns(f: Flow, replies: seq<string>): (r: Flow)
    ensures f.complete ==> r == f
    decreases |replies|
  {
    if |replies| == 0 then f else CreateTurns(CreateTurn(f, replies[0]), replies[1..])
  }

  predicate AllNonEmpty(replies: seq<string>) {
    forall j :: 0 <= j < |replies| ==> replies[j] != []
  }

  lemma AllNonEmptyTail(replies: seq<string>)
    requires |replies| > 0 && AllNonEmpty(replies)
    ensures replies[0] != [] && AllNonEmpty(replies[1..])
  {
    assert forall j :: 0 <= j < |replies[1..]| ==> replies[1..][j] == replies[j + 1];
  }

  lemma ShiftFirst(a: seq<string>, b: seq<string>)
    requires |b| > 0
    ensures a + b == (a + [b[0]]) + b[1..]
  {
    assert b == [b[0]] + b[1..];
  }

  lemma CreateTurnsStep(f: Flow, replies: seq<string>)
    requires |replies| > 0
    ensures CreateTurns(f, replies) == CreateTurns(CreateTurn(f, replies[0]), replies[1..])
  {
  }

  lemma AtStepCongruent(f: Flow, i: nat, answers: seq<string>, f': Flow, i': nat, answers': seq<string>)
    requires AtStep(f, i, answers) && f == f' && i == i' && answers == answers'
    ensures AtStep(f', i', answers')
  {
  }

  lemma {:induction false} AnswerSteps(f: Flow, i: nat, answers: seq<string>, replies: seq<string>)
    requires AtStep(f, i, answers) && i + |replies| <= |Steps| && AllNonEmpty(replies)
    ensures AtStep(CreateTurns(f, replies), i + |replies|, answers + replies)
    decreases |replies|
  {
    if |replies| > 0 {
      var g, rest := CreateTurn(f, replies[0]), replies[1..];
      AllNonEmptyTail(replies);
      AnswerStep(f, i, answers, replies[0]);
      AnswerSteps(g, i + 1, answers + [replies[0]], rest);
      ShiftFirst(answers, replies);
      CreateTurnsStep(f, replies);
      AtStepCongruent(CreateTurns(g, rest), i + 1 + |rest|, answers + [replies[0]] + rest,
                      CreateTurns(f, replies), i + |replies|, answers + replies);
    } else {
      assert answers + replies == answers;
    }
  }

  /** Four non-empty replies on a new assistant fill the four steps in
      order and complete the flow. */
  lemma FourRepliesComplete(replies: seq<string>)
    requires |replies| == |Steps| && AllNonEmpty(replies)
    ensures var f := CreateTurns(InitFlow([], false, false), replies);
            f.complete && f.current.None? && Filled(f.config)
            && forall j :: 0 <= j < |Steps| ==> Get(f.config, Steps[j]) == Some(replies[j])
  {
    AnswerSteps(InitFlow([], false, false), 0, [], replies);
    assert [] + replies == replies;
  }

  /** Editing an assistant whose instructions are empty starts pending on
      the name step and never advances, so every reply overwrites the name. */
  lemma EditingWithoutInstructionsOverwritesName(cfg: Config, prompt: string)
    requires !IsBlank(prompt)
    ensures var f := Advance(InitFlow(cfg, true, false), true);
            Capture(f, prompt).Stored?
            && Get(Capture(f, prompt).flow.config, "nome") == Some(Strip(prompt))
            && Advance(Capture(f, prompt).flow, true).current == Some("nome")
  {
  }

  // ----- final instructions -------------------------------------------------

  /** The heading the second frontend's model is told to start with. */
  const FinalHeading: string := "Instruções Finais:"

  /** `resposta.lower().startswith("instruções finais:")` */
  const FinalPrefix: string := "instruções finais:"

  /** Second frontend: the stripped reply becomes the final instructions,
      heading included, iff it starts with the heading in any letter case. */
  function DetectFinal(reply: string): (r: Option<string>)
    ensures r.Some? ==> r.value == Strip(reply)
    ensures r.Some? <==> |Strip(reply)| >= |FinalPrefix| && Lower(Strip(reply)[..|FinalPrefix|]) == FinalPrefix
  {
    var s := Strip(reply);
    LowerPrefix(s, |FinalPrefix|);
    if StartsWith(Lower(s), FinalPrefix) then Some(s) else None
  }

  /** Lower-casing commutes with taking a prefix. */
  lemma LowerPrefix(s: string, n: nat)
    ensures n <= |s| ==> Lower(s)[..n] == Lower(s[..n])
  {
  }

  lemma StripIsStripped(s: string)
    ensures IsStripped(Strip(s))
  {
  }

  /** Detection is stable: the stored instructions, replayed, are detected
      again and stored unchanged. */
  lemma DetectFinalIdempotent(reply: string)
    requires DetectFinal(reply).Some?
    ensures DetectFinal(DetectFinal(reply).value) == DetectFinal(reply)
  {
    StripIsStripped(reply);
    StripOfStripped(Strip(reply));
  }

  lemma LowerUpper(s: string)
    requires forall i :: 0 <= i < |s| ==> s[i] != '\U{00B5}'
    ensures Lower(Upper(s)) == Lower(s)
  {
    forall i | 0 <= i < |s| ensures Lower(Upper(s))[i] == Lower(s)[i] {
      LowerUpperChar(s[i]);
    }
  }

  lemma LowerHeading()
    ensures Lower(FinalHeading) == FinalPrefix
  {
  }

  /** A stripped reply whose first characters lower-case to the prefix is
      detected and stored whole. */
  lemma DetectsHeaded(h: string, t: string)
    requires Lower(h) == FinalPrefix && IsStripped(h + t)
    ensures DetectFinal(h + t) == Some(h + t)
  {
    StripOfStripped(h + t);
    assert (h + t)[..|FinalPrefix|] == h;
  }

  /** A reply that starts with the heading, in the model's casing or in
      capitals, is detected and stored whole. */
  lemma HeadingDetected(t: string)
    requires t == [] || !IsSpace(t[|t| - 1])
    ensures DetectFinal(FinalHeading + t) == Some(FinalHeading + t)
    ensures DetectFinal(Upper(FinalHeading) + t) == Some(Upper(FinalHeading) + t)
  {
    var u := Upper(FinalHeading);
    LowerHeading();
    assert forall i :: 0 <= i < |FinalHeading| ==> FinalHeading[i] != '\U{00B5}';
    LowerUpper(FinalHeading);
    assert u[0] == 'I' && u[|u| - 1] == ':';
    assert IsStripped(FinalHeading + t) && IsStripped(u + t) by {
      assert (FinalHeading + t)[0] == 'I' && (u + t)[0] == 'I';
      if t == [] {
        assert FinalHeading + t == FinalHeading && u + t == u;
      } else {
        assert (FinalHeading + t)[|FinalHeading + t| - 1] == t[|t| - 1];
        assert (u + t)[|u + t| - 1] == t[|t| - 1];
      }
    }
    DetectsHeaded(FinalHeading, t);
    DetectsHeaded(u, t);
  }

  /** First frontend: a keyword heuristic over the reply and the user's
      request. */
  function SrcDetectFinal(prompt: string, reply: string): (r: bool)
    ensures |reply| < 24 && !StartsWith(Lower(prompt), "gerar instruções") ==> !r
  {
    ContainsShorter(Lower(reply), "instruções finais geradas");
    ContainsShorter(Lower(reply), "prompt de sistema gerado");
    Contains(Lower(reply), "instruções finais geradas")
    || Contains(Lower(reply), "prompt de sistema gerado")
    || (StartsWith(Lower(prompt), "gerar instruções") && |reply| > 50)
  }

  /** No text contains a longer one. */
  lemma {:induction false} ContainsShorter(s: string, sub: string)
    ensures |s| < |sub| ==> !Contains(s, sub)
    decreases |s|
  {
    if 0 < |s| < |sub| {
      ContainsShorter(s[1..], sub);
    }
  }

  /** Any reply the heuristic takes as instructions for a "gerar instruções"
      request, however unrelated its text. */
  lemma SrcDetectsLongReplyToRequest(prompt: string, reply: string)
    requires StartsWith(prompt, "gerar instruções") && |reply| > 50
    ensures SrcDetectFinal(prompt, reply)
  {
    assert Lower(prompt)[..16] == Lower(prompt[..16]);
    assert Lower("gerar instruções") == "gerar instruções";
  }

  /** The two frontends disagree: a short reply with the heading is final
      instructions for the second and not for the first. */
  lemma DetectorsDisagree()
    ensures DetectFinal(FinalHeading + " ok").Some?
    ensures !SrcDetectFinal("ok", FinalHeading + " ok")
  {
    HeadingDetected(" ok");
  }

  // ----- summaries sent to the model ----------------------------------------

  /** First frontend: `f"- {key.capitalize()}: {value}\n"`. */
  function SrcSummaryLine(key: string, value: string): string {
    "- " + Capitalize(key) + ": " + value + "\n"
  }

  const SrcSummaryHeader: string := "\n\nInformações coletadas até agora:\n"

  /** One bullet line per entry, in the dictionary's order, whatever the value. */
  function SrcSummaryLines(cfg: Config): (r: seq<string>)
    ensures |r| == |cfg|
  {
    seq(|cfg|, i requires 0 <= i < |cfg| => SrcSummaryLine(cfg[i].0, cfg[i].1))
  }

  /** Each line is a bullet ending with its entry's value. */
  lemma SrcSummaryLinesShape(cfg: Config)
    ensures forall i :: 0 <= i < |cfg| ==>
              StartsWith(SrcSummaryLines(cfg)[i], "- ") && EndsWith(SrcSummaryLines(cfg)[i], ": " + cfg[i].1 + "\n")
  {
    forall i | 0 <= i < |cfg|
      ensures StartsWith(SrcSummaryLines(cfg)[i], "- ") && EndsWith(SrcSummaryLines(cfg)[i], ": " + cfg[i].1 + "\n")
    {
      SrcSummaryLineShape(cfg[i].0, cfg[i].1);
    }
  }

  lemma SrcSummaryLineShape(key: string, value: string)
    ensures StartsWith(SrcSummaryLine(key, value), "- ")
    ensures EndsWith(SrcSummaryLine(key, value), ": " + value + "\n")
  {
    var line := SrcSummaryLine(key, value);
    var tail := ": " + value + "\n";
    assert line == ("- " + Capitalize(key)) + tail;
    assert line[..2] == "- ";
    assert line[|line| - |tail|..] == tail;
  }

  /** The lines of two configurations in a row are the lines of each. */
  lemma SrcSummaryLinesAppend(a: Config, b: Config)
    ensures SrcSummaryLines(a + b) == SrcSummaryLines(a) + SrcSummaryLines(b)
  {
    var l, la, lb := SrcSummaryLines(a + b), SrcSummaryLines(a), SrcSummaryLines(b);
    forall i | 0 <= i < |a + b| ensures l[i] == (la + lb)[i] {
      if i < |a| { assert (a + b)[i] == a[i]; } else { assert (a + b)[i] == b[i - |a|]; }
    }
  }

  /** The collected-information message: none for an empty configuration,
      otherwise the header and one line per entry. */
  function SrcSummary(cfg: Config): (r: Option<string>)
    ensures r.None? <==> cfg == []
    ensures r.Some? ==> StartsWith(r.value, SrcSummaryHeader)
  {
    if cfg == [] then None
    else
      var body := Concat(SrcSummaryLines(cfg));
      assert (SrcSummaryHeader + body)[..|SrcSummaryHeader|] == SrcSummaryHeader;
      Some(SrcSummaryHeader + body)
  }

  /** Answering a new step adds exactly its line at the end of the summary. */
  lemma SrcSummaryAfterNewKey(cfg: Config, key: string, value: string)
    requires cfg != [] && Get(cfg, key).None?
    ensures SrcSummary(Set(cfg, key, value)) == Some(SrcSummary(cfg).value + SrcSummaryLine(key, value))
  {
    var c := cfg + [(key, value)];
    assert Set(cfg, key, value) == c;
    var line := SrcSummaryLine(key, value);
    SrcSummaryLinesAppend(cfg, [(key, value)]);
    assert SrcSummaryLines([(key, value)]) == [line];
    ConcatAppend(SrcSummaryLines(cfg), [line]);
    assert Concat([line]) == line + Concat([]);
    assert SrcSummaryHeader + Concat(SrcSummaryLines(c)) == (SrcSummaryHeader + Concat(SrcSummaryLines(cfg))) + line;
  }

  /** Second frontend: `f"- {key.capitalize().replace('_', ' ')}: {value}"`. */
  function SummaryLine(key: string, value: string): string {
    "- " + ReplaceChar(Capitalize(key), '_', ' ') + ": " + value
  }

  /** One line per entry with a non-empty value, in entry order. */
  function SummaryLines(cfg: Config): (r: seq<string>)
    ensures |r| <= |cfg|
    ensures r == [] <==> forall i :: 0 <= i < |cfg| ==> cfg[i].1 == []
    ensures forall j :: 0 <= j < |r| ==> StartsWith(r[j], "- ")
  {
    if |cfg| == 0 then []
    else
      var front := cfg[..|cfg| - 1];
      var init := SummaryLines(front);
      var last := cfg[|cfg| - 1];
      var line := SummaryLine(last.0, last.1);
      assert (forall i :: 0 <= i < |cfg| ==> cfg[i].1 == [])
             <==> (forall i :: 0 <= i < |front| ==> front[i].1 == []) && last.1 == [] by {
        assert forall i :: 0 <= i < |front| ==> front[i] == cfg[i];
      }
      assert line[..2] == "- ";
      if last.1 == [] then init else init + [line]
  }

  /** `"\n".join(config_summary_parts)`. */
  function Summary(cfg: Config): (r: string)
    ensures r == [] <==> forall i :: 0 <= i < |cfg| ==> cfg[i].1 == []
    ensures SummaryLines(cfg) != [] ==> EndsWith(r, SummaryLines(cfg)[|SummaryLines(cfg)| - 1])
  {
    var lines := SummaryLines(cfg);
    if lines == [] then []
    else
      JoinEndsWithLast(lines, "\n");
      assert |lines[|lines| - 1]| > 0;
      Join(lines, "\n")
  }

  /** An empty answer leaves the summary as it was; a non-empty one adds its
      line, after a newline when there were lines before. */
  lemma SummaryAppend(cfg: Config, key: string, value: string)
    ensures value == [] ==> Summary(cfg + [(key, value)]) == Summary(cfg)
    ensures value != [] && SummaryLines(cfg) == [] ==> Summary(cfg + [(key, value)]) == SummaryLine(key, value)
    ensures value != [] && SummaryLines(cfg) != [] ==>
              Summary(cfg + [(key, value)]) == Summary(cfg) + "\n" + SummaryLine(key, value)
  {
    var c := cfg + [(key, value)];
    assert c[..|c| - 1] == cfg;
    if value != [] && SummaryLines(cfg) != [] {
      JoinAppend(SummaryLines(cfg), SummaryLine(key, value), "\n");
    }
    if value != [] && SummaryLines(cfg) == [] {
      assert SummaryLines(c) == [SummaryLine(key, value)];
    }
  }

  /** The two-word step is shown with a space: `- Fontes info: ...`. */
  lemma SummaryLineFontesInfo(value: string)
    ensures SummaryLine("fontes_info", value) == "- Fontes info: " + value
  {
    CapitalizeFontesInfo();
    ReplaceFontesInfo();
    assert "- " + "Fontes info" + ": " == "- Fontes info: ";
  }

  lemma CapitalizeFontesInfo()
    ensures Capitalize("fontes_info") == "Fontes_info"
  {
    FontesInfoSplit();
    LowerOfLower("ontes_info");
    assert Capitalize("fontes_info") == [UpperChar('f')] + Lower("ontes_info");
  }

  lemma FontesInfoSplit()
    ensures "fontes_info"[0] == 'f' && "fontes_info"[1..] == "ontes_info"
    ensures [UpperChar('f')] + "ontes_info" == "Fontes_info"
  {
    var k := "fontes_info";
    assert k[1..] == "ontes_info";
    assert UpperChar('f') == 'F';
  }

  lemma ReplaceFontesInfo()
    ensures ReplaceChar("Fontes_info", '_', ' ') == "Fontes info"
  {
  }

  /** A string of lower-case letters and underscores is its own lower case. */
  lemma LowerOfLower(s: string)
    requires forall i :: 0 <= i < |s| ==> 'a' <= s[i] <= 'z' || s[i] == '_'
    ensures Lower(s) == s
  {
  }

  /** The recent history given to the model: the last ten messages. */
  const RecentWindow: nat := 10

  function RecentHistory(history: seq<Msg>): (r: string)
    ensures |history| == 0 ==> r == []
    ensures |history| > 0 ==> EndsWith(r, Line(history[|history| - 1]))
  {
    Transcript(history, RecentWindow)
  }

  // ----- saving -------------------------------------------------------------

  /** The name the save button uses: the configured name, stripped, unless
      that is empty, then the selected assistant's name, stripped. */
  function SaveName(cfg: Config, selected: Option<string>): (r: string)
    ensures IsStripped(r)
    ensures r == [] <==> IsBlank(Get(cfg, "nome").GetOr([])) && IsBlank(selected.GetOr([]))
    ensures !IsBlank(Get(cfg, "nome").GetOr([])) ==> r == Strip(Get(cfg, "nome").value)
  {
    var configured := Strip(Get(cfg, "nome").GetOr([]));
    StripIsStripped(Get(cfg, "nome").GetOr([]));
    StripIsStripped(selected.GetOr([]));
    if configured != [] then configured else Strip(selected.GetOr([]))
  }

  /** The button is enabled iff there are instructions and a name. */
  function SaveEnabled(instructions: Option<string>, cfg: Config, selected: Option<string>): (b: bool)
    ensures b <==> instructions.Some? && instructions.value != []
                   && !(IsBlank(Get(cfg, "nome").GetOr([])) && IsBlank(selected.GetOr([])))
  {
    instructions.Some? && instructions.value != [] && SaveName(cfg, selected) != []
  }

  datatype SaveLabel = UpdateAssistant | SaveNewAssistant | SaveAssistant

  /** The button's label; `mode` is `chat_mode`. */
  function Label(cfg: Config, selected: Option<string>, mode: string): (l: SaveLabel)
    ensures l == SaveAssistant <==> SaveName(cfg, selected) == [] && mode == "criar"
    ensures l == UpdateAssistant <==> !IsBlank(selected.GetOr([])) && SaveName(cfg, selected) == Strip(selected.value)
  {
    var name := SaveName(cfg, selected);
    var sel := Strip(selected.GetOr([]));
    if name == [] && mode == "criar" then SaveAssistant
    else if sel != [] && sel == name then UpdateAssistant
    else SaveNewAssistant
  }

  /** Renaming an assistant while editing saves a new one under the new name
      instead of updating the selected one. */
  lemma RenameSavesNew(cfg: Config, selected: string, mode: string)
    requires !IsBlank(Get(cfg, "nome").GetOr([])) && Strip(Get(cfg, "nome").value) != Strip(selected)
    ensures Label(cfg, Some(selected), mode) == SaveNewAssistant
    ensures SaveName(cfg, Some(selected)) == Strip(Get(cfg, "nome").value)
  {
  }
}
