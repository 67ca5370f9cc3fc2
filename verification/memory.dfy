/** Long-term memory (mem0) as the two chat pages use it. The first frontend
    runs up to three searches per turn, merges their results with a
    de-duplication rule, and turns the distinct memory texts into one system
    message. The second frontend reads the stored entries back as a chat
    history and feeds its tail into the system prompt. The mem0 client is not
    modelled: search results and stored entries are inputs. */
module Memory {
  import opened Optional
  import opened Text
  import opened Chat

  // ----- merging search results (first frontend) ----------------------------

  /** A search hit: its `id`, its `memory` text and the remaining fields,
      which matter only for comparing two hits without an id. */
  datatype MemRecord = MemRecord(id: Option<string>, memory: Option<string>, extra: map<string, string>)

  /** `mem.get("id")` is truthy. */
  predicate HasId(m: MemRecord) {
    m.id.Some? && m.id.value != []
  }

  /** Hit `k` of the arrival order survives: a hit with an id when no earlier
      hit has that id, a hit without one when no earlier hit is equal to it. */
  predicate Kept(xs: seq<MemRecord>, k: nat)
    requires k < |xs|
  {
    if HasId(xs[k]) then forall j :: 0 <= j < k ==> xs[j].id != xs[k].id
    else forall j :: 0 <= j < k ==> xs[j] != xs[k]
  }

  /** The surviving hits among the first `n`, in arrival order. */
  function KeptUpTo(xs: seq<MemRecord>, n: nat): (r: seq<MemRecord>)
    requires n <= |xs|
    ensures |r| <= n
  {
    if n == 0 then []
    else KeptUpTo(xs, n - 1) + (if Kept(xs, n - 1) then [xs[n - 1]] else [])
  }

  /** Survivors are hits that arrived. */
  lemma {:induction false} KeptArrived(xs: seq<MemRecord>, n: nat, m: MemRecord)
    requires n <= |xs| && m in KeptUpTo(xs, n)
    ensures m in xs[..n]
  {
    if m !in KeptUpTo(xs, n - 1) {
      assert m == xs[n - 1] == xs[..n][n - 1];
    } else {
      KeptArrived(xs, n - 1, m);
      assert xs[..n - 1] == xs[..n][..n - 1];
    }
  }

  /** The ids seen among the first `n` hits (`processed_memory_ids`). */
  function IdsUpTo(xs: seq<MemRecord>, n: nat): (r: set<string>)
    requires n <= |xs|
  {
    if n == 0 then {}
    else IdsUpTo(xs, n - 1) + (if HasId(xs[n - 1]) then {xs[n - 1].id.value} else {})
  }

  /** An id is seen iff some earlier hit carries it. */
  lemma {:induction false} IdsUpToSeen(xs: seq<MemRecord>, n: nat, id: string)
    requires n <= |xs|
    ensures id in IdsUpTo(xs, n) <==> exists j :: 0 <= j < n && HasId(xs[j]) && xs[j].id == Some(id)
  {
    if n > 0 {
      IdsUpToSeen(xs, n - 1, id);
    }
  }

  /** A hit without an id is among the survivors iff it arrived at all. */
  lemma {:induction false} NoIdKept(xs: seq<MemRecord>, n: nat, m: MemRecord)
    requires n <= |xs| && !HasId(m)
    ensures m in KeptUpTo(xs, n) <==> m in xs[..n]
  {
    if n > 0 {
      NoIdKept(xs, n - 1, m);
      assert xs[..n] == xs[..n - 1] + [xs[n - 1]];
      if m == xs[n - 1] && m !in xs[..n - 1] {
        assert Kept(xs, n - 1) by {
          forall j | 0 <= j < n - 1 ensures xs[j] != m {
            assert xs[j] == xs[..n - 1][j];
          }
        }
      }
    }
  }

  /** Whether hit `n` survives, in terms of what the loop keeps: the ids seen
      so far for a hit with an id, the survivors so far for one without. */
  lemma KeptStep(xs: seq<MemRecord>, n: nat)
    requires n < |xs|
    ensures HasId(xs[n]) ==> (Kept(xs, n) <==> xs[n].id.value !in IdsUpTo(xs, n))
    ensures !HasId(xs[n]) ==> (Kept(xs, n) <==> xs[n] !in KeptUpTo(xs, n))
  {
    if HasId(xs[n]) {
      IdsUpToSeen(xs, n, xs[n].id.value);
    } else {
      NoIdKept(xs, n, xs[n]);
      if xs[n] in xs[..n] {
        var j :| 0 <= j < n && xs[..n][j] == xs[n];
        assert xs[j] == xs[n];
      } else {
        forall j | 0 <= j < n ensures xs[j] != xs[n] {
          assert xs[j] == xs[..n][j];
        }
      }
    }
  }

  lemma UpToStep(xs: seq<MemRecord>, n: nat)
    requires n < |xs|
    ensures KeptUpTo(xs, n + 1) == KeptUpTo(xs, n) + (if Kept(xs, n) then [xs[n]] else [])
    ensures IdsUpTo(xs, n + 1) == IdsUpTo(xs, n) + (if HasId(xs[n]) then {xs[n].id.value} else {})
  {
  }

  /** One search's hits folded into the running list and id set, exactly as
      the loop after each `mem0_client.search` does. */
  method MergeBatch(prev: seq<MemRecord>, batch: seq<MemRecord>, kept0: seq<MemRecord>, seen0: set<string>)
    returns (kept: seq<MemRecord>, seen: set<string>)
    requires kept0 == KeptUpTo(prev, |prev|) && seen0 == IdsUpTo(prev, |prev|)
    ensures kept == KeptUpTo(prev + batch, |prev + batch|)
    ensures seen == IdsUpTo(prev + batch, |prev + batch|)
  {
    var xs := prev + batch;
    kept, seen := kept0, seen0;
    KeptPrefix(prev, batch, |prev|);
    var i := 0;
    while i < |batch|
      invariant 0 <= i <= |batch|
      invariant kept == KeptUpTo(xs, |prev| + i)
      invariant seen == IdsUpTo(xs, |prev| + i)
    {
      var m := batch[i];
      ghost var n := |prev| + i;
      assert xs[n] == m;
      KeptStep(xs, n);
      UpToStep(xs, n);
      if HasId(m) {
        if m.id.value !in seen {
          kept := kept + [m];
          seen := seen + {m.id.value};
        } else {
          assert seen + {m.id.value} == seen;
        }
      } else if m !in kept {
        kept := kept + [m];
      }
      i := i + 1;
    }
  }

  /** Survivors and ids of a prefix do not depend on what comes after. */
  lemma {:induction false} KeptPrefix(a: seq<MemRecord>, b: seq<MemRecord>, n: nat)
    requires n <= |a|
    ensures KeptUpTo(a + b, n) == KeptUpTo(a, n)
    ensures IdsUpTo(a + b, n) == IdsUpTo(a, n)
  {
    if n > 0 {
      KeptPrefix(a, b, n - 1);
      assert forall j :: 0 <= j < n ==> (a + b)[j] == a[j];
      assert Kept(a + b, n - 1) <==> Kept(a, n - 1);
    }
  }

  /** A search that failed or returned something other than a list
      contributes nothing. */
  function Hits(result: Option<seq<MemRecord>>): seq<MemRecord> {
    result.GetOr([])
  }

  /** The three searches of one turn: the profile search, the assistant
      search (only when an assistant is selected) and the user search, all
      merged into one list. */
  method RetrieveMemories(profile: Option<seq<MemRecord>>, agentId: string,
                          agent: Option<seq<MemRecord>>, user: Option<seq<MemRecord>>)
    returns (kept: seq<MemRecord>)
    ensures var all := Hits(profile) + (if agentId != [] then Hits(agent) else []) + Hits(user);
            kept == KeptUpTo(all, |all|)
  {
    var seen: set<string>;
    kept, seen := MergeBatch([], Hits(profile), [], {});
    assert [] + Hits(profile) == Hits(profile);
    var sofar := Hits(profile);
    if agentId != [] {
      kept, seen := MergeBatch(sofar, Hits(agent), kept, seen);
      sofar := sofar + Hits(agent);
    } else {
      assert sofar + [] == sofar;
    }
    kept, seen := MergeBatch(sofar, Hits(user), kept, seen);
  }

  /** No two survivors are equal, and no two survivors share an id. */
  predicate Distinct(r: seq<MemRecord>) {
    forall i, j :: 0 <= i < j < |r| ==> r[i] != r[j] && (HasId(r[i]) ==> r[i].id != r[j].id)
  }

  lemma DistinctAppend(r: seq<MemRecord>, x: MemRecord)
    requires Distinct(r)
    requires forall i :: 0 <= i < |r| ==> r[i] != x && (HasId(r[i]) ==> r[i].id != x.id)
    ensures Distinct(r + [x])
  {
  }

  lemma {:induction false} KeptDistinct(xs: seq<MemRecord>, n: nat)
    requires n <= |xs|
    ensures Distinct(KeptUpTo(xs, n))
  {
    if n > 0 {
      KeptDistinct(xs, n - 1);
      var r0 := KeptUpTo(xs, n - 1);
      var x := xs[n - 1];
      if Kept(xs, n - 1) {
        forall i | 0 <= i < |r0| ensures r0[i] != x && (HasId(r0[i]) ==> r0[i].id != x.id) {
          KeptArrived(xs, n - 1, r0[i]);
          var j :| 0 <= j < n - 1 && xs[..n - 1][j] == r0[i];
          assert xs[j] == r0[i];
        }
        DistinctAppend(r0, x);
      }
    }
  }

  /** Every hit is represented: it survived, or a survivor carries its id. */
  lemma KeptCovers(xs: seq<MemRecord>, n: nat, k: nat)
    requires k < n <= |xs|
    ensures xs[k] in KeptUpTo(xs, n) || exists m :: m in KeptUpTo(xs, n) && HasId(m) && m.id == xs[k].id
  {
    if HasId(xs[k]) {
      ReachedById(xs, n, k);
    } else {
      KeptGrows(xs, k + 1, n);
      NoIdKept(xs, k + 1, xs[k]);
      assert xs[..k + 1][k] == xs[k];
    }
  }

  /** An earlier hit with an id is represented by a survivor with that id. */
  lemma {:induction false} ReachedById(xs: seq<MemRecord>, n: nat, j: nat)
    requires j < n <= |xs| && HasId(xs[j])
    ensures exists m :: m in KeptUpTo(xs, n) && HasId(m) && m.id == xs[j].id
    decreases j
  {
    KeptGrows(xs, j + 1, n);
    if Kept(xs, j) {
      assert xs[j] in KeptUpTo(xs, j + 1);
    } else {
      var i :| 0 <= i < j && xs[i].id == xs[j].id;
      ReachedById(xs, n, i);
    }
  }

  lemma {:induction false} KeptGrows(xs: seq<MemRecord>, n: nat, p: nat)
    requires n <= p <= |xs|
    ensures forall m :: m in KeptUpTo(xs, n) ==> m in KeptUpTo(xs, p)
    decreases p - n
  {
    if n < p {
      KeptGrows(xs, n, p - 1);
    }
  }

  // ----- memory texts and the memory message --------------------------------

  /** The truthy `memory` fields of the survivors, in order. */
  function MemoryTexts(kept: seq<MemRecord>): (r: seq<string>)
    ensures forall t :: t in r <==> t != [] && exists m :: m in kept && m.memory == Some(t)
    ensures |r| <= |kept|
  {
    if |kept| == 0 then []
    else
      var m := kept[|kept| - 1];
      var init := MemoryTexts(kept[..|kept| - 1]);
      assert kept == kept[..|kept| - 1] + [m];
      init + (if m.memory.Some? && m.memory.value != [] then [m.memory.value] else [])
  }

  /** The text a single result contributes: its memory, when non-empty. */
  lemma MemoryTextsSingle(m: MemRecord)
    ensures MemoryTexts([m]) == if m.memory.Some? && m.memory.value != [] then [m.memory.value] else []
  {
    assert [m][..0] == [];
  }

  /** The texts of two runs of results are the texts of each, in order, one
      per result that carries one; with `MemoryTextsSingle` this fixes the
      order and the multiplicity of the texts. */
  lemma {:induction false} MemoryTextsAppend(a: seq<MemRecord>, b: seq<MemRecord>)
    ensures MemoryTexts(a + b) == MemoryTexts(a) + MemoryTexts(b)
  {
    if |b| == 0 {
      assert a + b == a;
    } else {
      var init := b[..|b| - 1];
      assert (a + b)[..|a + b| - 1] == a + init;
      MemoryTextsAppend(a, init);
    }
  }

  /** Position of the first occurrence. */
  function FirstIndex(xs: seq<string>, x: string): (i: nat)
    requires x in xs
    ensures i < |xs| && xs[i] == x && forall j :: 0 <= j < i ==> xs[j] != x
  {
    if xs[0] == x then 0 else 1 + FirstIndex(xs[1..], x)
  }

  lemma FirstIndexAppend(xs: seq<string>, y: string, x: string)
    requires x in xs
    ensures FirstIndex(xs + [y], x) == FirstIndex(xs, x)
  {
    var i := FirstIndex(xs, x);
    var k := FirstIndex(xs + [y], x);
    assert (xs + [y])[i] == x;
    assert k <= i;
    assert xs[k] == (xs + [y])[k];
  }

  /** The `seen_texts` loop: each text once, at its first occurrence. */
  function Dedup(xs: seq<string>): (r: seq<string>)
    ensures forall t :: t in r <==> t in xs
    ensures forall i, j :: 0 <= i < j < |r| ==> r[i] != r[j]
    ensures forall i, j :: 0 <= i < j < |r| ==> FirstIndex(xs, r[i]) < FirstIndex(xs, r[j])
  {
    if |xs| == 0 then []
    else
      var init := xs[..|xs| - 1];
      var x := xs[|xs| - 1];
      var d := Dedup(init);
      assert xs == init + [x];
      forall t | t in init ensures FirstIndex(xs, t) == FirstIndex(init, t) && FirstIndex(init, t) < |init| {
        FirstIndexAppend(init, x, t);
      }
      if x in init then d
      else
        assert FirstIndex(xs, x) == |init|;
        d + [x]
  }

  /** The memory message opens with this text, which names mem0. */
  const MemoryLead: string := "Considere estas informações de interações passadas (memória de longo prazo via "
  const MemoryTail: string := ") ao formular sua resposta. É especialmente importante usar informações pessoais sobre o usuário (como seu nome, preferências, etc.) se elas estiverem presentes nestas memórias:"
  const MemorySeparator: string := "\n---\n"

  /** The system message built from the distinct memory texts, if any. */
  function MemoryMessage(kept: seq<MemRecord>): (r: Option<Msg>)
    ensures r.None? <==> MemoryTexts(kept) == []
    ensures r.Some? ==> r.value.role == "system" && Contains(r.value.content, "mem0")
    ensures r.Some? ==> EndsWith(r.value.content, Join(Dedup(MemoryTexts(kept)), MemorySeparator))
  {
    var texts := Dedup(MemoryTexts(kept));
    if texts == [] then None
    else
      var body := Join(texts, MemorySeparator);
      PreambleContent(body);
      Some(Msg("system", MemoryLead + "mem0" + MemoryTail + MemorySeparator + body))
  }

  /** Whatever the memories, the message names mem0 and ends with them. */
  lemma PreambleContent(body: string)
    ensures var c := MemoryLead + "mem0" + MemoryTail + MemorySeparator + body;
            Contains(c, "mem0") && EndsWith(c, body)
  {
    var head := MemoryLead + "mem0" + MemoryTail + MemorySeparator;
    ContainsInfix(MemoryLead, "mem0", MemoryTail + MemorySeparator + body);
    assert MemoryLead + "mem0" + (MemoryTail + MemorySeparator + body) == head + body;
    assert (head + body)[|head + body| - |body|..] == body;
  }

  lemma {:induction false} ContainsInfix(a: string, sub: string, b: string)
    ensures Contains(a + sub + b, sub)
    decreases |a|
  {
    if |a| == 0 {
      assert a + sub + b == sub + b;
      assert (sub + b)[..|sub|] == sub;
    } else {
      ContainsInfix(a[1..], sub, b);
      assert (a + sub + b)[1..] == a[1..] + sub + b;
    }
  }

  // ----- reading the history back (second frontend) -------------------------

  /** The `memory` field of a stored entry: missing, a dict that may carry
      `role` and `content`, or a plain string. */
  datatype MemoryField = NoMemory | MemDict(role: Option<string>, content: Option<string>) | MemString(s: string)

  datatype Mem0Entry = Mem0Entry(memory: MemoryField, text: Option<string>)

  datatype Parsed = Message(msg: Msg) | Skip | Fail

  /** One entry of `get_all()`. A dict with both keys gives its message. A
      string `memory` that contains both words passes the membership test
      and then fails on indexing. Otherwise a `text` field is read by its
      case-insensitive prefix; an entry with neither is skipped. */
  function ParseEntry(e: Mem0Entry): (r: Parsed)
    ensures e.memory.MemString? && Contains(e.memory.s, "role") && Contains(e.memory.s, "content") ==> r.Fail?
    ensures r.Fail? ==> e.memory.MemString?
    ensures r.Skip? <==> !r.Fail? && !(e.memory.MemDict? && e.memory.role.Some? && e.memory.content.Some?) && e.text.None?
  {
    match e.memory
    case MemDict(Some(role), Some(content)) => Message(Msg(role, content))
    case MemString(s) =>
      if Contains(s, "role") && Contains(s, "content") then Fail else ParseText(e.text)
    case _ => ParseText(e.text)
  }

  function ParseText(text: Option<string>): (r: Parsed)
    ensures r.Fail? == false
    ensures r.Skip? <==> text.None?
  {
    match text
    case None => Skip
    case Some(t) =>
      var lower := Lower(t);
      if StartsWith(lower, "user: ") then Message(Msg("user", t[6..]))
      else if StartsWith(lower, "assistant: ") then Message(Msg("assistant", t[11..]))
      else Message(Msg("system", t))
  }

  /** The text form of a user or assistant message, under any casing of the
      prefix, parses back to that message. */
  lemma ParseTextPrefixed(p: string, content: string, role: string)
    requires role == "user" || role == "assistant"
    requires Lower(p) == role + ": "
    ensures ParseText(Some(p + content)) == Message(Msg(role, content))
  {
    var t := p + content;
    assert Lower(t)[..|p|] == Lower(p);
    assert t[|p|..] == content;
    if role == "assistant" {
      assert Lower(t)[..6] == "assist";
    }
  }

  /** In particular `Line` is inverted for those roles. */
  lemma ParseTextLine(m: Msg)
    requires m.role == "user" || m.role == "assistant"
    ensures ParseText(Some(Line(m))) == Message(m)
  {
    var p := m.role + ": ";
    assert Lower(p) == p;
    assert Line(m) == p + m.content;
    ParseTextPrefixed(p, m.content, m.role);
  }

  /** Any other text is kept whole as a system message. */
  lemma ParseTextOther(t: string)
    requires !StartsWith(Lower(t), "user: ") && !StartsWith(Lower(t), "assistant: ")
    ensures ParseText(Some(t)) == Message(Msg("system", t))
  {
  }

  /** The history shown beside the chat: the parsed entries in order,
      stopping at the first entry that fails (the exception ends the loop and
      keeps what was already collected). */
  function ParseHistory(entries: seq<Mem0Entry>): (r: seq<Msg>)
    ensures |r| <= |entries|
  {
    if |entries| == 0 then []
    else
      match ParseEntry(entries[0])
      case Fail => []
      case Skip => ParseHistory(entries[1..])
      case Message(m) => [m] + ParseHistory(entries[1..])
  }

  predicate NoFail(entries: seq<Mem0Entry>) {
    forall i :: 0 <= i < |entries| ==> !ParseEntry(entries[i]).Fail?
  }

  /** History is read entry by entry: it splits over a concatenation of
      entries that do not fail, and a failing entry cuts off the rest. */
  lemma {:induction false} ParseHistoryAppend(a: seq<Mem0Entry>, b: seq<Mem0Entry>)
    requires NoFail(a)
    ensures ParseHistory(a + b) == ParseHistory(a) + ParseHistory(b)
  {
    if |a| > 0 {
      assert (a + b)[0] == a[0];
      assert (a + b)[1..] == a[1..] + b;
      assert NoFail(a[1..]) by {
        forall i | 0 <= i < |a[1..]| ensures !ParseEntry(a[1..][i]).Fail? {
          assert a[1..][i] == a[i + 1];
        }
      }
      ParseHistoryAppend(a[1..], b);
    } else {
      assert a + b == b;
    }
  }

  lemma FailCutsOff(a: seq<Mem0Entry>, bad: Mem0Entry, b: seq<Mem0Entry>)
    requires NoFail(a) && ParseEntry(bad).Fail?
    ensures ParseHistory(a + [bad] + b) == ParseHistory(a)
  {
    ParseHistoryAppend(a, [bad] + b);
    assert a + [bad] + b == a + ([bad] + b);
  }

  /** The memory part of the system prompt: the last five history messages
      as lines, or nothing for an empty history. */
  const RecallWindow: nat := 5
  const RecallHeader: string := "\n\nLembre-se destas interações anteriores:\n"

  function RecallContext(history: seq<Msg>): (r: string)
    ensures history == [] ==> r == []
    ensures history != [] ==> StartsWith(r, RecallHeader) && EndsWith(r, Line(history[|history| - 1]))
  {
    if history == [] then []
    else
      var t := Transcript(history, RecallWindow);
      var last := Line(history[|history| - 1]);
      assert (RecallHeader + t)[..|RecallHeader|] == RecallHeader;
      assert (RecallHeader + t)[|RecallHeader + t| - |last|..] == t[|t| - |last|..];
      RecallHeader + t
  }
}
