/** Assistant names: the file-name-safe form of a display name, the file
    names an assistant is saved under, how `get_assistentes_existentes`
    recovers names from a directory listing, and the mem0 user id of the
    second frontend. */
module AssistantNames {
  import opened Optional
  import opened Text
  import opened StringOrder

  const Prefix: string := "assistente_"

  /** Suffix of the instructions file in the first frontend. */
  const ConfigSuffix: string := "_config.md"

  /** Suffix of the instructions file in the second frontend. */
  const InstructionsSuffix: string := "_instrucoes.txt"

  /** Placeholder the listing returns when no assistant is saved. */
  const NoneSaved: string := "Nenhum Assistente Salvo"

  // ----- sanitising ---------------------------------------------------------

  /** `name.replace(' ', '_').lower().strip()`. */
  function SafeName(name: string): (r: string)
    ensures IsSafe(r) && |r| <= |name|
    ensures r == [] ==> IsBlank(name)
  {
    var u := ReplaceChar(name, ' ', '_');
    var t := Lower(u);
    LoweredHasNoSpace(name);
    StripKeepsLowerNoSpace(t);
    if IsBlank(t) then
      BlankBeforeLowering(name);
      Strip(t)
    else Strip(t)
  }

  /** Only a blank name lowers to blank: a space turns into `_`, and
      lower-casing neither makes nor removes whitespace. */
  lemma BlankBeforeLowering(name: string)
    requires IsBlank(Lower(ReplaceChar(name, ' ', '_')))
    ensures IsBlank(name)
  {
    var u := ReplaceChar(name, ' ', '_');
    forall k | 0 <= k < |name| ensures IsSpace(name[k]) {
      assert IsSpace(Lower(u)[k]);
      assert IsSpace(u[k]);
    }
  }

  /** No space and nothing left to lower-case. */
  predicate LowerNoSpace(s: string) {
    forall i :: 0 <= i < |s| ==> s[i] != ' ' && LowerChar(s[i]) == s[i]
  }

  /** A string `SafeName` can produce: no space, nothing left to lower-case,
      no whitespace at either end. */
  predicate IsSafe(s: string) {
    LowerNoSpace(s) && IsStripped(s)
  }

  /** After replacing spaces and lower-casing, no space is left and nothing
      changes when lower-cased again. */
  lemma LoweredHasNoSpace(name: string)
    ensures LowerNoSpace(Lower(ReplaceChar(name, ' ', '_')))
  {
    var u := ReplaceChar(name, ' ', '_');
    forall k | 0 <= k < |u| ensures Lower(u)[k] != ' ' && LowerChar(Lower(u)[k]) == Lower(u)[k] {
      SafeChar(u[k]);
    }
  }

  /** Stripping keeps a string free of spaces and upper-case letters. */
  lemma StripKeepsLowerNoSpace(t: string)
    requires LowerNoSpace(t)
    ensures LowerNoSpace(Strip(t))
  {
    var r := Strip(t);
    var i, j :| 0 <= i <= j <= |t| && r == t[i..j] && IsBlank(t[..i]) && IsBlank(t[j..]);
    forall k | 0 <= k < |r| ensures r[k] != ' ' && LowerChar(r[k]) == r[k] {
      assert r[k] == t[i + k];
    }
  }

  /** A lower-cased character other than a space is not a space and stays as
      it is when lower-cased again. */
  lemma SafeChar(c: char)
    requires c != ' '
    ensures LowerChar(c) != ' ' && LowerChar(LowerChar(c)) == LowerChar(c)
  {
  }

  /** Sanitising is idempotent: a safe name is its own safe form. */
  lemma SafeNameOfSafe(s: string)
    requires IsSafe(s)
    ensures SafeName(s) == s
  {
    assert ReplaceChar(s, ' ', '_') == s;
    assert Lower(s) == s;
    StripOfStripped(s);
  }

  lemma SafeNameIdempotent(name: string)
    ensures SafeName(SafeName(name)) == SafeName(name)
  {
    SafeNameOfSafe(SafeName(name));
  }

  /** Two different display names that are saved under the same files. */
  lemma SafeNameCollision()
    ensures "Meu Bot" != "meu_bot" && SafeName("Meu Bot") == SafeName("meu_bot") == "meu_bot"
  {
    var a := Lower(ReplaceChar("Meu Bot", ' ', '_'));
    assert a == "meu_bot";
    assert Lower(ReplaceChar("meu_bot", ' ', '_')) == "meu_bot";
    assert IsStripped("meu_bot");
    StripOfStripped("meu_bot");
  }

  // ----- file names ---------------------------------------------------------

  /** `f"assistente_{safe}{suffix}"`. */
  function SavedFileName(safe: string, suffix: string): string {
    Prefix + safe + suffix
  }

  /** A directory entry the listing picks up: it matches the glob
      `assistente_*<suffix>` (so prefix and suffix do not overlap) and passes
      the `startswith`/`endswith` test. */
  predicate Listed(fileName: string, suffix: string) {
    |Prefix| + |suffix| <= |fileName| && StartsWith(fileName, Prefix) && EndsWith(fileName, suffix)
  }

  /** `filename[len("assistente_"):-len(suffix)]`. */
  function SliceSafe(fileName: string, suffix: string): (r: string)
    requires Listed(fileName, suffix)
    ensures |r| == |fileName| - |Prefix| - |suffix|
  {
    fileName[|Prefix|..|fileName| - |suffix|]
  }

  /** Slicing the built file name recovers the safe name exactly. */
  lemma SliceSavedFileName(safe: string, suffix: string)
    ensures Listed(SavedFileName(safe, suffix), suffix)
    ensures SliceSafe(SavedFileName(safe, suffix), suffix) == safe
  {
    var f := SavedFileName(safe, suffix);
    assert f[..|Prefix|] == Prefix;
    assert f[|f| - |suffix|..] == suffix;
    assert f[|Prefix|..|f| - |suffix|] == safe;
  }

  /** And every listed file name is the file name of its slice. */
  lemma SavedFileNameOfSlice(fileName: string, suffix: string)
    requires Listed(fileName, suffix)
    ensures SavedFileName(SliceSafe(fileName, suffix), suffix) == fileName
  {
    var n := |fileName|;
    assert fileName == fileName[..|Prefix|] + fileName[|Prefix|..n - |suffix|] + fileName[n - |suffix|..];
  }

  // ----- listing saved assistants -------------------------------------------

  /** `safe.replace('_', ' ').title()`. */
  function DisplayName(safe: string): (r: string)
    ensures |r| == |safe|
    ensures forall i :: 0 <= i < |safe| ==> (r[i] == ' ' <==> safe[i] == '_' || safe[i] == ' ')
  {
    var u := ReplaceChar(safe, '_', ' ');
    var r := Title(u);
    forall i | 0 <= i < |safe| ensures r[i] == ' ' <==> u[i] == ' ' {
      UpperCharSpace(u[i]);
    }
    r
  }

  /** Display names of the listed files, in directory order. */
  function Found(fileNames: seq<string>, suffix: string): (r: seq<string>)
    ensures forall d :: d in r <==>
              exists i :: 0 <= i < |fileNames| && Listed(fileNames[i], suffix) && d == DisplayName(SliceSafe(fileNames[i], suffix))
  {
    if |fileNames| == 0 then []
    else
      var rest := Found(fileNames[1..], suffix);
      var f := fileNames[0];
      var head := if Listed(f, suffix) then [DisplayName(SliceSafe(f, suffix))] else [];
      assert forall i :: 1 <= i < |fileNames| ==> fileNames[i] == fileNames[1..][i - 1];
      head + rest
  }

  /** `get_assistentes_existentes()` over the names in the save directory. */
  function ListAssistants(fileNames: seq<string>, suffix: string): (r: seq<string>)
    ensures |r| > 0
    ensures Found(fileNames, suffix) == [] ==> r == [NoneSaved]
    ensures Found(fileNames, suffix) != [] ==>
              StrictlySorted(r) && forall d :: d in r <==> d in Found(fileNames, suffix)
  {
    var found := Found(fileNames, suffix);
    if found == [] then [NoneSaved]
    else
      assert found[0] in SortedUnique(found);
      SortedUnique(found)
  }

  /** The listing is the only strictly sorted sequence holding exactly the
      found names. */
  lemma ListAssistantsUnique(fileNames: seq<string>, suffix: string, other: seq<string>)
    requires Found(fileNames, suffix) != []
    requires StrictlySorted(other) && forall d :: d in other <==> d in Found(fileNames, suffix)
    ensures ListAssistants(fileNames, suffix) == other
  {
    StrictlySortedUnique(ListAssistants(fileNames, suffix), other);
  }

  /** Every assistant saved under `suffix` is listed under its display name. */
  lemma SavedAssistantListed(fileNames: seq<string>, name: string, suffix: string)
    requires SavedFileName(SafeName(name), suffix) in fileNames
    ensures DisplayName(SafeName(name)) in ListAssistants(fileNames, suffix)
  {
    var f := SavedFileName(SafeName(name), suffix);
    SliceSavedFileName(SafeName(name), suffix);
    var i :| 0 <= i < |fileNames| && fileNames[i] == f;
    assert DisplayName(SafeName(name)) in Found(fileNames, suffix);
  }

  lemma UpperCharSpace(c: char)
    ensures UpperChar(c) == ' ' <==> c == ' '
    ensures LowerChar(c) == ' ' <==> c == ' '
  {
  }

  lemma {:induction false} TitleAfterKeepsSpace(s: string, prevCased: bool, i: nat)
    requires i < |s| && s[i] != '\U{00B5}'
    ensures TitleAfter(s, prevCased)[i] == ' ' <==> s[i] == ' '
    ensures LowerChar(TitleAfter(s, prevCased)[i]) == LowerChar(s[i])
  {
    UpperCharSpace(s[i]);
    LowerUpperChar(s[i]);
    if i > 0 {
      TitleAfterKeepsSpace(s[1..], IsCased(s[0]), i - 1);
    }
  }

  /** Characters that Python's `title()` followed by `lower()` gives back
      and on which the case table is exact: Latin-1 other than `ß` (title
      case "Ss") and the micro sign (title case Greek `Μ`, which lower-cases
      to Greek `μ`). */
  predicate TitleExact(s: string) {
    forall i :: 0 <= i < |s| ==> s[i] as int < 256 && s[i] != '\U{00DF}' && s[i] != '\U{00B5}'
  }

  /** The listed display name, sanitised again, names the same files: choosing
      an assistant from the list loads what was saved. */
  lemma DisplayNameRoundTrip(safe: string)
    requires IsSafe(safe) && TitleExact(safe)
    ensures SafeName(DisplayName(safe)) == safe
  {
    var u := ReplaceChar(safe, '_', ' ');
    var d := Title(u);
    var t := Lower(ReplaceChar(d, ' ', '_'));
    forall k | 0 <= k < |safe| ensures t[k] == safe[k] {
      TitleAfterKeepsSpace(u, false, k);
    }
    assert t == safe;
    StripOfStripped(safe);
  }

  /** An assistant saved as "µbot" is listed as "Μbot" (Greek capital), and
      choosing it opens the files of "μbot" (Greek small letter), which do
      not exist. */
  lemma MicroSignNotReopened()
    ensures IsSafe("\U{00B5}bot")
    ensures DisplayName("\U{00B5}bot") == "\U{039C}bot"
    ensures SafeName(DisplayName("\U{00B5}bot")) == "\U{03BC}bot" != "\U{00B5}bot"
  {
    MicroIsSafe();
    MicroTitle();
    MicroLowered();
    StripOfStripped("\U{03BC}bot");
  }

  lemma MicroIsSafe()
    ensures IsSafe("\U{00B5}bot")
  {
    var s := "\U{00B5}bot";
    assert s[0] == '\U{00B5}' && s[3] == 't';
  }

  lemma MicroTitle()
    ensures DisplayName("\U{00B5}bot") == "\U{039C}bot"
  {
    var s, bot := "\U{00B5}bot", "bot";
    assert ReplaceChar(s, '_', ' ') == s;
    assert s[0] == '\U{00B5}' && s[1..] == bot;
    TitleAfterLowerWord(bot);
    assert Title(s) == [UpperChar(s[0])] + TitleAfter(bot, true);
    assert ['\U{039C}'] + bot == "\U{039C}bot";
  }

  lemma MicroLowered()
    ensures Lower(ReplaceChar("\U{039C}bot", ' ', '_')) == "\U{03BC}bot"
  {
    assert ReplaceChar("\U{039C}bot", ' ', '_') == "\U{039C}bot";
  }

  /** The names the listing could offer instead: the safe names themselves,
      sliced from the file names and not title-cased. */
  function FoundSafe(fileNames: seq<string>, suffix: string): (r: seq<string>)
    ensures forall e :: e in r <==> exists i :: 0 <= i < |fileNames| && Listed(fileNames[i], suffix) && e == SliceSafe(fileNames[i], suffix)
  {
    if |fileNames| == 0 then []
    else
      var rest := FoundSafe(fileNames[1..], suffix);
      var f := fileNames[0];
      assert forall i :: 1 <= i < |fileNames| ==> fileNames[i] == fileNames[1..][i - 1];
      (if Listed(f, suffix) then [SliceSafe(f, suffix)] else []) + rest
  }

  /** Offered by safe name, every saved assistant is listed, and choosing it
      opens exactly the files it was saved under, whatever its characters. */
  lemma ListedSafeNameReopens(fileNames: seq<string>, name: string, suffix: string)
    requires SavedFileName(SafeName(name), suffix) in fileNames
    ensures SafeName(name) in FoundSafe(fileNames, suffix)
    ensures SavedFileName(SafeName(SafeName(name)), suffix) == SavedFileName(SafeName(name), suffix)
  {
    var f := SavedFileName(SafeName(name), suffix);
    SliceSavedFileName(SafeName(name), suffix);
    var i :| 0 <= i < |fileNames| && fileNames[i] == f;
    SafeNameIdempotent(name);
  }

  // ----- mem0 user id (second frontend) -------------------------------------

  /** `inicializar_mem0`: no client without a key; otherwise the user id
      combines the safe forms of the user and the assistant. */
  function Mem0UserId(apiKey: string, username: string, assistant: string): (r: Option<string>)
    ensures r.None? <==> apiKey == []
    ensures r.Some? ==> StartsWith(r.value, "user_") && EndsWith(r.value, "_asst_" + SafeName(assistant))
  {
    if apiKey == [] then None
    else Some(UserAssistantId(SafeName(username), SafeName(assistant)))
  }

  /** `f"user_{user}_asst_{assistant}"`. */
  function UserAssistantId(user: string, assistant: string): (r: string)
    ensures StartsWith(r, "user_") && EndsWith(r, "_asst_" + assistant)
  {
    var head, tail := "user_" + user, "_asst_" + assistant;
    assert (head + tail)[..5] == head[..5];
    assert (head + tail)[|head + tail| - |tail|..] == tail;
    head + tail
  }

  /** For one user, different safe assistant names get different memories. */
  lemma Mem0UserIdPerAssistant(apiKey: string, username: string, a: string, b: string)
    requires apiKey != []
    requires Mem0UserId(apiKey, username, a) == Mem0UserId(apiKey, username, b)
    ensures SafeName(a) == SafeName(b)
  {
    UserAssistantIdInjective(SafeName(username), SafeName(a), SafeName(b));
  }

  lemma UserAssistantIdInjective(user: string, a: string, b: string)
    requires UserAssistantId(user, a) == UserAssistantId(user, b)
    ensures a == b
  {
    var q := "user_" + user + "_asst_";
    assert q + a == UserAssistantId(user, a);
    assert q + b == UserAssistantId(user, b);
    PrefixCancel(q, a, b);
  }

  lemma PrefixCancel(p: string, x: string, y: string)
    requires p + x == p + y
    ensures x == y
  {
    assert x == (p + x)[|p|..];
  }

  /** Lower-case ASCII letters and underscores only. */
  predicate IsWord(s: string) {
    forall i :: 0 <= i < |s| ==> 'a' <= s[i] <= 'z' || s[i] == '_'
  }

  lemma WordConcat(x: string, y: string)
    requires IsWord(x) && IsWord(y)
    ensures IsWord(x + y)
  {
    assert forall i :: |x| <= i < |x + y| ==> (x + y)[i] == y[i - |x|];
  }

  /** The id of a user and an assistant whose names are already safe. */
  lemma Mem0UserIdOfWords(apiKey: string, username: string, assistant: string)
    requires apiKey != [] && IsWord(username) && IsWord(assistant)
    ensures Mem0UserId(apiKey, username, assistant) == Some(("user_" + username) + ("_asst_" + assistant))
  {
    WordIsSafe(username);
    WordIsSafe(assistant);
    SafeNameOfSafe(username);
    SafeNameOfSafe(assistant);
  }

  lemma WordIsSafe(s: string)
    requires IsWord(s)
    ensures IsSafe(s)
  {
  }

  /** Across users the id is ambiguous: the separator can occur in a name,
      so two different user/assistant pairs share one memory. */
  lemma Mem0UserIdCollision(apiKey: string, x: string, y: string, z: string)
    requires apiKey != [] && IsWord(x) && IsWord(y) && IsWord(z)
    ensures x + "_asst_" + y != x
    ensures Mem0UserId(apiKey, x + "_asst_" + y, z) == Mem0UserId(apiKey, x, y + "_asst_" + z)
  {
    var sep := "_asst_";
    assert IsWord(sep);
    WordConcat(x, sep);
    WordConcat(x + sep, y);
    WordConcat(sep, z);
    WordConcat(y, sep + z);
    assert y + sep + z == y + (sep + z);
    Mem0UserIdOfWords(apiKey, x + sep + y, z);
    Mem0UserIdOfWords(apiKey, x, y + sep + z);
    SeparatorShift("user_", x, sep, y, z);
  }

  lemma SeparatorShift(p: string, x: string, sep: string, y: string, z: string)
    ensures (p + (x + sep + y)) + (sep + z) == (p + x) + (sep + (y + sep + z))
  {
  }
}
