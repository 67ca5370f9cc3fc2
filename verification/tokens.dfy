/** Token budget accounting, in the two versions the application carries:
    the Python session counters of the first frontend's chat page and the
    browser-side token manager. Both keep a total budget and a running count
    of used tokens; a chat turn adds the estimated tokens of the prompt and of
    the reply, and the chat is blocked once the used count reaches the total.

    Python estimates `len(text) // 4` code points; the browser estimates
    `Math.ceil(text.length / 4)` where `length` counts UTF-16 code units. */
module TokenBudget {
  import opened Optional

  const DefaultTotalTokens: int := 2000000
  const Million: int := 1000000

  datatype Usage = Usage(total: int, used: int)

  /** The limit test both versions use. */
  predicate Reached(u: Usage) {
    u.used >= u.total
  }

  // ----- Python session counters --------------------------------------------

  /** The two session keys, either of which may be missing. */
  datatype Session = Session(total: Option<int>, used: Option<int>)

  /** `inicializar_tokens_usuario`: a missing key gets its default, a present
      one is kept. */
  function InitTokens(s: Session): (u: Usage)
    ensures s.total.Some? ==> u.total == s.total.value
    ensures s.total.None? ==> u.total == DefaultTotalTokens
    ensures s.used.Some? ==> u.used == s.used.value
    ensures s.used.None? ==> u.used == 0
  {
    Usage(s.total.GetOr(DefaultTotalTokens), s.used.GetOr(0))
  }

  /** `contar_tokens_texto`: the floor of a quarter of the length. */
  function CountTokensPy(text: string): (n: nat)
    ensures text == [] ==> n == 0
    ensures 4 * n <= |text| < 4 * n + 4
  {
    if text == [] then 0 else |text| / 4
  }

  /** `atualizar_tokens_usados`. */
  function UpdateUsedPy(s: Session, input: string, output: string): (u: Usage)
    ensures u.total == InitTokens(s).total
    ensures u.used == InitTokens(s).used + CountTokensPy(input) + CountTokensPy(output)
    ensures u.used >= InitTokens(s).used
  {
    var u0 := InitTokens(s);
    Usage(u0.total, u0.used + (CountTokensPy(input) + CountTokensPy(output)))
  }

  /** `adicionar_milhao_tokens`. */
  function AddMillionPy(s: Session): (u: Usage)
    ensures u.total == InitTokens(s).total + Million
    ensures u.used == InitTokens(s).used
  {
    var u0 := InitTokens(s);
    Usage(u0.total + Million, u0.used)
  }

  /** `verificar_limite_tokens`. */
  function LimitReachedPy(s: Session): (b: bool)
    ensures b <==> InitTokens(s).used >= InitTokens(s).total
  {
    Reached(InitTokens(s))
  }

  function AsSession(u: Usage): Session {
    Session(Some(u.total), Some(u.used))
  }

  /** A fresh session starts with the full default budget and nothing used,
      so it is not blocked. */
  lemma FreshSessionNotBlocked()
    ensures InitTokens(Session(None, None)) == Usage(DefaultTotalTokens, 0)
    ensures !LimitReachedPy(Session(None, None))
  {
  }

  /** Chat turns never unblock: once the limit is reached, every further
      turn keeps it reached. */
  lemma {:induction false} BlockedStaysBlocked(s: Session, turns: seq<(string, string)>)
    requires LimitReachedPy(s)
    ensures LimitReachedPy(AsSession(ApplyTurns(InitTokens(s), turns)))
    decreases |turns|
  {
    if |turns| > 0 {
      var u1 := UpdateUsedPy(AsSession(InitTokens(s)), turns[0].0, turns[0].1);
      BlockedStaysBlocked(AsSession(u1), turns[1..]);
    }
  }

  /** The counters after a sequence of (prompt, reply) turns. */
  function ApplyTurns(u: Usage, turns: seq<(string, string)>): (r: Usage)
    ensures r.total == u.total && r.used >= u.used
    decreases |turns|
  {
    if |turns| == 0 then u
    else ApplyTurns(UpdateUsedPy(AsSession(u), turns[0].0, turns[0].1), turns[1..])
  }

  /** Adding a million tokens unblocks exactly when the overshoot is below a
      million. */
  lemma AddMillionUnblocks(s: Session)
    ensures !Reached(AddMillionPy(s)) <==> InitTokens(s).used < InitTokens(s).total + Million
  {
  }

  // ----- browser token manager ----------------------------------------------

  /** JavaScript's `text.length`: one code unit per character of the Basic
      Multilingual Plane, two (a surrogate pair) for any other character. */
  function Utf16Length(text: string): (n: nat)
    ensures |text| <= n <= 2 * |text|
  {
    if text == [] then 0
    else (if text[0] as int > 0xFFFF then 2 else 1) + Utf16Length(text[1..])
  }

  predicate InBmp(text: string) {
    forall i :: 0 <= i < |text| ==> text[i] as int <= 0xFFFF
  }

  lemma {:induction false} Utf16LengthBmp(text: string)
    ensures Utf16Length(text) == |text| <==> InBmp(text)
  {
    if text != [] {
      Utf16LengthBmp(text[1..]);
      if InBmp(text) {
        assert InBmp(text[1..]) by {
          forall i | 0 <= i < |text[1..]| ensures text[1..][i] as int <= 0xFFFF {
            assert text[1..][i] == text[i + 1];
          }
        }
      } else if text[0] as int <= 0xFFFF {
        var i :| 0 <= i < |text| && text[i] as int > 0xFFFF;
        assert text[1..][i - 1] == text[i];
      }
    }
  }

  /** `countTokens`: zero for the empty text, else the ceiling of a quarter of
      the UTF-16 length. */
  function CountTokensJs(text: string): (n: nat)
    ensures text == [] <==> n == 0
    ensures text != [] ==> 4 * n - 4 < Utf16Length(text) <= 4 * n
  {
    if text == [] then 0 else (Utf16Length(text) + 3) / 4
  }

  /** The browser estimate is never below the Python one and, for text inside
      the Basic Multilingual Plane, at most one above it. */
  lemma CountTokensJsVsPy(text: string)
    ensures CountTokensPy(text) <= CountTokensJs(text)
    ensures InBmp(text) ==> CountTokensJs(text) <= CountTokensPy(text) + 1
  {
    Utf16LengthBmp(text);
  }

  /** Outside the Basic Multilingual Plane the two estimates drift apart:
      eight such characters cost two tokens in Python and four in the
      browser. */
  lemma CountTokensJsAstral()
    ensures var t := seq(8, i => '\U{1F600}');
            CountTokensPy(t) == 2 && CountTokensJs(t) == 4
  {
    var t := seq(8, i => '\U{1F600}');
    Utf16LengthAstral(t);
  }

  lemma {:induction false} Utf16LengthAstral(text: string)
    requires forall i :: 0 <= i < |text| ==> text[i] as int > 0xFFFF
    ensures Utf16Length(text) == 2 * |text|
  {
    if text != [] {
      Utf16LengthAstral(text[1..]);
    }
  }

  /** What a token-manager call returns, together with the value left in
      `localStorage`. */
  datatype Stored = Stored(usage: Usage, store: Option<Usage>)

  /** `getTokenUsage`: the stored usage if there is one; otherwise the
      defaults, which are also written back. */
  function GetTokenUsage(store: Option<Usage>): (r: Stored)
    ensures r.store == Some(r.usage)
    ensures store.Some? ==> r.usage == store.value
    ensures store.None? ==> r.usage == Usage(DefaultTotalTokens, 0)
  {
    match store
    case Some(u) => Stored(u, store)
    case None => Stored(Usage(DefaultTotalTokens, 0), Some(Usage(DefaultTotalTokens, 0)))
  }

  /** `updateUsedTokens`. */
  function UpdateUsedTokens(store: Option<Usage>, input: string, output: string): (r: Stored)
    ensures r.store == Some(r.usage)
    ensures r.usage.total == GetTokenUsage(store).usage.total
    ensures r.usage.used == GetTokenUsage(store).usage.used + CountTokensJs(input) + CountTokensJs(output)
  {
    var u := GetTokenUsage(store).usage;
    var u1 := Usage(u.total, u.used + (CountTokensJs(input) + CountTokensJs(output)));
    Stored(u1, Some(u1))
  }

  /** `addMillionTokens`. */
  function AddMillionTokens(store: Option<Usage>): (r: Stored)
    ensures r.store == Some(r.usage)
    ensures r.usage.total == GetTokenUsage(store).usage.total + Million
    ensures r.usage.used == GetTokenUsage(store).usage.used
  {
    var u := GetTokenUsage(store).usage;
    var u1 := Usage(u.total + Million, u.used);
    Stored(u1, Some(u1))
  }

  /** `hasReachedLimit`, which also initialises an empty store. */
  function HasReachedLimit(store: Option<Usage>): (r: (bool, Option<Usage>))
    ensures r.1 == GetTokenUsage(store).store
    ensures r.0 <==> GetTokenUsage(store).usage.used >= GetTokenUsage(store).usage.total
  {
    var g := GetTokenUsage(store);
    (Reached(g.usage), g.store)
  }

  /** Reading the usage is idempotent: a second read returns the same usage
      and leaves the store as the first read left it. */
  lemma GetTokenUsageIdempotent(store: Option<Usage>)
    ensures GetTokenUsage(GetTokenUsage(store).store) == GetTokenUsage(store)
  {
  }

  /** Both versions agree on everything but the estimate: starting from the
      same counters, a turn leaves the same total, and the browser's used
      count is at least the Python one. */
  lemma UpdateAgrees(u: Usage, input: string, output: string)
    ensures UpdateUsedTokens(Some(u), input, output).usage.total == UpdateUsedPy(AsSession(u), input, output).total
    ensures UpdateUsedTokens(Some(u), input, output).usage.used >= UpdateUsedPy(AsSession(u), input, output).used
  {
    CountTokensJsVsPy(input);
    CountTokensJsVsPy(output);
  }
}
