/** The chat-session store of the first frontend: a list of session records
    kept in one JSON file, and the operations that create, list, read and
    extend them. The file is the `seq<Session>` passed in and returned; the
    session id and the current time, which the code draws from `uuid4` and
    the clock, are parameters. Also the unique title the chat page gives a
    new conversation. */
module ChatStore {
  import opened Optional
  import opened Text

  datatype Message = Message(role: string, content: string, createdAt: string)

  datatype Session = Session(
    id: string,
    userId: string,
    title: string,
    createdAt: string,
    updatedAt: string,
    messages: seq<Message>)

  /** `load_chat_history()["chat_sessions"]`: a missing or unreadable file
      (`None`) reads as no sessions. */
  function LoadSessions(file: Option<seq<Session>>): (r: seq<Session>)
    ensures file.None? ==> r == []
    ensures file.Some? ==> r == file.value
  {
    file.GetOr([])
  }

  // ----- create and list ----------------------------------------------------

  /** `create_new_chat_session`: the stored list after the call and the new
      session. */
  function CreateSession(sessions: seq<Session>, userId: string, title: string, id: string, now: string): (r: (seq<Session>, Session))
    ensures r.0 == sessions + [r.1]
    ensures r.1.id == id && r.1.userId == userId && r.1.title == title
    ensures r.1.messages == [] && r.1.createdAt == now && r.1.updatedAt == now
  {
    var s := Session(id, userId, title, now, now, []);
    (sessions + [s], s)
  }

  /** `list_chat_sessions`: the user's sessions, in stored order. */
  function ListSessions(sessions: seq<Session>, userId: string): (r: seq<Session>)
    ensures forall s :: s in r <==> s in sessions && s.userId == userId
    ensures |r| <= |sessions|
  {
    if |sessions| == 0 then []
    else (if sessions[0].userId == userId then [sessions[0]] else []) + ListSessions(sessions[1..], userId)
  }

  lemma {:induction false} ListSessionsAppend(a: seq<Session>, b: seq<Session>, userId: string)
    ensures ListSessions(a + b, userId) == ListSessions(a, userId) + ListSessions(b, userId)
  {
    if |a| == 0 {
      assert a + b == b;
    } else {
      assert (a + b)[0] == a[0];
      assert (a + b)[1..] == a[1..] + b;
      ListSessionsAppend(a[1..], b, userId);
    }
  }

  /** A new session is listed last for its owner and is invisible to every
      other user. */
  lemma CreateThenList(sessions: seq<Session>, userId: string, title: string, id: string, now: string, other: string)
    requires other != userId
    ensures ListSessions(CreateSession(sessions, userId, title, id, now).0, userId)
            == ListSessions(sessions, userId) + [CreateSession(sessions, userId, title, id, now).1]
    ensures ListSessions(CreateSession(sessions, userId, title, id, now).0, other) == ListSessions(sessions, other)
  {
    var s := CreateSession(sessions, userId, title, id, now).1;
    ListSessionsAppend(sessions, [s], userId);
    ListSessionsAppend(sessions, [s], other);
    assert ListSessions([s], userId) == [s] + ListSessions([], userId);
    assert ListSessions([s], other) == [] + ListSessions([], other);
  }

  // ----- reading and appending messages -------------------------------------

  /** Position of the first session with the given id. */
  function FindSession(sessions: seq<Session>, id: string): (r: Option<nat>)
    ensures r.Some? ==> r.value < |sessions| && sessions[r.value].id == id
                        && forall j :: 0 <= j < r.value ==> sessions[j].id != id
    ensures r.None? ==> forall j :: 0 <= j < |sessions| ==> sessions[j].id != id
  {
    if |sessions| == 0 then None
    else if sessions[0].id == id then Some(0)
    else
      match FindSession(sessions[1..], id)
      case None => None
      case Some(i) => Some(i + 1)
  }

  /** `get_chat_session_messages`: the messages of the first session with the
      id, or none when no session has it. */
  function GetMessages(sessions: seq<Session>, id: string): (r: seq<Message>)
    ensures (forall j :: 0 <= j < |sessions| ==> sessions[j].id != id) ==> r == []
    ensures forall j :: 0 <= j < |sessions| && sessions[j].id == id && (forall k :: 0 <= k < j ==> sessions[k].id != id)
              ==> r == sessions[j].messages
  {
    match FindSession(sessions, id)
    case None => []
    case Some(i) => sessions[i].messages
  }

  /** `add_message_to_session`: the stored list afterwards and whether the
      session was found (the list is only written back when it was). */
  function AddMessage(sessions: seq<Session>, id: string, role: string, content: string, now: string): (r: (seq<Session>, bool))
    ensures r.1 <==> exists j :: 0 <= j < |sessions| && sessions[j].id == id
    ensures !r.1 ==> r.0 == sessions
    ensures |r.0| == |sessions|
    ensures forall j :: 0 <= j < |sessions| ==> r.0[j].id == sessions[j].id && r.0[j].userId == sessions[j].userId
                                                && r.0[j].title == sessions[j].title && r.0[j].createdAt == sessions[j].createdAt
  {
    match FindSession(sessions, id)
    case None => (sessions, false)
    case Some(i) =>
      var s := sessions[i];
      (sessions[i := s.(messages := s.messages + [Message(role, content, now)], updatedAt := now)], true)
  }

  /** Exactly the first session with the id gains the message, at its end,
      and takes the message time as its update time; every other session is
      unchanged. */
  lemma AddMessageEffect(sessions: seq<Session>, id: string, role: string, content: string, now: string, j: nat)
    requires j < |sessions| && sessions[j].id == id
    requires forall k :: 0 <= k < j ==> sessions[k].id != id
    ensures AddMessage(sessions, id, role, content, now).0[j].messages == sessions[j].messages + [Message(role, content, now)]
    ensures AddMessage(sessions, id, role, content, now).0[j].updatedAt == now
    ensures forall k :: 0 <= k < |sessions| && k != j ==> AddMessage(sessions, id, role, content, now).0[k] == sessions[k]
  {
    var f := FindSession(sessions, id);
    assert f == Some(j);
  }

  /** Reading after appending: the session's messages gained exactly the new
      message, and every other id reads as before. */
  lemma AddThenGet(sessions: seq<Session>, id: string, role: string, content: string, now: string, other: string)
    requires other != id
    ensures AddMessage(sessions, id, role, content, now).1 ==>
              GetMessages(AddMessage(sessions, id, role, content, now).0, id) == GetMessages(sessions, id) + [Message(role, content, now)]
    ensures GetMessages(AddMessage(sessions, id, role, content, now).0, other) == GetMessages(sessions, other)
  {
    var r := AddMessage(sessions, id, role, content, now).0;
    match FindSession(sessions, id)
    case None =>
    case Some(i) =>
      AddMessageEffect(sessions, id, role, content, now, i);
      assert FindSession(r, id) == Some(i);
      assert FindSession(r, other) == FindSession(sessions, other);
  }

  // ----- unique conversation title ------------------------------------------

  /** `f"{default} ({n})"`. */
  function Candidate(default: string, n: nat): string {
    default + " (" + NatToString(n) + ")"
  }

  lemma CandidateInjective(default: string, m: nat, n: nat)
    requires Candidate(default, m) == Candidate(default, n)
    ensures m == n
  {
    var p := default + " (";
    var cm, cn := p + NatToString(m) + ")", p + NatToString(n) + ")";
    assert NatToString(m) == cm[|p|..|cm| - 1];
    assert NatToString(n) == cn[|p|..|cn| - 1];
    NatToStringInjective(m, n);
  }

  /** The "new conversation" button: the default title when it is free,
      otherwise the default numbered with the smallest free `n >= 1`. */
  method UniqueTitle(default: string, existing: seq<string>) returns (title: string)
    ensures title !in existing
    ensures default !in existing ==> title == default
    ensures default in existing ==>
              exists n :: n >= 1 && title == Candidate(default, n)
                          && forall m :: 1 <= m < n ==> Candidate(default, m) in existing
  {
    if default !in existing {
      return default;
    }
    var count: nat := 1;
    var candidate := Candidate(default, count);
    ghost var untried := set t | t in existing;
    while candidate in existing
      invariant count >= 1 && candidate == Candidate(default, count)
      invariant forall m :: 1 <= m < count ==> Candidate(default, m) in existing
      invariant forall m :: m >= count && Candidate(default, m) in existing ==> Candidate(default, m) in untried
      invariant untried <= set t | t in existing
      decreases |untried|
    {
      var tried := candidate;
      untried := untried - {tried};
      forall m | m > count && Candidate(default, m) in existing
        ensures Candidate(default, m) in untried
      {
        if Candidate(default, m) == tried {
          CandidateInjective(default, m, count);
        }
      }
      count := count + 1;
      candidate := Candidate(default, count);
    }
    return candidate;
  }
}
