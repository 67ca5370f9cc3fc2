/** A chat message as the application passes it around (`{"role": ...,
    "content": ...}`), and the plain-text transcript both frontends build
    from the tail of a history: one `role: content` line per message. */
module Chat {
  import opened Text

  datatype Msg = Msg(role: string, content: string)

  /** `f"{msg['role']}: {msg['content']}"`. */
  function Line(m: Msg): string {
    m.role + ": " + m.content
  }

  /** The lines of the last `n` messages, oldest first. */
  function TailLines(history: seq<Msg>, n: nat): (r: seq<string>)
    ensures |r| == if n == 0 || |history| < n then |history| else n
    ensures forall i :: 0 <= i < |r| ==> r[i] == Line(history[|history| - |r| + i])
  {
    Lines(LastN(history, n))
  }

  /** One line per message. The trigger is the result's index alone, so a
      message of the history does not by itself call up a line. */
  function Lines(msgs: seq<Msg>): (r: seq<string>)
    ensures |r| == |msgs| && forall i {:trigger r[i]} :: 0 <= i < |msgs| ==> r[i] == Line(msgs[i])
  {
    seq(|msgs|, i requires 0 <= i < |msgs| => Line(msgs[i]))
  }

  /** `"\n".join(...)` of those lines: empty for an empty history, and
      otherwise ending with the newest message's line. */
  function Transcript(history: seq<Msg>, n: nat): (r: string)
    ensures |history| == 0 ==> r == []
    ensures |history| > 0 ==> EndsWith(r, Line(history[|history| - 1]))
  {
    var lines := TailLines(history, n);
    if |lines| == 0 then []
    else
      JoinEndsWithLast(lines, "\n");
      Join(lines, "\n")
  }

  /** Once the history is longer than the window, one more message drops the
      oldest line and adds the new one: the transcript only ever shows the
      window. */
  lemma TailLinesSlide(history: seq<Msg>, m: Msg, n: nat)
    requires 0 < n <= |history|
    ensures TailLines(history + [m], n) == TailLines(history, n)[1..] + [Line(m)]
  {
  }
}
