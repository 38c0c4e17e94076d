/** `StreamContext::into_sse`: the SSE body of one streamed completion, and the drop
    guard that flushes it to memory however the response ends. */
module Stream {
  import opened Outcomes

  datatype Usage = Usage(input: nat, output: nat, total: nat)
  const NO_USAGE := Usage(0, 0, 0)

  datatype StreamEvent =
    | Delta(text: string)
    | UsageReport(usage: Usage)
    | HandoffStarted(agent: string)
    | Heartbeat
    | ToolActivity

  /** What one turn of the select loop sees: the heartbeat timer, or the inner stream
      yielding an event, failing, or ending. */
  datatype Poll = Tick | Next(event: StreamEvent) | Failed(message: string) | Ended

  datatype Chunk =
    | RoleChunk
    | Content(text: string)
    | HandoffChunk(agent: string)
    | HeartbeatComment
    | ErrorChunk(message: string)
    | StopChunk(usage: Option<Usage>)
    | DoneMarker

  /** The response's fixed settings. `invalid` is the structured-output check on the
      whole reply: the validation message, or `None` when it passes or none is asked. */
  datatype Settings = Settings(includeUsage: bool, invalid: string -> Option<string>)

  /** What the drop guard hands to the rate tracker, the ledger and memory. The assistant
      message is only appended when there is text. */
  datatype Flush = Flush(text: string, usage: Usage)

  // ---------------------------------------------------------------------
  // The trace a sequence of polls stands for
  // ---------------------------------------------------------------------

  predicate Closing(p: Poll) { p.Ended? || p.Failed? }

  function Emits(p: Poll): seq<Chunk> {
    match p
    case Tick => [HeartbeatComment]
    case Next(Delta(text)) => if text == "" then [] else [Content(text)]
    case Next(UsageReport(_)) => []
    case Next(HandoffStarted(agent)) => [HandoffChunk(agent)]
    case Next(Heartbeat) => [HeartbeatComment]
    case Next(ToolActivity) => []
    case Failed(message) => [ErrorChunk(message)]
    case Ended => []
  }

  function Chunks(polls: seq<Poll>): seq<Chunk> {
    if polls == [] then [] else Chunks(polls[..|polls| - 1]) + Emits(polls[|polls| - 1])
  }

  /** Every delta received, concatenated. */
  function Received(polls: seq<Poll>): string {
    if polls == [] then "" else
      var p := polls[|polls| - 1];
      Received(polls[..|polls| - 1]) + if p.Next? && p.event.Delta? then p.event.text else ""
  }

  function LastUsage(polls: seq<Poll>): Usage {
    if polls == [] then NO_USAGE else
      var p := polls[|polls| - 1];
      if p.Next? && p.event.UsageReport? then p.event.usage else LastUsage(polls[..|polls| - 1])
  }

  predicate Closed(polls: seq<Poll>) { polls != [] && Closing(polls[|polls| - 1]) }

  /** The chunk that closes a cleanly ended stream; a failed one already has its error. */
  function Verdict(s: Settings, polls: seq<Poll>): seq<Chunk>
    requires Closed(polls)
  {
    if polls[|polls| - 1].Failed? then []
    else
      match s.invalid(Received(polls))
      case Some(message) => [ErrorChunk(message)]
      case None => [StopChunk(if s.includeUsage then Some(LastUsage(polls)) else None)]
  }

  /** What follows the loop. */
  function Epilogue(s: Settings, polls: seq<Poll>): seq<Chunk> {
    if Closed(polls) then Verdict(s, polls) + [DoneMarker] else []
  }

  /** Everything a patient client sees of `polls`, which hold at most one closing poll,
      at the end. */
  function Trace(s: Settings, polls: seq<Poll>): seq<Chunk> {
    [RoleChunk] + Chunks(polls) + Epilogue(s, polls)
  }

  /** Only the last poll may close the loop. */
  predicate OneClosing(polls: seq<Poll>) {
    forall i | 0 <= i < |polls| - 1 :: !Closing(polls[i])
  }

  lemma OneMoreClosing(polls: seq<Poll>, i: nat)
    requires i < |polls| && OneClosing(polls[..i]) && !Closed(polls[..i])
    ensures OneClosing(polls[..i + 1])
  {
    assert forall k | 0 <= k < i :: polls[..i][k] == polls[k];
  }

  function ContentOf(chunks: seq<Chunk>): string {
    if chunks == [] then "" else
      var c := chunks[|chunks| - 1];
      ContentOf(chunks[..|chunks| - 1]) + if c.Content? then c.text else ""
  }

  lemma ContentSnoc(chunks: seq<Chunk>, c: Chunk)
    ensures ContentOf(chunks + [c]) == ContentOf(chunks) + if c.Content? then c.text else ""
  {
    assert (chunks + [c])[..|chunks|] == chunks;
  }

  /** One more poll. */
  lemma OneMore(polls: seq<Poll>, i: nat)
    requires i < |polls|
    ensures var p := polls[i];
            && Chunks(polls[..i + 1]) == Chunks(polls[..i]) + Emits(p)
            && Received(polls[..i + 1]) ==
               Received(polls[..i]) + (if p.Next? && p.event.Delta? then p.event.text else "")
            && LastUsage(polls[..i + 1]) ==
               if p.Next? && p.event.UsageReport? then p.event.usage else LastUsage(polls[..i])
  {
    assert polls[..i + 1][..i] == polls[..i];
  }

  lemma Regroup(a: seq<Chunk>, b: seq<Chunk>, c: seq<Chunk>)
    ensures a + (b + c) == a + b + c
  {
  }

  lemma ContentOfEmits(chunks: seq<Chunk>, p: Poll)
    ensures ContentOf(chunks + Emits(p)) == ContentOf(chunks) + if p.Next? && p.event.Delta? then p.event.text else ""
  {
    if Emits(p) == [] {
      assert chunks + [] == chunks;
    } else {
      ContentSnoc(chunks, Emits(p)[0]);
    }
  }

  /** The content chunks of a trace are the deltas received, nothing more or less. */
  lemma {:induction false} ContentIsReceived(polls: seq<Poll>)
    ensures ContentOf([RoleChunk] + Chunks(polls)) == Received(polls)
  {
    var head := [RoleChunk];
    if polls == [] {
      assert head + Chunks(polls) == [] + [RoleChunk];
      ContentSnoc([], RoleChunk);
    } else {
      var prev, p := polls[..|polls| - 1], polls[|polls| - 1];
      ContentIsReceived(prev);
      Regroup(head, Chunks(prev), Emits(p));
      ContentOfEmits(head + Chunks(prev), p);
    }
  }

  predicate IsTerminal(c: Chunk) { c.StopChunk? || c.ErrorChunk? }

  /** While the loop runs it emits neither a terminal chunk nor `[DONE]`. */
  lemma {:induction false} LoopEmitsNoTerminal(polls: seq<Poll>, i: nat)
    requires i < |Chunks(polls)| && forall p | p in polls :: !Closing(p)
    ensures !IsTerminal(Chunks(polls)[i]) && !Chunks(polls)[i].DoneMarker? && !Chunks(polls)[i].RoleChunk?
  {
    var prev, p := polls[..|polls| - 1], polls[|polls| - 1];
    assert p in polls && forall q | q in prev :: q in polls;
    if i < |Chunks(prev)| {
      LoopEmitsNoTerminal(prev, i);
    }
  }

  lemma ChunksEnd(polls: seq<Poll>)
    requires polls != []
    ensures Chunks(polls) == Chunks(polls[..|polls| - 1]) + Emits(polls[|polls| - 1])
  {
  }

  /** A completed response ends with exactly one stop or error chunk and then exactly one
      `[DONE]`; an uncompleted one has neither. */
  lemma TraceShape(s: Settings, polls: seq<Poll>)
    requires OneClosing(polls)
    ensures var t := Trace(s, polls);
            && t[0] == RoleChunk
            && (Closed(polls) ==>
                  && |t| >= 3 && t[|t| - 1] == DoneMarker && IsTerminal(t[|t| - 2])
                  && forall i | 0 <= i < |t| - 2 :: !IsTerminal(t[i]) && !t[i].DoneMarker?)
            && (!Closed(polls) ==> forall i | 0 <= i < |t| :: !IsTerminal(t[i]) && !t[i].DoneMarker?)
  {
    hide Chunks;
    var t := Trace(s, polls);
    var body := if Closed(polls) then polls[..|polls| - 1] else polls;
    forall p | p in body ensures !Closing(p) {
      var i :| 0 <= i < |body| && body[i] == p;
      assert polls[i] == p;
    }
    forall i | 0 <= i < |Chunks(body)|
      ensures !IsTerminal(Chunks(body)[i]) && !Chunks(body)[i].DoneMarker?
    {
      LoopEmitsNoTerminal(body, i);
    }
    if Closed(polls) {
      ChunksEnd(polls);
      var tail := Emits(polls[|polls| - 1]) + Epilogue(s, polls);
      Regroup([RoleChunk], Chunks(body), Emits(polls[|polls| - 1]));
      Regroup([RoleChunk] + Chunks(body), Emits(polls[|polls| - 1]), Epilogue(s, polls));
      assert t == [RoleChunk] + Chunks(body) + tail && |tail| == 2;
    }
  }

  /** An error and a stop never share a trace: the stop is there exactly when the inner
      stream ended cleanly and its text passed the check. */
  lemma StopsOnlyWhenValid(s: Settings, polls: seq<Poll>)
    requires OneClosing(polls) && Closed(polls)
    ensures var t := Trace(s, polls);
            |t| >= 2 && (t[|t| - 2].StopChunk? <==> polls[|polls| - 1].Ended? && s.invalid(Received(polls)).None?)
  {
    TraceShape(s, polls);
  }

  /** The chunk before `[DONE]`: a failure's own message, or what the check says of the whole
      text, or a stop with the usage reported last, if usage was asked for. */
  lemma ClosingChunk(s: Settings, polls: seq<Poll>)
    requires OneClosing(polls) && Closed(polls)
    ensures var t, last := Trace(s, polls), polls[|polls| - 1];
            |t| >= 2 && t[|t| - 2] ==
            if last.Failed? then ErrorChunk(last.message)
            else if s.invalid(Received(polls)).Some? then ErrorChunk(s.invalid(Received(polls)).value)
            else StopChunk(if s.includeUsage then Some(LastUsage(polls)) else None)
  {
    hide Chunks;
    ChunksEnd(polls);
  }

  /** The last report stands, and without one no usage. */
  lemma {:induction false} LastReportStands(polls: seq<Poll>, i: nat)
    requires i <= |polls|
    requires i < |polls| ==> polls[i].Next? && polls[i].event.UsageReport?
    requires forall k | i < k < |polls| :: !(polls[k].Next? && polls[k].event.UsageReport?)
    requires i == |polls| ==> forall k | 0 <= k < |polls| :: !(polls[k].Next? && polls[k].event.UsageReport?)
    ensures LastUsage(polls) == if i < |polls| then polls[i].event.usage else Usage(0, 0, 0)
  {
    if i < |polls| - 1 {
      LastReportStands(polls[..|polls| - 1], i);
    } else if i == |polls| > 0 {
      LastReportStands(polls[..|polls| - 1], i - 1);
    }
  }

  /** What each poll adds to the trace, and to the text. */
  lemma PollAdds(polls: seq<Poll>, p: Poll)
    ensures Chunks(polls + [p]) == Chunks(polls) +
            match p
            case Tick => [HeartbeatComment]
            case Failed(message) => [ErrorChunk(message)]
            case Ended => []
            case Next(Delta(text)) => (if text == "" then [] else [Content(text)])
            case Next(HandoffStarted(agent)) => [HandoffChunk(agent)]
            case Next(Heartbeat) => [HeartbeatComment]
            case Next(_) => []
    ensures Received(polls + [p]) == Received(polls) + if p.Next? && p.event.Delta? then p.event.text else ""
  {
    assert (polls + [p])[..|polls|] == polls;
  }

  // ---------------------------------------------------------------------
  // The body and its drop guard
  // ---------------------------------------------------------------------

  class Response {
    const settings: Settings
    var accumulated: string
    var finalUsage: Usage
    var emitted: seq<Chunk>
    var flushes: seq<Flush>

    constructor (settings: Settings)
      ensures this.settings == settings && emitted == [] && flushes == []
      ensures accumulated == "" && finalUsage == NO_USAGE
    {
      this.settings := settings;
      accumulated, finalUsage, emitted, flushes := "", NO_USAGE, [], [];
    }

    /** `MemoryFlush::drop`. */
    method Drop()
      modifies this
      ensures flushes == old(flushes) + [Flush(old(accumulated), old(finalUsage))]
      ensures accumulated == "" && emitted == old(emitted) && finalUsage == old(finalUsage)
    {
      flushes := flushes + [Flush(accumulated, finalUsage)];
      accumulated := "";
    }

    /** One turn of the loop. */
    method Handle(p: Poll)
      modifies this`accumulated, this`finalUsage, this`emitted
      ensures emitted == old(emitted) + Emits(p)
      ensures accumulated == old(accumulated) + if p.Next? && p.event.Delta? then p.event.text else ""
      ensures finalUsage == if p.Next? && p.event.UsageReport? then p.event.usage else old(finalUsage)
    {
      match p {
        case Tick => emitted := emitted + [HeartbeatComment];
        case Next(Delta(text)) =>
          if text != "" {
            accumulated := accumulated + text;
            emitted := emitted + [Content(text)];
          }
        case Next(UsageReport(usage)) => finalUsage := usage;
        case Next(HandoffStarted(agent)) => emitted := emitted + [HandoffChunk(agent)];
        case Next(Heartbeat) => emitted := emitted + [HeartbeatComment];
        case Next(ToolActivity) =>
        case Failed(message) => emitted := emitted + [ErrorChunk(message)];
        case Ended =>
      }
    }

    /** Runs the generator against `polls`. The client goes away after taking `patience`
        chunks, or while the loop waits once the polls run out. */
    method Serve(polls: seq<Poll>, patience: nat) returns (taken: nat)
      requires emitted == [] && flushes == [] && accumulated == "" && finalUsage == NO_USAGE
      modifies this
      ensures taken <= |polls| && OneClosing(polls[..taken])
      ensures |emitted| <= patience && emitted <= Trace(settings, polls[..taken])
      ensures |emitted| < patience ==>
                emitted == Trace(settings, polls[..taken]) && (Closed(polls[..taken]) || taken == |polls|)
      ensures flushes == [Flush(ContentOf(emitted), LastUsage(polls[..taken]))]
      ensures patience > 0 ==> ContentOf(emitted) == Received(polls[..taken])
    {
      taken := 0;
      if patience > 0 {
        emitted := emitted + [RoleChunk];
        taken := Loop(polls, patience);
        ContentIsReceived(polls[..taken]);
        assert emitted <= Trace(settings, polls[..taken]);
        if |emitted| < patience && Closed(polls[..taken]) {
          Finish(polls[..taken], patience);
        }
      }
      Drop();
    }

    method Loop(polls: seq<Poll>, patience: nat) returns (taken: nat)
      requires emitted == [RoleChunk] && accumulated == "" && finalUsage == NO_USAGE && patience > 0
      modifies this`accumulated, this`finalUsage, this`emitted
      ensures taken <= |polls| && OneClosing(polls[..taken])
      ensures emitted == [RoleChunk] + Chunks(polls[..taken]) && |emitted| <= patience
      ensures accumulated == Received(polls[..taken]) && finalUsage == LastUsage(polls[..taken])
      ensures |emitted| < patience ==> Closed(polls[..taken]) || taken == |polls|
    {
      taken := 0;
      while |emitted| < patience && taken < |polls| && !Closed(polls[..taken])
        invariant taken <= |polls| && OneClosing(polls[..taken])
        invariant emitted == [RoleChunk] + Chunks(polls[..taken]) && |emitted| <= patience
        invariant accumulated == Received(polls[..taken]) && finalUsage == LastUsage(polls[..taken])
        decreases |polls| - taken
      {
        OneMore(polls, taken);
        OneMoreClosing(polls, taken);
        Handle(polls[taken]);
        taken := taken + 1;
      }
    }

    /** After the loop: the structured-output check and the stop chunk. */
    method Judge(ghost polls: seq<Poll>, failed: bool)
      requires Closed(polls) && failed == polls[|polls| - 1].Failed?
      requires accumulated == Received(polls) && finalUsage == LastUsage(polls)
      modifies this`emitted
      ensures emitted == old(emitted) + Verdict(settings, polls)
      ensures ContentOf(emitted) == ContentOf(old(emitted))
    {
      if failed {
        return;
      }
      var last;
      match settings.invalid(accumulated) {
        case Some(message) => last := ErrorChunk(message);
        case None => last := StopChunk(if settings.includeUsage then Some(finalUsage) else None);
      }
      ContentSnoc(emitted, last);
      emitted := emitted + [last];
    }

    /** Then `[DONE]`, if the client is still there. */
    method Finish(polls: seq<Poll>, patience: nat)
      requires Closed(polls) && emitted == [RoleChunk] + Chunks(polls) && |emitted| < patience
      requires accumulated == Received(polls) && finalUsage == LastUsage(polls)
      modifies this`emitted
      ensures |emitted| <= patience && emitted <= Trace(settings, polls)
      ensures |emitted| < patience ==> emitted == Trace(settings, polls)
      ensures ContentOf(emitted) == ContentOf(old(emitted))
    {
      ghost var before := emitted;
      Regroup(before, Verdict(settings, polls), [DoneMarker]);
      Judge(polls, polls[|polls| - 1].Failed?);
      if |emitted| < patience {
        ContentSnoc(emitted, DoneMarker);
        emitted := emitted + [DoneMarker];
      }
    }
  }
}
