/**
 The media stream of one call: what the inbound loop accepts and captures, how the stream ends, and what the end of an
 inbound stream is turned into.
 */
module StreamBridge {
  import opened Wrappers
  import opened Mulaw
  import Media

  type Identifier = nat

  const MAX_EVIDENCE_PCM_BYTES: nat := 24_000 * 2 * 30

  // ---------- Frames ----------

  /** A received message after JSON parsing: the stream it names is ours or not, numbers parse or do not. */
  datatype Frame = Frame(ours: bool, sequence: Option<int>, event: FrameEvent)

  datatype FrameEvent =
    | Stop(accountMatches: bool)
    | Audio(inboundTrack: bool, chunk: Option<int>, payload: Option<string>)
    | Unexpected

  /** `forwarded` says whether the realtime side took the audio of the frame. */
  datatype Received = Message(frame: Frame, forwarded: bool) | Malformed | Disconnected

  datatype LoopEnd = Running | Stopped | Violated | LinkLost | ForwardFailed

  /** The loop's variables; `decoded` is all the audio that was decoded so far, `chunks` and `sequences` the numbers of
      the frames that were accepted. */
  datatype Loop = Loop(lastSequence: int, lastChunk: int, decoded: seq<Byte>, sequences: seq<int>, chunks: seq<int>,
                       end: LoopEnd)

  const START := Loop(1, 0, [], [], [], Running)

  function Decode(payload: string): (pcm: Option<seq<Byte>>)
    ensures pcm.Some? ==> |pcm.value| % 6 == 0 && pcm.value != []
  {
    match Media.TwilioPayloadToPcm24(payload)
    case Ok(pcm) => Some(pcm)
    case Err(_) => None
  }

  function TakeAudio(loop: Loop, chunk: Option<int>, payload: Option<string>, forwarded: bool): Loop {
    if chunk.None? || chunk.value <= loop.lastChunk then loop.(end := Violated)
    else
      var counted := loop.(lastChunk := chunk.value, chunks := loop.chunks + [chunk.value]);
      if payload.None? || Decode(payload.value).None? then counted.(end := Violated)
      else
        counted.(decoded := loop.decoded + Decode(payload.value).value,
                 end := if forwarded then Running else ForwardFailed)
  }

  function TakeFrame(loop: Loop, frame: Frame, forwarded: bool): Loop {
    if !frame.ours || frame.sequence.None? || frame.sequence.value <= loop.lastSequence then loop.(end := Violated)
    else
      var counted :=
        loop.(lastSequence := frame.sequence.value, sequences := loop.sequences + [frame.sequence.value]);
      match frame.event
      case Stop(accountMatches) => counted.(end := if accountMatches then Stopped else Violated)
      case Unexpected => counted.(end := Violated)
      case Audio(inboundTrack, chunk, payload) =>
        if !inboundTrack then counted.(end := Violated) else TakeAudio(counted, chunk, payload, forwarded)
  }

  function Take(loop: Loop, received: Received): Loop {
    if !loop.end.Running? then loop
    else
      match received
      case Malformed => loop.(end := Violated)
      case Disconnected => loop.(end := LinkLost)
      case Message(frame, forwarded) => TakeFrame(loop, frame, forwarded)
  }

  /** The loop after the messages that arrived before the stream ended. */
  function Scan(messages: seq<Received>): Loop {
    if messages == [] then START else Take(Scan(messages[..|messages| - 1]), messages[|messages| - 1])
  }

  // ---------- What ends the loop and what it hears ----------

  function NumberOf(received: Received): Option<int> {
    if received.Message? then received.frame.sequence else None
  }

  function ChunkOf(received: Received): Option<int> {
    if received.Message? && received.frame.event.Audio? then received.frame.event.chunk else None
  }

  /** The number is above 1 and above the sequence numbers of all the messages. */
  ghost predicate AboveNumbers(messages: seq<Received>, x: int) {
    1 < x && forall j :: 0 <= j < |messages| && NumberOf(messages[j]).Some? ==> NumberOf(messages[j]).value < x
  }

  /** The number is above 0 and above the chunk numbers of all the messages. */
  ghost predicate AboveChunks(messages: seq<Received>, x: int) {
    0 < x && forall j :: 0 <= j < |messages| && ChunkOf(messages[j]).Some? ==> ChunkOf(messages[j]).value < x
  }

  /** After these messages comes a frame of our stream with a rising sequence number. */
  ghost predicate InSequence(earlier: seq<Received>, received: Received) {
    && received.Message? && received.frame.ours
    && received.frame.sequence.Some? && AboveNumbers(earlier, received.frame.sequence.value)
  }

  /** It is an inbound media frame with a rising chunk number and a payload that decodes. */
  ghost predicate IsAudio(earlier: seq<Received>, received: Received) {
    && InSequence(earlier, received) && received.frame.event.Audio? && received.frame.event.inboundTrack
    && received.frame.event.chunk.Some? && AboveChunks(earlier, received.frame.event.chunk.value)
    && received.frame.event.payload.Some? && Decode(received.frame.event.payload.value).Some?
  }

  /** It is a stop frame of our account. */
  ghost predicate IsStop(earlier: seq<Received>, received: Received) {
    InSequence(earlier, received) && received.frame.event == Stop(true)
  }

  /** The first `n` messages are media frames that were taken and forwarded, so the loop gets to see the next one. */
  ghost predicate Reaches(messages: seq<Received>, n: int)
    requires n <= |messages|
  {
    forall i :: 0 <= i < n ==> IsAudio(messages[..i], messages[i]) && messages[i].forwarded
  }

  /** The message at `i` is the first one that the loop does not go on after, and ends it so. */
  ghost predicate EndsAt(messages: seq<Received>, i: int, end: LoopEnd) {
    && 0 <= i < |messages| && Reaches(messages, i)
    && match end
       case Running => false
       case Stopped => IsStop(messages[..i], messages[i])
       case LinkLost => messages[i] == Disconnected
       case ForwardFailed => IsAudio(messages[..i], messages[i]) && !messages[i].forwarded
       case Violated =>
         && messages[i] != Disconnected && !IsStop(messages[..i], messages[i])
         && !IsAudio(messages[..i], messages[i])
  }

  /** The audio of the message at `i`, if it is a media frame that the loop gets to see. */
  ghost function Brings(messages: seq<Received>, i: nat): seq<Byte>
    requires i < |messages|
  {
    if Reaches(messages, i) && IsAudio(messages[..i], messages[i])
    then Decode(messages[i].frame.event.payload.value).value else []
  }

  /** The audio of the media frames among the first `n` messages that the loop gets to see, in their order. */
  ghost function Heard(messages: seq<Received>, n: nat): seq<Byte>
    requires n <= |messages|
  {
    if n == 0 then [] else Heard(messages, n - 1) + Brings(messages, n - 1)
  }

  /** The loop's counters are the highest numbers of the messages. */
  ghost predicate Counts(messages: seq<Received>, loop: Loop) {
    && (forall x :: AboveNumbers(messages, x) <==> x > loop.lastSequence)
    && (forall x :: AboveChunks(messages, x) <==> x > loop.lastChunk)
  }

  lemma CountsNext(earlier: seq<Received>, received: Received, longer: seq<Received>, loop: Loop, next: Loop)
    requires Counts(earlier, loop) && loop.end.Running? && IsAudio(earlier, received)
    requires longer == earlier + [received] && next == Take(loop, received)
    ensures Counts(longer, next)
  {
    forall x
      ensures AboveNumbers(longer, x) <==> x > next.lastSequence
      ensures AboveChunks(longer, x) <==> x > next.lastChunk
    {
      AboveOneMore(earlier, received, longer, x);
      assert AboveNumbers(earlier, x) <==> x > loop.lastSequence;
      assert AboveChunks(earlier, x) <==> x > loop.lastChunk;
    }
  }

  lemma AboveOneMore(earlier: seq<Received>, received: Received, longer: seq<Received>, x: int)
    requires longer == earlier + [received]
    ensures AboveNumbers(longer, x) <==>
            AboveNumbers(earlier, x) && (NumberOf(received).Some? ==> NumberOf(received).value < x)
    ensures AboveChunks(longer, x) <==>
            AboveChunks(earlier, x) && (ChunkOf(received).Some? ==> ChunkOf(received).value < x)
  {
    forall j | 0 <= j < |earlier|
      ensures longer[j] == earlier[j]
    {
    }
    assert longer[|earlier|] == received;
  }

  /** How a running loop takes one message. */
  lemma TakeExactly(earlier: seq<Received>, received: Received, loop: Loop, next: Loop)
    requires Counts(earlier, loop) && loop.end.Running? && next == Take(loop, received)
    ensures next.end.Running? <==> IsAudio(earlier, received) && received.forwarded
    ensures next.end.Stopped? <==> IsStop(earlier, received)
    ensures next.end.LinkLost? <==> received == Disconnected
    ensures next.end.ForwardFailed? <==> IsAudio(earlier, received) && !received.forwarded
    ensures next.decoded == loop.decoded +
            if IsAudio(earlier, received) then Decode(received.frame.event.payload.value).value else []
  {
    if received.Message? && received.frame.sequence.Some? {
      assert AboveNumbers(earlier, received.frame.sequence.value) <==>
             received.frame.sequence.value > loop.lastSequence;
    }
    if ChunkOf(received).Some? {
      assert AboveChunks(earlier, ChunkOf(received).value) <==> ChunkOf(received).value > loop.lastChunk;
    }
  }

  lemma ReachesPrefix(messages: seq<Received>, earlier: seq<Received>, n: nat)
    requires n <= |earlier| <= |messages| && earlier == messages[..|earlier|]
    ensures Reaches(messages, n) <==> Reaches(earlier, n)
  {
    forall i | 0 <= i < n
      ensures messages[..i] == earlier[..i] && messages[i] == earlier[i]
    {
    }
  }

  lemma BringsPrefix(messages: seq<Received>, earlier: seq<Received>, i: nat)
    requires i < |earlier| <= |messages| && earlier == messages[..|earlier|]
    ensures Brings(messages, i) == Brings(earlier, i)
  {
    ReachesPrefix(messages, earlier, i);
    assert messages[..i] == earlier[..i];
  }

  lemma {:induction false} HeardPrefix(messages: seq<Received>, earlier: seq<Received>, n: nat)
    requires n <= |earlier| <= |messages| && earlier == messages[..|earlier|]
    ensures Heard(messages, n) == Heard(earlier, n)
  {
    if n > 0 {
      HeardPrefix(messages, earlier, n - 1);
      BringsPrefix(messages, earlier, n - 1);
    }
  }

  lemma ReachesNext(messages: seq<Received>, earlier: seq<Received>, received: Received)
    requires messages == earlier + [received]
    ensures Reaches(messages, |messages|) <==>
            Reaches(earlier, |earlier|) && IsAudio(earlier, received) && received.forwarded
  {
    ReachesPrefix(messages, earlier, |earlier|);
    assert messages[..|earlier|] == earlier;
  }

  lemma HeardNext(messages: seq<Received>, earlier: seq<Received>, received: Received)
    requires messages == earlier + [received]
    ensures Heard(messages, |messages|) == Heard(earlier, |earlier|) +
            if Reaches(earlier, |earlier|) && IsAudio(earlier, received)
            then Decode(received.frame.event.payload.value).value else []
  {
    HeardPrefix(messages, earlier, |earlier|);
    ReachesPrefix(messages, earlier, |earlier|);
    assert messages[..|earlier|] == earlier;
  }

  /** The loop runs exactly while every message is a media frame that is taken and forwarded, and what it decodes is the
      audio of exactly the media frames that it gets to see. */
  lemma {:induction false} LoopHears(messages: seq<Received>, loop: Loop)
    requires loop == Scan(messages)
    ensures loop.end.Running? <==> Reaches(messages, |messages|)
    ensures loop.end.Running? ==> Counts(messages, loop)
    ensures loop.decoded == Heard(messages, |messages|)
  {
    if messages != [] {
      var earlier, received := messages[..|messages| - 1], messages[|messages| - 1];
      var before := Scan(earlier);
      LoopHears(earlier, before);
      ReachesNext(messages, earlier, received);
      HeardNext(messages, earlier, received);
      if before.end.Running? {
        TakeExactly(earlier, received, before, loop);
        if loop.end.Running? {
          CountsNext(earlier, received, messages, before, loop);
        }
      }
    }
  }

  lemma EndsPrefix(messages: seq<Received>, earlier: seq<Received>, i: nat, end: LoopEnd)
    requires i < |earlier| <= |messages| && earlier == messages[..|earlier|]
    ensures EndsAt(messages, i, end) <==> EndsAt(earlier, i, end)
  {
    ReachesPrefix(messages, earlier, i);
    assert messages[..i] == earlier[..i];
  }

  /** How the loop ends is decided by the first message that it does not go on after. */
  lemma {:induction false} EndsExactly(messages: seq<Received>, end: LoopEnd)
    requires !end.Running?
    ensures Scan(messages).end == end <==> exists i :: EndsAt(messages, i, end)
  {
    if messages != [] {
      var last := |messages| - 1;
      var earlier := messages[..last];
      EndsExactly(earlier, end);
      EndsLast(messages, end);
      if i :| EndsAt(earlier, i, end) {
        EndsPrefix(messages, earlier, i, end);
      } else if i :| EndsAt(messages, i, end) {
        if i < last {
          EndsPrefix(messages, earlier, i, end);
        }
      } else {
        assert !EndsAt(messages, last, end);
      }
    }
  }

  lemma EndsLast(messages: seq<Received>, end: LoopEnd)
    requires !end.Running? && messages != []
    ensures var earlier := messages[..|messages| - 1];
      Scan(messages).end == end <==> Scan(earlier).end == end || EndsAt(messages, |messages| - 1, end)
  {
    var last := |messages| - 1;
    var earlier := messages[..last];
    LoopHears(earlier, Scan(earlier));
    ReachesPrefix(messages, earlier, last);
    if Scan(earlier).end.Running? {
      TakeExactly(earlier, messages[last], Scan(earlier), Scan(messages));
    }
  }

  // ---------- Capturing ----------

  function First(bytes: seq<Byte>, n: nat): (first: seq<Byte>)
    ensures first <= bytes && |first| == if |bytes| <= n then |bytes| else n
  {
    if |bytes| <= n then bytes else bytes[..n]
  }

  lemma FirstExtends(captured: seq<Byte>, bytes: seq<Byte>, more: seq<Byte>, n: nat)
    requires captured == First(bytes, n)
    ensures |captured| >= n ==> First(bytes + more, n) == captured
    ensures |captured| < n ==> First(bytes + more, n) == captured + First(more, n - |captured|)
  {}

  /** The inbound loop over the messages that arrive. For an inbound call it captures exactly the first 1,440,000 bytes
      of the audio of the media frames that it gets to see. */
  method TwilioToRealtime(messages: seq<Received>, inbound: bool) returns (end: LoopEnd, captured: seq<Byte>)
    ensures end == Scan(messages).end
    ensures end.Running? <==> Reaches(messages, |messages|)
    ensures !end.Running? ==> exists i :: EndsAt(messages, i, end)
    ensures captured == if inbound then First(Heard(messages, |messages|), 1_440_000) else []
  {
    end, captured := Running, [];
    var lastSequence, lastChunk := 1, 0;
    var i := 0;
    while i < |messages| && end == Running
      invariant 0 <= i <= |messages| && end == Scan(messages[..i]).end
      invariant lastSequence == Scan(messages[..i]).lastSequence && lastChunk == Scan(messages[..i]).lastChunk
      invariant captured == if inbound then First(Scan(messages[..i]).decoded, MAX_EVIDENCE_PCM_BYTES) else []
    {
      ScanNext(messages, i);
      var pcm: seq<Byte>;
      end, lastSequence, lastChunk, pcm := Accept(messages[i], lastSequence, lastChunk, Scan(messages[..i]));
      FirstExtends(First(Scan(messages[..i]).decoded, MAX_EVIDENCE_PCM_BYTES), Scan(messages[..i]).decoded, pcm,
                   MAX_EVIDENCE_PCM_BYTES);
      if inbound && |captured| < MAX_EVIDENCE_PCM_BYTES {
        var remaining := MAX_EVIDENCE_PCM_BYTES - |captured|;
        captured := captured + First(pcm, remaining);
      }
      i := i + 1;
    }
    ScanEnded(messages, i);
    LoopHears(messages, Scan(messages));
    if end != Running {
      EndsExactly(messages, end);
    }
  }

  /** The checks on one message and the audio it brings. */
  method Accept(received: Received, sequence: int, chunk: int, ghost loop: Loop)
    returns (end: LoopEnd, lastSequence: int, lastChunk: int, pcm: seq<Byte>)
    requires loop.end == Running && sequence == loop.lastSequence && chunk == loop.lastChunk
    ensures var next := Take(loop, received);
      && end == next.end && lastSequence == next.lastSequence && lastChunk == next.lastChunk
      && next.decoded == loop.decoded + pcm
  {
    lastSequence, lastChunk, pcm := sequence, chunk, [];
    assert loop.decoded + pcm == loop.decoded;
    if !received.Message? {
      end := if received.Malformed? then Violated else LinkLost;
      return;
    }
    var frame := received.frame;
    if !frame.ours || frame.sequence.None? || frame.sequence.value <= lastSequence {
      end := Violated;
      return;
    }
    lastSequence := frame.sequence.value;
    match frame.event {
      case Stop(accountMatches) => end := if accountMatches then Stopped else Violated;
      case Unexpected => end := Violated;
      case Audio(inboundTrack, number, payload) =>
        if !inboundTrack || number.None? || number.value <= lastChunk {
          end := Violated;
          return;
        }
        lastChunk := number.value;
        if payload.None? || Decode(payload.value).None? {
          end := Violated;
          return;
        }
        pcm := Decode(payload.value).value;
        end := if received.forwarded then Running else ForwardFailed;
    }
  }

  lemma ScanNext(messages: seq<Received>, i: nat)
    requires i < |messages|
    ensures Scan(messages[..i + 1]) == Take(Scan(messages[..i]), messages[i])
  {
    assert messages[..i + 1][..i] == messages[..i];
  }

  /** Nothing that arrives after the end changes anything. */
  lemma {:induction false} ScanEnded(messages: seq<Received>, i: nat)
    requires i <= |messages| && (i < |messages| ==> Scan(messages[..i]).end != Running)
    ensures Scan(messages) == Scan(messages[..i])
  {
    if i < |messages| {
      var last := |messages| - 1;
      assert messages[..last][..i] == messages[..i];
      ScanEnded(messages[..last], i);
    } else {
      assert messages[..i] == messages;
    }
  }

  // ---------- What the loop keeps ----------

  ghost predicate Increasing(numbers: seq<int>, above: int, last: int) {
    if numbers == [] then last == above
    else
      numbers[|numbers| - 1] == last
      && (if |numbers| == 1 then above else numbers[|numbers| - 2]) < last
      && Increasing(numbers[..|numbers| - 1], above, if |numbers| == 1 then above else numbers[|numbers| - 2])
  }

  lemma IncreasingAppend(numbers: seq<int>, above: int, last: int, next: int)
    requires Increasing(numbers, above, last) && last < next
    ensures Increasing(numbers + [next], above, next)
  {}

  ghost predicate LoopOk(loop: Loop) {
    && Increasing(loop.sequences, 1, loop.lastSequence) && Increasing(loop.chunks, 0, loop.lastChunk)
    && |loop.decoded| % 6 == 0
  }

  lemma TakeAudioKeeps(loop: Loop, chunk: Option<int>, payload: Option<string>, forwarded: bool)
    requires LoopOk(loop)
    ensures LoopOk(TakeAudio(loop, chunk, payload, forwarded))
  {}

  lemma TakeFrameKeeps(loop: Loop, frame: Frame, forwarded: bool)
    requires LoopOk(loop)
    ensures LoopOk(TakeFrame(loop, frame, forwarded))
  {
    if frame.ours && frame.sequence.Some? && loop.lastSequence < frame.sequence.value {
      IncreasingAppend(loop.sequences, 1, loop.lastSequence, frame.sequence.value);
      var counted :=
        loop.(lastSequence := frame.sequence.value, sequences := loop.sequences + [frame.sequence.value]);
      assert LoopOk(counted);
      if frame.event.Audio? {
        TakeAudioKeeps(counted, frame.event.chunk, frame.event.payload, forwarded);
      }
    }
  }

  lemma TakeKeeps(loop: Loop, received: Received)
    requires LoopOk(loop)
    ensures LoopOk(Take(loop, received))
  {
    if received.Message? {
      TakeFrameKeeps(loop, received.frame, received.forwarded);
    }
  }

  lemma {:induction false} ScanKeeps(messages: seq<Received>)
    ensures LoopOk(Scan(messages))
  {
    if messages != [] {
      ScanKeeps(messages[..|messages| - 1]);
      TakeKeeps(Scan(messages[..|messages| - 1]), messages[|messages| - 1]);
    }
  }

  lemma {:induction false} IncreasingLast(numbers: seq<int>, above: int, last: int)
    requires Increasing(numbers, above, last)
    ensures above <= last && (numbers != [] ==> above < last)
  {
    if |numbers| > 1 {
      IncreasingLast(numbers[..|numbers| - 1], above, numbers[|numbers| - 2]);
    }
  }

  lemma {:induction false} IncreasingPairs(numbers: seq<int>, above: int, last: int, i: nat, j: nat)
    requires Increasing(numbers, above, last) && i < j < |numbers|
    ensures above < numbers[i] < numbers[j] <= last
  {
    var n := |numbers| - 1;
    IncreasingLast(numbers[..n], above, numbers[n - 1]);
    if j < n {
      IncreasingPairs(numbers[..n], above, numbers[n - 1], i, j);
    } else if i < n - 1 {
      IncreasingPairs(numbers[..n], above, numbers[n - 1], i, n - 1);
    }
  }

  /** Of any two accepted frames the later has the higher sequence number, and all are above 1; likewise for the chunk
      numbers, above 0. */
  lemma AcceptedNumbersIncrease(messages: seq<Received>, loop: Loop, i: nat, j: nat)
    requires loop == Scan(messages)
    ensures i < j < |loop.sequences| ==> 1 < loop.sequences[i] < loop.sequences[j]
    ensures i < j < |loop.chunks| ==> 0 < loop.chunks[i] < loop.chunks[j]
  {
    ScanKeeps(messages);
    if i < j < |loop.sequences| {
      IncreasingPairs(loop.sequences, 1, loop.lastSequence, i, j);
    }
    if i < j < |loop.chunks| {
      IncreasingPairs(loop.chunks, 0, loop.lastChunk, i, j);
    }
  }

  /** The captured evidence consists of whole groups of three samples. */
  lemma EvidenceIsWhole(messages: seq<Received>, captured: seq<Byte>)
    requires captured == First(Heard(messages, |messages|), MAX_EVIDENCE_PCM_BYTES)
    ensures |captured| % 6 == 0 && (captured == [] <==> Heard(messages, |messages|) == [])
  {
    ScanKeeps(messages);
    LoopHears(messages, Scan(messages));
    FirstIsWhole(Scan(messages).decoded, captured);
  }

  lemma FirstIsWhole(bytes: seq<Byte>, captured: seq<Byte>)
    requires |bytes| % 6 == 0 && captured == First(bytes, MAX_EVIDENCE_PCM_BYTES)
    ensures |captured| % 6 == 0 && (captured == [] <==> bytes == [])
  {}

  // ---------- The end of the stream ----------

  datatype Binding = Binding(inbound: bool, correlation: Option<Identifier>)

  datatype Marker = Marker(audioStartMs: nat, item: Identifier, event: Identifier)

  datatype Evidence = Evidence(audio: seq<Byte>, marker: Marker, correlation: Identifier)

  datatype TaskEnd = StillRunning | Returned | DisconnectRaised | ErrorRaised

  /** How the wait for the two loops ended: neither was done in time, at least one was done, or the realtime side could
      not be reached at all. */
  datatype WaitEnd = TimedOut | Done(inboundLoop: TaskEnd, outboundLoop: TaskEnd) | Unreachable

  datatype Outcome = COMPLETED | DISCONNECTED | TIMEOUT | INSUFFICIENT_EVIDENCE

  /** The inbound loop returns only from a valid stop; a lost link is raised as a disconnect; a stream that timed out or
      never reached the realtime side did not end its loop. */
  predicate Consistent(end: LoopEnd, wait: WaitEnd) {
    if !wait.Done? then end.Running?
    else
      match wait.inboundLoop
      case StillRunning => end.Running? && !wait.outboundLoop.StillRunning?
      case Returned => end.Stopped?
      case DisconnectRaised => end.LinkLost?
      case ErrorRaised => end.Violated? || end.ForwardFailed?
  }

  datatype Report = Report(outcome: Outcome, evidence: Option<Evidence>)

  /** The tail of the bridge: a stop completes the stream, a disconnect of either loop overrides it, and a completed
      inbound stream needs audio, a speech marker and a correlation id. */
  method Conclude(binding: Binding, end: LoopEnd, wait: WaitEnd, captured: seq<Byte>, marker: Option<Marker>)
    returns (report: Report)
    ensures report == Conclusion(binding, end, wait, captured, marker)
  {
    var outcome := if end.Stopped? then COMPLETED else DISCONNECTED;
    if wait.TimedOut? {
      outcome := TIMEOUT;
    } else if wait.Done? && (wait.inboundLoop.DisconnectRaised? || wait.outboundLoop.DisconnectRaised?) {
      outcome := DISCONNECTED;
    }
    var evidence: Option<Evidence> := None;
    if binding.inbound && outcome == COMPLETED {
      if captured != [] && marker.Some? && binding.correlation.Some? {
        evidence := Some(Evidence(captured, marker.value, binding.correlation.value));
      } else {
        outcome := INSUFFICIENT_EVIDENCE;
      }
    }
    report := Report(outcome, evidence);
  }

  function Conclusion(binding: Binding, end: LoopEnd, wait: WaitEnd, captured: seq<Byte>, marker: Option<Marker>)
    : Report
  {
    if wait.TimedOut? then Report(TIMEOUT, None)
    else if !end.Stopped? then Report(DISCONNECTED, None)
    else if wait.Done? && (wait.inboundLoop.DisconnectRaised? || wait.outboundLoop.DisconnectRaised?) then
      Report(DISCONNECTED, None)
    else if !binding.inbound then Report(COMPLETED, None)
    else if captured != [] && marker.Some? && binding.correlation.Some? then
      Report(COMPLETED, Some(Evidence(captured, marker.value, binding.correlation.value)))
    else Report(INSUFFICIENT_EVIDENCE, None)
  }

  datatype Action = CompleteRecovery(evidence: Evidence) | FailCall(reason: Outcome) | NoAction

  /** What the runtime does with the report of a finished stream. */
  function StreamFinished(binding: Binding, report: Report): Action {
    if !binding.inbound then NoAction
    else if report.outcome == COMPLETED && report.evidence.Some? then CompleteRecovery(report.evidence.value)
    else FailCall(report.outcome)
  }

  /** The loop got to see a stop frame of this account for this stream, in sequence. */
  ghost predicate ValidStop(messages: seq<Received>) {
    exists i :: EndsAt(messages, i, Stopped)
  }

  /** What a stream is reported as, by how its loops ended and what they left. Only an inbound one needs evidence, and
      only an inbound one has some. */
  lemma ReportExactly(binding: Binding, end: LoopEnd, wait: WaitEnd, captured: seq<Byte>, marker: Option<Marker>,
                      report: Report)
    requires Consistent(end, wait) && report == Conclusion(binding, end, wait, captured, marker)
    ensures report.outcome == TIMEOUT <==> wait.TimedOut?
    ensures report.outcome == DISCONNECTED <==>
            !wait.TimedOut? && (!end.Stopped? || wait.outboundLoop == DisconnectRaised)
    ensures report.outcome == COMPLETED <==>
            end.Stopped? && wait.outboundLoop != DisconnectRaised
            && (binding.inbound ==> captured != [] && marker.Some? && binding.correlation.Some?)
    ensures report.evidence.Some? <==> binding.inbound && report.outcome == COMPLETED
    ensures report.evidence.Some? ==>
      report.evidence.value == Evidence(captured, marker.value, binding.correlation.value)
  {}

  /** What the runtime makes of the report: nothing of an outbound one; an inbound recovery is completed with the
      evidence, or the call is failed for the outcome. */
  lemma ActionExactly(binding: Binding, end: LoopEnd, wait: WaitEnd, captured: seq<Byte>, marker: Option<Marker>,
                      report: Report, action: Action)
    requires Consistent(end, wait) && report == Conclusion(binding, end, wait, captured, marker)
    requires action == StreamFinished(binding, report)
    ensures action == NoAction <==> !binding.inbound
    ensures action.CompleteRecovery? <==> binding.inbound && report.outcome == COMPLETED
    ensures action.CompleteRecovery? ==>
      action.evidence == Evidence(captured, marker.value, binding.correlation.value)
    ensures action.FailCall? <==> binding.inbound && report.outcome != COMPLETED
    ensures action.FailCall? ==> action.reason == report.outcome
  {
    ReportExactly(binding, end, wait, captured, marker, report);
  }

  /** An inbound recovery is completed exactly in the runs with a valid stop frame, no disconnect of either loop,
      inbound audio, a speech marker and a correlation id, and then with the first 1,440,000 bytes of that audio; in
      every other run the call is failed, with the reason that applies. */
  lemma RecoveryNeedsEvidence(messages: seq<Received>, binding: Binding, end: LoopEnd, wait: WaitEnd, audio: seq<Byte>,
                              captured: seq<Byte>, marker: Option<Marker>, action: Action)
    requires end == Scan(messages).end && audio == Heard(messages, |messages|)
    requires binding.inbound && Consistent(end, wait) && captured == First(audio, 1_440_000)
    requires action == StreamFinished(binding, Conclusion(binding, end, wait, captured, marker))
    ensures action.CompleteRecovery? <==>
            (ValidStop(messages) && wait.Done? && wait.outboundLoop != DisconnectRaised && audio != []
             && marker.Some? && binding.correlation.Some?)
    ensures action.CompleteRecovery? ==>
            action.evidence == Evidence(captured, marker.value, binding.correlation.value)
    ensures !action.CompleteRecovery? ==> action.FailCall?
    ensures action == FailCall(TIMEOUT) <==> wait.TimedOut?
    ensures action == FailCall(INSUFFICIENT_EVIDENCE) <==>
            (ValidStop(messages) && wait.Done? && wait.outboundLoop != DisconnectRaised
             && (audio == [] || marker.None? || binding.correlation.None?))
    ensures action.FailCall? ==> action.reason in {TIMEOUT, DISCONNECTED, INSUFFICIENT_EVIDENCE}
  {
    LoopHears(messages, Scan(messages));
    EndsExactly(messages, Stopped);
    ReportExactly(binding, end, wait, captured, marker, Conclusion(binding, end, wait, captured, marker));
    ActionExactly(binding, end, wait, captured, marker, Conclusion(binding, end, wait, captured, marker), action);
  }
}
