/** The per-chunk rule of the capture loop (service.py, TranscriptionService._capture_audio):
    how one read of the audio record, and the recognizer's answer to it, becomes at most one
    transcription message, and what a whole run of the loop delivers.

    The audio record and the speech recognizer are foreign: each loop iteration is given as a
    `Step` holding the value the read returned, the buffer's contents after the read and what
    the recognizer answered, or as one of three faults when something in the iteration raised. */
module Capture {

  datatype Option<T> = None | Some(value: T)

  type Byte = b: int | 0 <= b < 256

  /** What the recognizer says about one fed chunk: whether it accepted the waveform (an
      utterance ended), the "text" of its final result and the "partial" of its partial result.
      A key missing from the recognizer's JSON is the empty string. */
  datatype DecoderOutcome = DecoderOutcome(accepted: bool, text: string, partial: string)

  /** One iteration of the read loop. A `Chunk` runs to its end. The other three raise an
      exception partway through, which leaves the loop: a `Fault` in the read itself, before
      anything is fed; a `FaultAfterFeed` once the recognizer was handed the read's bytes (in
      the recognizer or in decoding its JSON answer); a `FaultAfterMessage` once the chunk's
      message, if it has one, was recorded and handed to the callback (in the callback). */
  datatype Step =
    | Chunk(readSize: int, buffer: seq<Byte>, outcome: DecoderOutcome)
    | Fault(reason: string)
    | FaultAfterFeed(readSize: int, buffer: seq<Byte>, reason: string)
    | FaultAfterMessage(readSize: int, buffer: seq<Byte>, outcome: DecoderOutcome, reason: string)

  const PartialTag: string := "[...] "
  const ErrorPrefix: string := "Error: "
  const ProjectionFailedText: string := "Failed to start media projection"
  const ModelMissingText: string := "Speech recognition model not found!"

  function ErrorMessage(reason: string): string {
    ErrorPrefix + reason
  }

  /** Python's `buffer[:readSize]` for a positive readSize: the slice stops at the buffer's end. */
  function FedBytes(readSize: int, buffer: seq<Byte>): (fed: seq<Byte>)
    requires readSize > 0
    ensures |fed| == if readSize <= |buffer| then readSize else |buffer|
    ensures fed == buffer[..|fed|]
  {
    if readSize <= |buffer| then buffer[..readSize] else buffer
  }

  /** The message, if any, that one read produces. Nothing comes of a read that returned zero or
      a negative code; an accepted chunk gives its final text, any other gives its partial
      behind the tag; an empty text or partial is dropped. */
  function ChunkMessage(readSize: int, outcome: DecoderOutcome): (m: Option<string>)
    ensures m.Some? <==> readSize > 0 && (if outcome.accepted then outcome.text != "" else outcome.partial != "")
    ensures m.Some? && outcome.accepted ==> m.value == outcome.text
    ensures m.Some? && !outcome.accepted ==> m.value == PartialTag + outcome.partial
    ensures m.Some? ==> |m.value| > 0
  {
    if readSize <= 0 then None
    else if outcome.accepted then
      (if outcome.text != "" then Some(outcome.text) else None)
    else
      (if outcome.partial != "" then Some(PartialTag + outcome.partial) else None)
  }

  /** The messages one step delivers itself, before any exception it raises: a sequence of
      length 0 or 1. */
  function Emitted(c: Step): seq<string>
  {
    if c.Chunk? || c.FaultAfterMessage? then
      match ChunkMessage(c.readSize, c.outcome)
      case None => []
      case Some(m) => [m]
    else []
  }

  /** The chunks one step hands to the recognizer, before any exception it raises. */
  function Fed(c: Step): seq<seq<Byte>>
  {
    if !c.Fault? && c.readSize > 0 then [FedBytes(c.readSize, c.buffer)] else []
  }

  predicate NoFault(steps: seq<Step>) {
    forall k :: 0 <= k < |steps| ==> steps[k].Chunk?
  }

  /** The messages a run of the loop over `steps` delivers, in order: one per productive chunk,
      then what the first faulting step delivered before it raised, and its error message; the
      fault also ends the loop. */
  function Messages(steps: seq<Step>): seq<string>
  {
    if steps == [] then []
    else if steps[0].Chunk? then Emitted(steps[0]) + Messages(steps[1..])
    else Emitted(steps[0]) + [ErrorMessage(steps[0].reason)]
  }

  /** The chunks a run of the loop over `steps` feeds to the recognizer, in order, up to and
      including what the first faulting step fed before it raised. */
  function FedChunks(steps: seq<Step>): seq<seq<Byte>>
  {
    if steps == [] then []
    else if steps[0].Chunk? then Fed(steps[0]) + FedChunks(steps[1..])
    else Fed(steps[0])
  }

  /** The messages the iterations of the loop deliver themselves, up to the exception that
      leaves it. */
  function LoopMessages(steps: seq<Step>): seq<string>
  {
    if steps == [] then []
    else if steps[0].Chunk? then Emitted(steps[0]) + LoopMessages(steps[1..])
    else Emitted(steps[0])
  }

  /** The reason of the first fault in `steps`, if there is one: the exception that leaves the
      loop. */
  function FirstFault(steps: seq<Step>): Option<string>
  {
    if steps == [] then None
    else if steps[0].Chunk? then FirstFault(steps[1..])
    else Some(steps[0].reason)
  }

  /** Everything one capture thread delivers: a fixed error message when the media projection
      or the model is missing, otherwise what its read loop delivers (nothing when the service
      was already stopped when the loop is first tested). */
  function CaptureMessages(projectionGranted: bool, modelPresent: bool, running: bool, steps: seq<Step>): seq<string>
  {
    if !projectionGranted then [ProjectionFailedText]
    else if !modelPresent then [ModelMissingText]
    else if running then Messages(steps)
    else []
  }

  /** The last of `msgs`, or `current` when there is none: the service's current text after
      delivering `msgs`. */
  function LastOr(current: string, msgs: seq<string>): string {
    if msgs == [] then current else msgs[|msgs| - 1]
  }

  /** The steps of `steps` that read at least one byte, or are faults. */
  function DropIdle(steps: seq<Step>): seq<Step> {
    if steps == [] then []
    else if steps[0].Chunk? && steps[0].readSize <= 0 then DropIdle(steps[1..])
    else [steps[0]] + DropIdle(steps[1..])
  }

  lemma NoFaultTail(steps: seq<Step>)
    requires NoFault(steps) && steps != []
    ensures steps[0].Chunk? && NoFault(steps[1..])
  {
    forall k | 0 <= k < |steps[1..]| ensures steps[1..][k].Chunk? {
      assert steps[1..][k] == steps[k + 1];
    }
  }

  lemma NoFaultSnoc(steps: seq<Step>, c: Step)
    requires NoFault(steps) && c.Chunk?
    ensures NoFault(steps + [c])
  {
    forall k | 0 <= k < |steps| + 1 ensures (steps + [c])[k].Chunk? {
      if k < |steps| {
        assert (steps + [c])[k] == steps[k];
      }
    }
  }

  /** Runs without faults compose: the loop over `a + b` delivers what the loop over `a`
      delivers followed by what the loop over `b` delivers. */
  lemma {:induction false} RunsCompose(a: seq<Step>, b: seq<Step>)
    requires NoFault(a)
    ensures Messages(a + b) == Messages(a) + Messages(b)
  {
    if a == [] {
      assert a + b == b;
    } else {
      assert (a + b)[0] == a[0];
      assert (a + b)[1..] == a[1..] + b;
      NoFaultTail(a);
      RunsCompose(a[1..], b);
    }
  }

  /** The same for feeding: the loop over `a + b` feeds what the loop over `a` feeds followed by
      what the loop over `b` feeds. */
  lemma {:induction false} FeedsCompose(a: seq<Step>, b: seq<Step>)
    requires NoFault(a)
    ensures FedChunks(a + b) == FedChunks(a) + FedChunks(b)
  {
    if a == [] {
      assert a + b == b;
    } else {
      assert (a + b)[0] == a[0];
      assert (a + b)[1..] == a[1..] + b;
      NoFaultTail(a);
      FeedsCompose(a[1..], b);
    }
  }

  /** The same for the loop's own messages; the first fault of `a + b` is that of `b`. */
  lemma {:induction false} LoopRunsCompose(a: seq<Step>, b: seq<Step>)
    requires NoFault(a)
    ensures LoopMessages(a + b) == LoopMessages(a) + LoopMessages(b)
    ensures FirstFault(a + b) == FirstFault(b)
  {
    if a == [] {
      assert a + b == b;
    } else {
      assert (a + b)[0] == a[0];
      assert (a + b)[1..] == a[1..] + b;
      NoFaultTail(a);
      LoopRunsCompose(a[1..], b);
    }
  }

  /** One more chunk step adds exactly its own message and fed chunk at the end. */
  lemma StepAppends(a: seq<Step>, c: Step)
    requires NoFault(a) && c.Chunk?
    ensures Messages(a + [c]) == Messages(a) + Emitted(c)
    ensures FedChunks(a + [c]) == FedChunks(a) + Fed(c)
  {
    RunsCompose(a, [c]);
    FeedsCompose(a, [c]);
    assert [c][1..] == [];
  }

  /** The first fault ends the run: after what the faulting step did before it raised, its
      error message is the last message, and nothing after it is read, fed or delivered. */
  lemma FaultEndsRun(a: seq<Step>, f: Step, rest: seq<Step>)
    requires NoFault(a) && !f.Chunk?
    ensures Messages(a + [f] + rest) == Messages(a) + Emitted(f) + [ErrorMessage(f.reason)]
    ensures FedChunks(a + [f] + rest) == FedChunks(a) + Fed(f)
  {
    assert a + [f] + rest == a + ([f] + rest);
    RunsCompose(a, [f] + rest);
    FeedsCompose(a, [f] + rest);
  }

  /** An exception raised after the read keeps the iteration's earlier work. Raised once the
      recognizer was handed a positive read's bytes, those bytes stay fed and no message
      precedes the error. Raised in the callback, the chunk's message was delivered before the
      error as well. */
  lemma LateFaultsKeepTheirWork(a: seq<Step>, readSize: int, buffer: seq<Byte>, outcome: DecoderOutcome,
                                reason: string, rest: seq<Step>)
    requires NoFault(a) && readSize > 0
    ensures Messages(a + [FaultAfterFeed(readSize, buffer, reason)] + rest) == Messages(a) + [ErrorMessage(reason)]
    ensures FedChunks(a + [FaultAfterFeed(readSize, buffer, reason)] + rest) == FedChunks(a) + [FedBytes(readSize, buffer)]
    ensures Messages(a + [FaultAfterMessage(readSize, buffer, outcome, reason)] + rest) ==
      Messages(a) + Emitted(Chunk(readSize, buffer, outcome)) + [ErrorMessage(reason)]
    ensures FedChunks(a + [FaultAfterMessage(readSize, buffer, outcome, reason)] + rest) ==
      FedChunks(a) + [FedBytes(readSize, buffer)]
  {
    FaultEndsRun(a, FaultAfterFeed(readSize, buffer, reason), rest);
    FaultEndsRun(a, FaultAfterMessage(readSize, buffer, outcome, reason), rest);
  }

  /** The loop's step from the first i steps to the first i + 1, when step i is a chunk. */
  lemma ChunkAt(steps: seq<Step>, i: nat)
    requires i < |steps| && NoFault(steps[..i]) && steps[i].Chunk?
    ensures NoFault(steps[..i + 1])
    ensures Messages(steps[..i + 1]) == Messages(steps[..i]) + Emitted(steps[i])
    ensures FedChunks(steps[..i + 1]) == FedChunks(steps[..i]) + Fed(steps[i])
  {
    assert steps[..i + 1] == steps[..i] + [steps[i]];
    StepAppends(steps[..i], steps[i]);
    NoFaultSnoc(steps[..i], steps[i]);
  }

  /** The loop meets its first fault at step i: its iterations delivered and fed what the first
      i steps deliver and feed and what step i did before it raised, and the fault's exception
      leaves it. */
  lemma FaultAt(steps: seq<Step>, i: nat)
    requires i < |steps| && NoFault(steps[..i]) && !steps[i].Chunk?
    ensures FirstFault(steps) == Some(steps[i].reason)
    ensures LoopMessages(steps) == Messages(steps[..i]) + Emitted(steps[i])
    ensures FedChunks(steps) == FedChunks(steps[..i]) + Fed(steps[i])
  {
    var pre, rest := steps[..i], steps[i..];
    assert steps == pre + rest && rest[0] == steps[i];
    assert FedChunks(steps) == FedChunks(pre) + Fed(steps[i]) by {
      FeedsCompose(pre, rest);
    }
    assert FirstFault(steps) == Some(steps[i].reason) &&
           LoopMessages(steps) == LoopMessages(pre) + Emitted(steps[i]) by {
      LoopRunsCompose(pre, rest);
    }
    FaultFreeRun(pre);
  }

  /** Without faults the loop's own messages are the whole run's messages and no exception
      leaves it. */
  lemma {:induction false} FaultFreeRun(steps: seq<Step>)
    requires NoFault(steps)
    ensures LoopMessages(steps) == Messages(steps)
    ensures FirstFault(steps) == None
  {
    if steps != [] {
      NoFaultTail(steps);
      FaultFreeRun(steps[1..]);
    }
  }

  /** A run delivers the loop's own messages, then, if an exception left the loop, its error
      message; an exception leaves the loop exactly when some step is a fault. */
  lemma {:induction false} MessagesSplit(steps: seq<Step>)
    ensures FirstFault(steps).Some? <==> !NoFault(steps)
    ensures Messages(steps) == LoopMessages(steps) +
      (if FirstFault(steps).Some? then [ErrorMessage(FirstFault(steps).value)] else [])
  {
    if steps != [] {
      MessagesSplit(steps[1..]);
      if steps[0].Chunk? {
        assert NoFault(steps) <==> NoFault(steps[1..]) by {
          if NoFault(steps[1..]) {
            forall k | 0 <= k < |steps| ensures steps[k].Chunk? {
              if k > 0 { assert steps[k] == steps[1..][k - 1]; }
            }
          } else if NoFault(steps) {
            NoFaultTail(steps);
          }
        }
      }
    }
  }

  /** Each iteration delivers at most one message itself; a run adds at most the error
      message of its fault. */
  lemma {:induction false} AtMostOneMessagePerIteration(steps: seq<Step>)
    ensures |LoopMessages(steps)| <= |steps|
    ensures |Messages(steps)| <= |steps| + (if FirstFault(steps).Some? then 1 else 0)
  {
    if steps != [] && steps[0].Chunk? {
      AtMostOneMessagePerIteration(steps[1..]);
    }
    MessagesSplit(steps);
  }

  /** Without faults, exactly the reads of at least one byte are fed, in order: the k-th fed
      chunk is the first read-size bytes of the k-th such read's buffer. */
  lemma {:induction false} FedOncePerPositiveRead(steps: seq<Step>)
    requires NoFault(steps)
    ensures |FedChunks(steps)| == |DropIdle(steps)| <= |steps|
    ensures forall k :: 0 <= k < |DropIdle(steps)| ==>
      DropIdle(steps)[k].Chunk? && DropIdle(steps)[k].readSize > 0 &&
      FedChunks(steps)[k] == FedBytes(DropIdle(steps)[k].readSize, DropIdle(steps)[k].buffer)
  {
    if steps != [] {
      NoFaultTail(steps);
      FedOncePerPositiveRead(steps[1..]);
      if steps[0].readSize > 0 {
        var d := [steps[0]] + DropIdle(steps[1..]);
        var f := Fed(steps[0]) + FedChunks(steps[1..]);
        forall k | 0 <= k < |d|
          ensures d[k].Chunk? && d[k].readSize > 0 && f[k] == FedBytes(d[k].readSize, d[k].buffer)
        {
          if k > 0 {
            assert d[k] == DropIdle(steps[1..])[k - 1];
            assert f[k] == FedChunks(steps[1..])[k - 1];
          }
        }
      }
    }
  }

  /** Reads that returned zero or a negative code change nothing: dropping them leaves the
      delivered messages and the fed chunks as they were. */
  lemma {:induction false} IdleReadsChangeNothing(steps: seq<Step>)
    ensures Messages(DropIdle(steps)) == Messages(steps)
    ensures FedChunks(DropIdle(steps)) == FedChunks(steps)
  {
    if steps != [] {
      IdleReadsChangeNothing(steps[1..]);
      if !(steps[0].Chunk? && steps[0].readSize <= 0) {
        var d := [steps[0]] + DropIdle(steps[1..]);
        assert d[0] == steps[0];
        assert d[1..] == DropIdle(steps[1..]);
      }
    }
  }

  /** The current text after delivering `a` and then `b` is the current text after delivering
      `b` from where `a` left it. */
  lemma LastOrAppend(current: string, a: seq<string>, b: seq<string>)
    ensures LastOr(current, a + b) == LastOr(LastOr(current, a), b)
  {
    if b == [] {
      assert a + b == a;
    }
  }

  /** A missing media projection or model yields just its fixed message and never reaches the
      read loop; otherwise the capture thread delivers at most one message per step, and the
      error message of a fault. */
  lemma CaptureDeliversBoundedMessages(projectionGranted: bool, modelPresent: bool, running: bool, steps: seq<Step>)
    ensures !projectionGranted ==> CaptureMessages(projectionGranted, modelPresent, running, steps) == [ProjectionFailedText]
    ensures projectionGranted && !modelPresent ==>
      CaptureMessages(projectionGranted, modelPresent, running, steps) == [ModelMissingText]
    ensures projectionGranted && modelPresent ==>
      |CaptureMessages(projectionGranted, modelPresent, running, steps)| <=
        |steps| + (if FirstFault(steps).Some? then 1 else 0)
    ensures projectionGranted && modelPresent && !running ==>
      CaptureMessages(projectionGranted, modelPresent, running, steps) == []
  {
    AtMostOneMessagePerIteration(steps);
  }
}
