/** The background transcription service (service.py): its lifecycle flags, the capture thread's
    read loop, result dispatch to the registered callback, and the process-wide singleton.

    The Android host (notification channel, foreground service), the audio record and the
    recognizer are outside the model: the capture thread's run is given whether a media
    projection was obtained, whether the model directory exists, and the loop's iterations. */
module Service {
  import opened Capture

  const WaitingText: string := "Waiting for audio..."

  /** The opaque intent data the media-projection grant hands back. */
  datatype Token = Token(id: int)

  class TranscriptionService {
    var projectionCode: int
    var projectionData: Option<Token>
    /** A transcription callback is registered. */
    var hasCallback: bool
    var running: bool
    /** An audio record is held (`audio_record` is not None). */
    var audioRecord: bool
    /** A recognizer has been created. */
    var hasTranscriber: bool
    var currentText: string
    /** Every message handed to the callback, oldest first. */
    var delivered: seq<string>
    /** Every chunk handed to the recognizer, oldest first. */
    var fed: seq<seq<Byte>>
    /** Capture threads started so far. */
    var captureThreads: nat
    /** Audio records built and released so far. */
    var recordsBuilt: nat
    var recordsReleased: nat

    /** The state of a service that has just been constructed. */
    predicate IsNew()
      reads this
    {
      projectionCode == -1 && projectionData == None && !hasCallback && !running &&
      !audioRecord && !hasTranscriber && currentText == WaitingText &&
      delivered == [] && fed == [] && captureThreads == 0 && recordsBuilt == 0 && recordsReleased == 0
    }

    constructor ()
      ensures IsNew()
    {
      projectionCode := -1;
      projectionData := None;
      hasCallback := false;
      running := false;
      audioRecord := false;
      hasTranscriber := false;
      currentText := WaitingText;
      delivered := [];
      fed := [];
      captureThreads := 0;
      recordsBuilt := 0;
      recordsReleased := 0;
    }

    /** Stores the projection grant and the callback, raises `running` and starts one more
        capture thread, whether or not the service was already running. */
    method Start(code: int, data: Option<Token>, callback: bool)
      modifies this`projectionCode, this`projectionData, this`hasCallback, this`running, this`captureThreads
      ensures projectionCode == code && projectionData == data && hasCallback == callback
      ensures running && captureThreads == old(captureThreads) + 1
    {
      projectionCode := code;
      projectionData := data;
      hasCallback := callback;
      running := true;
      captureThreads := captureThreads + 1;
    }

    /** Lowers `running` and releases the audio record if one is held. A second stop changes
        nothing. */
    method Stop()
      modifies this`running, this`audioRecord, this`recordsReleased
      ensures !running && !audioRecord
      ensures recordsReleased == old(recordsReleased) + (if old(audioRecord) then 1 else 0)
      ensures old(!running && !audioRecord) ==> unchanged(this)
    {
      running := false;
      if audioRecord {
        recordsReleased := recordsReleased + 1;
        audioRecord := false;
      }
    }

    /** Records `text` as the current text and hands it to the callback when one is registered. */
    method UpdateTranscription(text: string)
      modifies this`currentText, this`delivered
      ensures currentText == text
      ensures delivered == old(delivered) + (if hasCallback then [text] else [])
    {
      currentText := text;
      if hasCallback {
        delivered := delivered + [text];
      }
    }

    /** One capture thread's run. Without a media projection or a model it delivers one fixed
        message and returns. Otherwise it builds a recognizer and an audio record and runs the
        read loop while `running` holds: `steps` are the loop's iterations until stop() clears
        the flag. A fault delivers its error message and leaves the loop at once, skipping the
        release of the audio record; a loop that ends because `running` fell releases it. */
    method CaptureAudio(projectionGranted: bool, modelPresent: bool, steps: seq<Step>)
      modifies this`currentText, this`delivered, this`fed, this`running, this`audioRecord
      modifies this`hasTranscriber, this`recordsBuilt, this`recordsReleased
      ensures var msgs := CaptureMessages(projectionGranted, modelPresent, old(running), steps);
        currentText == LastOr(old(currentText), msgs) &&
        delivered == old(delivered) + (if hasCallback then msgs else [])
      ensures fed == old(fed) + (if projectionGranted && modelPresent && old(running) then FedChunks(steps) else [])
      ensures running == (old(running) && (!projectionGranted || !modelPresent || !NoFault(steps)))
      ensures audioRecord == if projectionGranted && modelPresent then old(running) && !NoFault(steps)
                             else old(audioRecord)
      ensures recordsBuilt == old(recordsBuilt) + (if projectionGranted && modelPresent then 1 else 0)
      ensures recordsReleased == old(recordsReleased) +
        (if projectionGranted && modelPresent && (!old(running) || NoFault(steps)) then 1 else 0)
      ensures hasTranscriber == (old(hasTranscriber) || (projectionGranted && modelPresent))
    {
      if !projectionGranted {
        UpdateTranscription(ProjectionFailedText);
        return;
      }
      if !modelPresent {
        UpdateTranscription(ModelMissingText);
        return;
      }
      CaptureWithModel(steps);
    }

    /** The part of the capture thread after the media projection and the model were found:
        build the recognizer and the audio record, run the read loop, then release the record,
        unless an exception from the loop skips the clean-up and delivers its error instead. */
    method CaptureWithModel(steps: seq<Step>)
      modifies this`currentText, this`delivered, this`fed, this`running, this`audioRecord
      modifies this`hasTranscriber, this`recordsBuilt, this`recordsReleased
      ensures var msgs := if old(running) then Messages(steps) else [];
        currentText == LastOr(old(currentText), msgs) &&
        delivered == old(delivered) + (if hasCallback then msgs else [])
      ensures fed == old(fed) + (if old(running) then FedChunks(steps) else [])
      ensures running == (old(running) && !NoFault(steps))
      ensures audioRecord == (old(running) && !NoFault(steps)) && hasTranscriber
      ensures recordsBuilt == old(recordsBuilt) + 1
      ensures recordsReleased == old(recordsReleased) + (if !old(running) || NoFault(steps) then 1 else 0)
    {
      hasTranscriber := true;
      recordsBuilt := recordsBuilt + 1;
      audioRecord := true;
      MessagesSplit(steps);
      var raised := ReadLoop(steps);
      if raised.Some? {
        // the exception leaves the try block, skipping the clean-up below
        UpdateTranscription(ErrorMessage(raised.value));
        LastOrAppend(old(currentText), LoopMessages(steps), [ErrorMessage(raised.value)]);
        return;
      }
      if audioRecord {
        recordsReleased := recordsReleased + 1;
        audioRecord := false;
      }
    }

    /** The `while running` read loop of the capture thread. It delivers the messages of the
        chunks before the first fault and returns that fault's reason, if it met one. */
    method ReadLoop(steps: seq<Step>) returns (raised: Option<string>)
      modifies this`currentText, this`delivered, this`fed, this`running
      ensures old(running) ==> raised == FirstFault(steps) && fed == old(fed) + FedChunks(steps)
      ensures old(running) ==> currentText == LastOr(old(currentText), LoopMessages(steps))
      ensures old(running) ==> delivered == old(delivered) + (if hasCallback then LoopMessages(steps) else [])
      ensures !old(running) ==> raised == None && fed == old(fed)
      ensures !old(running) ==> currentText == old(currentText) && delivered == old(delivered)
      ensures running == (old(running) && FirstFault(steps).Some?)
    {
      raised := None;
      var i := 0;
      while running
        invariant 0 <= i <= |steps|
        invariant NoFault(steps[..i])
        invariant !old(running) ==> i == 0 && !running
        invariant !running ==> !old(running) || i == |steps|
        invariant currentText == LastOr(old(currentText), Messages(steps[..i]))
        invariant hasCallback ==> delivered == old(delivered) + Messages(steps[..i])
        invariant !hasCallback ==> delivered == old(delivered)
        invariant fed == old(fed) + FedChunks(steps[..i])
        decreases |steps| - i, if running then 1 else 0
      {
        if i == |steps| {
          // stop(), called from the other thread, clears the flag the loop tests
          running := false;
        } else {
          var step := steps[i];
          ghost var done := Messages(steps[..i]);
          ghost var fedSoFar := FedChunks(steps[..i]);
          RunIteration(step);
          LastOrAppend(old(currentText), done, Emitted(step));
          assert hasCallback ==> delivered == old(delivered) + (done + Emitted(step));
          assert fed == old(fed) + (fedSoFar + Fed(step));
          if step.Chunk? {
            ChunkAt(steps, i);
            assert fed == old(fed) + FedChunks(steps[..i + 1]);
            assert hasCallback ==> delivered == old(delivered) + Messages(steps[..i + 1]);
            i := i + 1;
          } else {
            FaultAt(steps, i);
            raised := Some(step.reason);
            return;
          }
        }
      }
      if old(running) {
        assert steps[..i] == steps;
        FaultFreeRun(steps);
      }
    }

    /** One iteration's work up to the point where it raises, if it does: feeds the read's bytes
        when it read any and delivers the chunk's message, if there is one. */
    method RunIteration(step: Step)
      modifies this`fed, this`currentText, this`delivered
      ensures fed == old(fed) + Fed(step)
      ensures currentText == LastOr(old(currentText), Emitted(step))
      ensures delivered == old(delivered) + (if hasCallback then Emitted(step) else [])
    {
      if !step.Fault? && step.readSize > 0 {
        fed := fed + [FedBytes(step.readSize, step.buffer)];
        if !step.FaultAfterFeed? {
          var m := ChunkMessage(step.readSize, step.outcome);
          if m.Some? {
            UpdateTranscription(m.value);
          }
        }
      }
    }
  }

  /** Holds the class attribute `TranscriptionService._instance`. */
  class ServiceHost {
    var instance: TranscriptionService?

    constructor ()
      ensures instance == null
    {
      instance := null;
    }

    /** Creates the service only when none exists; returns the same object on every call. */
    method GetInstance() returns (s: TranscriptionService)
      modifies this
      ensures instance == s
      ensures old(instance) != null ==> s == old(instance)
      ensures old(instance) == null ==> fresh(s) && s.IsNew()
    {
      if instance == null {
        instance := new TranscriptionService();
      }
      s := instance;
    }

    /** `start_service`: starts the singleton with the grant and the callback and returns it. */
    method StartService(code: int, data: Option<Token>, callback: bool) returns (s: TranscriptionService)
      modifies this, instance
      ensures instance == s
      ensures old(instance) != null ==> s == old(instance)
      ensures old(instance) == null ==> fresh(s)
      ensures s.projectionCode == code && s.projectionData == data && s.hasCallback == callback && s.running
      ensures s.captureThreads == (if old(instance) == null then 0 else old(instance.captureThreads)) + 1
      ensures old(instance) != null ==>
        s.audioRecord == old(instance.audioRecord) && s.hasTranscriber == old(instance.hasTranscriber) &&
        s.currentText == old(instance.currentText) && s.delivered == old(instance.delivered) &&
        s.fed == old(instance.fed) && s.recordsBuilt == old(instance.recordsBuilt) &&
        s.recordsReleased == old(instance.recordsReleased)
      ensures old(instance) == null ==>
        !s.audioRecord && !s.hasTranscriber && s.currentText == WaitingText && s.delivered == [] &&
        s.fed == [] && s.recordsBuilt == 0 && s.recordsReleased == 0
    {
      s := GetInstance();
      s.Start(code, data, callback);
    }

    /** `stop_service`: stops the singleton, creating it first if none exists. */
    method StopService()
      modifies this, instance
      ensures instance != null && (old(instance) != null ==> instance == old(instance))
      ensures !instance.running && !instance.audioRecord
      ensures old(instance) == null ==> fresh(instance) && instance.IsNew()
      ensures old(instance) != null ==>
        instance.projectionCode == old(instance.projectionCode) &&
        instance.projectionData == old(instance.projectionData) &&
        instance.hasCallback == old(instance.hasCallback) &&
        instance.captureThreads == old(instance.captureThreads) &&
        instance.hasTranscriber == old(instance.hasTranscriber) &&
        instance.currentText == old(instance.currentText) && instance.delivered == old(instance.delivered) &&
        instance.fed == old(instance.fed) && instance.recordsBuilt == old(instance.recordsBuilt)
      ensures instance.recordsReleased ==
        if old(instance) == null then 0
        else old(instance.recordsReleased) + (if old(instance.audioRecord) then 1 else 0)
    {
      var s := GetInstance();
      s.Stop();
    }
  }
}
