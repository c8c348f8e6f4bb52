/**
 * AudioRecorder of audio_recorder.py: the configuration fixed at startup,
 * the two control flags, the segment queue between the capture callback and
 * the save worker, and the accumulator fields current_buffer and
 * sample_count that the capture callback updates in place.
 *
 * Device input, the keyboard listener and the save thread are not part of
 * this model; their entry points (audio_callback, on_press, one pass of the
 * worker loop) are methods that the caller invokes in sequence.
 */
module Recorder {
  import opened Wrappers
  import opened Accumulator

  /** The numpy dtype that samples are recorded and written with. */
  datatype BitDepth = Int16 | Int32

  /** A pynput key event: a KeyCode, whose char (ch here) may be None, or a special
      key (Key.space, Key.esc, ...), which has no char attribute. */
  datatype Key = KeyCode(ch: Option<char>) | SpecialKey

  predicate IsStopKey(key: Key)
  {
    key == KeyCode(Some('q')) || key == KeyCode(Some('Q'))
  }

  predicate IsToggleKey(key: Key)
  {
    key == KeyCode(Some('p')) || key == KeyCode(Some('P'))
  }

  /** The command-line arguments of main after argparse's type conversion. */
  datatype Config = Config(bitDepth: string, samplingRate: int, duration: int)

  /** The ways main refuses to start. */
  datatype UsageError =
    | InvalidBitDepthChoice(given: string)  // argparse choices=['int16', 'int32']
    | NonPositiveSamplingRate               // "Sampling rate must be positive"
    | NonPositiveDuration                   // "Duration must be positive"

  /** main's validation: argparse checks the bit-depth choice, then the
      sampling rate and the duration are checked in that order. */
  function ParseArgs(bitDepth: string, samplingRate: int, duration: int): (r: Result<Config, UsageError>)
    ensures r.Success? <==> (bitDepth == "int16" || bitDepth == "int32") && samplingRate > 0 && duration > 0
    ensures r.Success? ==> r.value == Config(bitDepth, samplingRate, duration) && samplingRate * duration > 0
    ensures r.Failure? && bitDepth != "int16" && bitDepth != "int32" ==> r.error == InvalidBitDepthChoice(bitDepth)
    ensures r == Failure(NonPositiveSamplingRate) <==> (bitDepth == "int16" || bitDepth == "int32") && samplingRate <= 0
    ensures r == Failure(NonPositiveDuration) <==>
      (bitDepth == "int16" || bitDepth == "int32") && samplingRate > 0 && duration <= 0
  {
    if bitDepth != "int16" && bitDepth != "int32" then Failure(InvalidBitDepthChoice(bitDepth))
    else if samplingRate <= 0 then Failure(NonPositiveSamplingRate)
    else if duration <= 0 then Failure(NonPositiveDuration)
    else Success(Config(bitDepth, samplingRate, duration))
  }

  class AudioRecorder {
    const bitDepth: BitDepth
    const samplingRate: int
    const duration: int
    const samplesPerFile: int

    var recording: bool
    var storageEnabled: bool
    var audioQueue: seq<seq<int>>
    var currentBuffer: seq<seq<int>>
    var sampleCount: int

    /** Every frame handed to the callback so far, in arrival order. */
    ghost var captured: seq<int>
    /** Every segment the callback has cut, queued or not. */
    ghost var produced: seq<seq<int>>

    function Accumulated(): State
      reads this
    {
      State(currentBuffer, sampleCount)
    }

    /** The recorder's bookkeeping is right: the count matches the buffer,
        cut segments followed by the buffer are exactly the captured frames,
        and every queued segment is one file's worth. */
    ghost predicate Sound()
      reads this
    {
      && Accounted(Accumulated(), produced, captured)
      && (forall k :: 0 <= k < |audioQueue| ==> |audioQueue[k]| == samplesPerFile)
    }

    /** Sound, and less than one segment waiting in the buffer. */
    ghost predicate Valid()
      reads this
    {
      Sound() && sampleCount < samplesPerFile
    }

    constructor (bitDepthArg: string, samplingRate: int, duration: int)
      ensures (bitDepth == Int16) <==> bitDepthArg == "int16"
      ensures this.samplingRate == samplingRate && this.duration == duration
      ensures samplesPerFile == samplingRate * duration
      ensures recording && storageEnabled
      ensures audioQueue == [] && currentBuffer == [] && sampleCount == 0
      ensures captured == [] && produced == []
      ensures samplesPerFile > 0 ==> Valid()
    {
      bitDepth := if bitDepthArg == "int16" then Int16 else Int32;
      this.samplingRate := samplingRate;
      this.duration := duration;
      samplesPerFile := samplingRate * duration;
      recording := true;
      storageEnabled := true;
      audioQueue := [];
      currentBuffer := [];
      sampleCount := 0;
      captured := [];
      produced := [];
    }

    /** audio_callback: buffer the chunk, and once a segment's worth of frames
        is counted cut one segment, queue it if storage is enabled, and carry
        the surplus from the tail of the last chunk. */
    method AudioCallback(indata: seq<int>)
      modifies this`currentBuffer, this`sampleCount, this`audioQueue, this`captured, this`produced
      ensures var step := Callback(old(Accumulated()), samplesPerFile, indata);
        && Accumulated() == step.next
        && produced == old(produced) + Emitted(step.segment)
        && audioQueue == old(audioQueue) + (if storageEnabled then Emitted(step.segment) else [])
      ensures captured == old(captured) + indata
      ensures old(Valid()) ==> Sound()
      ensures old(Valid()) && |indata| <= samplesPerFile ==> Valid()
    {
      ghost var before := Accumulated();
      currentBuffer := currentBuffer + [indata];
      sampleCount := sampleCount + |indata|;
      captured := captured + indata;
      if sampleCount >= samplesPerFile {
        var audioData := PyPrefix(Flatten(currentBuffer), samplesPerFile);
        if storageEnabled {
          audioQueue := audioQueue + [audioData];
        }
        produced := produced + [audioData];
        var remainingSamples := sampleCount - samplesPerFile;
        if remainingSamples > 0 {
          currentBuffer := [PyTail(currentBuffer[|currentBuffer| - 1], remainingSamples)];
          sampleCount := remainingSamples;
        } else {
          currentBuffer := [];
          sampleCount := 0;
        }
      }
      assert Accumulated() == Callback(before, samplesPerFile, indata).next;
      if old(Valid()) {
        CallbackKeepsAccount(before, samplesPerFile, indata, old(produced), old(captured));
        SegmentIsExact(before, samplesPerFile, indata);
        if |indata| <= samplesPerFile {
          PartialPreserved(before, samplesPerFile, indata);
        }
      }
    }

    /** audio_queue.get(timeout=0.5): the oldest queued segment, or None
        (queue.Empty) when nothing is queued. */
    method Get() returns (item: Option<seq<int>>)
      modifies this`audioQueue
      ensures old(audioQueue) == [] ==> item == None && audioQueue == []
      ensures old(audioQueue) != [] ==> item == Some(old(audioQueue)[0]) && audioQueue == old(audioQueue)[1..]
      ensures old(Valid()) ==> Valid()
    {
      if audioQueue == [] {
        item := None;
      } else {
        item := Some(audioQueue[0]);
        audioQueue := audioQueue[1..];
      }
    }

    /** save_audio_worker from the moment recording is false: it keeps
        taking segments, one per pass and oldest first, until the queue is
        empty, and returns them in the order they are written to files. */
    method SaveAudioWorker() returns (written: seq<seq<int>>)
      requires !recording
      modifies this`audioQueue
      ensures written == old(audioQueue)
      ensures !recording && audioQueue == []
      ensures old(Valid()) ==> Valid() && forall k :: 0 <= k < |written| ==> |written[k]| == samplesPerFile
    {
      written := [];
      while recording || audioQueue != []
        invariant !recording
        invariant written + audioQueue == old(audioQueue)
        invariant old(Valid()) ==> Valid()
        decreases |audioQueue|
      {
        var audioData := Get();
        if audioData.Some? {
          written := written + [audioData.value];
        }
      }
    }

    /** on_press: q or Q clears recording and stops the listener; p or P
        flips storage_enabled; any other key changes nothing. */
    method OnPress(key: Key) returns (stopListener: bool)
      modifies this`recording, this`storageEnabled
      ensures IsStopKey(key) ==> !recording && storageEnabled == old(storageEnabled) && stopListener
      ensures IsToggleKey(key) ==> storageEnabled == !old(storageEnabled) && recording == old(recording) && !stopListener
      ensures !IsStopKey(key) && !IsToggleKey(key) ==>
        recording == old(recording) && storageEnabled == old(storageEnabled) && !stopListener
    {
      stopListener := false;
      if key.KeyCode? {
        if key.ch == Some('q') || key.ch == Some('Q') {
          recording := false;
          stopListener := true;
        } else if key.ch == Some('p') || key.ch == Some('P') {
          storageEnabled := !storageEnabled;
        }
      }
    }
  }

  /** main: validate the arguments and only then create the recorder. */
  method Start(bitDepth: string, samplingRate: int, duration: int) returns (r: Result<AudioRecorder, UsageError>)
    ensures r.Success? <==> (bitDepth == "int16" || bitDepth == "int32") && samplingRate > 0 && duration > 0
    ensures r.Failure? ==> r == Failure(ParseArgs(bitDepth, samplingRate, duration).error)
    ensures r.Success? ==>
      && fresh(r.value) && r.value.Valid()
      && (r.value.bitDepth == Int16 <==> bitDepth == "int16")
      && r.value.samplesPerFile == samplingRate * duration > 0
      && r.value.recording && r.value.storageEnabled && r.value.audioQueue == []
  {
    var config := ParseArgs(bitDepth, samplingRate, duration);
    if config.Failure? {
      return Failure(config.error);
    }
    var recorder := new AudioRecorder(bitDepth, samplingRate, duration);
    r := Success(recorder);
  }

  /** Pressing the toggle key twice restores storage_enabled. */
  method ToggleTwice(recorder: AudioRecorder)
    modifies recorder
    ensures recorder.storageEnabled == old(recorder.storageEnabled)
    ensures recorder.recording == old(recorder.recording)
  {
    var first := recorder.OnPress(KeyCode(Some('p')));
    var second := recorder.OnPress(KeyCode(Some('P')));
  }

  /** At 16000 Hz, one second per file and 16-bit samples, one chunk of
      16000 frames followed by q yields exactly one file holding that chunk. */
  method OneSecondRecording(chunk: seq<int>) returns (written: seq<seq<int>>)
    requires |chunk| == 16000
    ensures written == [chunk]
  {
    var recorder := new AudioRecorder("int16", 16000, 1);
    assert recorder.bitDepth == Int16 && recorder.samplesPerFile == 16000;
    FlattenSingle(chunk);
    assert [] + [chunk] == [chunk];
    recorder.AudioCallback(chunk);
    assert recorder.audioQueue == [chunk];
    var stop := recorder.OnPress(KeyCode(Some('q')));
    written := recorder.SaveAudioWorker();
  }
}
