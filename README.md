# Audio recorder and Mini Speech Commands dataset, modelled in Dafny

This project models two parts of a small embedded-audio repository.

- `audio_recorder.py` is a recorder. A sound-device callback gathers
  microphone chunks into fixed-length segments, one file's worth each
  (`samples_per_file = sampling_rate * duration`). A worker thread takes the
  queued segments and writes them out as WAV files. Key presses control it:
  `q` stops recording and `p` turns storage on and off. `main` checks the
  command-line arguments before anything starts.
- `Lab4/msc_dataset_lab4.py` and `HW2/msc_dataset.py` are two versions of
  `MSCDataset`, a PyTorch dataset over Mini Speech Commands WAV files. Each
  picks a data folder for the split and keeps the files whose name starts
  with one of the classes. It maps labels to class indices and frames every
  waveform to 16000 samples.

Files:

- `wrappers.dfy` holds `Option` and `Result`.
- `accumulator.dfy` covers `current_buffer` and `sample_count`:
  - `Callback` is one call of `audio_callback` as written, a pure step on the
    value `State(buffer, count)`.
  - `Feed` runs callbacks over a list of chunks.
  - The invariants the callback keeps are proved as lemmas, together with
    where they break.
  - `CorrectedCallback` and `CorrectedFeed` are the corrected accumulator.
  - Further lemmas relate the as-written and corrected versions.
- `recorder.dfy` holds the class `AudioRecorder`.
  - Its fields are the source's fields. The queue and the buffer are `seq`
    fields that the methods reassign.
  - Two ghost fields record every frame captured and every segment cut.
  - `Valid()` states the bookkeeping invariant.
  - Also here are `main`'s validation (`ParseArgs`, `Start`) and two client
    scenarios.
- `speech_commands.dfy` holds the code the two dataset files share line for
  line:
  - the label map and `label_to_int`;
  - the file-name filter and the collection loop;
  - `__len__` and `__getitem__`, including the pad/crop to 16000.

  The file system is a snapshot value: the set of existing paths, plus each
  directory's `os.listdir` result. The audio loader is a function parameter.
- `lab4_dataset.dfy` and `hw2_dataset.dfy` hold what differs between the two
  versions: the split-to-folder names, the folder choice, and the
  missing-folder handling of each `__init__`.

The `__len__` of both dataset files (`Lab4/msc_dataset_lab4.py:94-98`,
`HW2/msc_dataset.py:62-66`) is `SpeechCommands.Len`; each `Load` states its
value. The HW2 lines 20, 47-52, 78-83 and 95-100 are the same code as Lab4
lines 25, 70-75, 116-123 and 137-144. The `SpeechCommands` members below
model them.

Behaviour of the source worth knowing, which the model follows:

- A write failure is not handled. The worker catches only `queue.Empty`, so
  a failed `wavfile.write` ends the worker thread, and `audio_queue.join()`
  then waits for ever.
- The comment "Reset buffer, keeping any extra samples"
  (audio_recorder.py:62) shows the intent: an input of `k` segments plus `r`
  frames gives exactly `k` segments, whatever the chunk sizes. The code keeps
  this whenever no chunk is longer than a segment
  (`Accumulator.StreamSegmentCount`). Frames are lost once a callback leaves
  more than one segment counted, that is buffered frames plus the chunk
  exceed two segments, and another callback follows (see Findings).
- The source sets no exit codes of its own. argparse's `parser.error` exits
  with status 2. An exception from the audio stream (audio_recorder.py:122)
  propagates after the `finally` block (136-145) and ends the process with
  status 1.

## Model

| member | source | states |
|---|---|---|
| Accumulator.CallbackShape | audio_recorder.py:46-69 | a segment is cut exactly when the count reaches samples_per_file; at most one per call; below the threshold the chunk is only appended; after a cut the count is the surplus and the buffer is empty exactly when the surplus is zero |
| Accumulator.SegmentIsExact | audio_recorder.py:51-56 | a cut segment has exactly samples_per_file frames: the first ones of the buffered frames followed by the chunk |
| Accumulator.CallbackConserves | audio_recorder.py:46-69 | if at most one segment was buffered, the count keeps matching the buffer and the frames are conserved: segment followed by buffer equals old buffer followed by chunk |
| Accumulator.CallbackKeepsAccount | audio_recorder.py:46-69 | cut segments followed by the buffer stay equal to all frames captured so far |
| Accumulator.PartialPreserved | audio_recorder.py:46-69 | with chunks no longer than a segment, fewer than samples_per_file frames stay buffered after each call |
| Accumulator.CarryReachesSegment | audio_recorder.py:62-66 | the carried count reaches a whole segment if and only if buffer plus chunk reach two segments |
| Accumulator.OvercountDropsFrames | audio_recorder.py:62-66 | once the count exceeds a segment, the next call keeps only the new chunk and counts st.count - samples_per_file frames it no longer holds |
| Accumulator.FeedConserves | audio_recorder.py:41-69 | over any run of chunks no longer than a segment: every segment has samples_per_file frames, and segments plus leftover equal the input in order, with no loss or duplication |
| Accumulator.LostAndShortSegment | audio_recorder.py:51-66 | with 3 frames per file, chunks of 7, 1 and 1 frames give segments [0,1,2], [3,4,5], [7,8]: frame 6 is lost and the last segment is short |
| Accumulator.Chop | audio_recorder.py:51-66 | cutting the buffered frames gives whole segments plus a remainder shorter than one segment that together rebuild the input |
| Accumulator.CorrectedCallback | audio_recorder.py:46-69 | the corrected callback cuts every whole segment and keeps fewer than samples_per_file frames, conserving the frames |
| Accumulator.CorrectedFeedConserves | audio_recorder.py:41-69 | the corrected accumulator conserves the frames in order for any chunk sizes, and every segment has samples_per_file frames |
| Accumulator.FeedAgreesWithCorrected | audio_recorder.py:46-69 | while no chunk is longer than a segment, the callback as written cuts the same segments as the corrected one and buffers the same frames |
| Accumulator.StreamSegmentCount | audio_recorder.py:41-69 | an input of k segments plus r frames gives exactly k segments of samples_per_file frames and r leftover frames, in order; the callback as written agrees when no chunk is longer than a segment |
| Recorder.ParseArgs | audio_recorder.py:160-189 | the arguments are accepted iff bit depth is int16 or int32 and rate and duration are positive; errors in argparse-then-rate-then-duration order; samples per file is then positive |
| Recorder.Start | audio_recorder.py:182-192 | a recorder is created only from valid arguments, starts recording with storage on, an empty queue and Valid(); otherwise the usage error |
| Recorder.AudioRecorder.constructor | audio_recorder.py:12-26 | dtype int16 iff the argument is "int16", samples_per_file = rate * duration, both flags on, empty queue and buffer, zero count |
| Recorder.AudioRecorder.AudioCallback | audio_recorder.py:41-69 | the buffer and count step as Callback; a cut segment is queued only while storage is enabled; the bookkeeping invariant is kept and, for chunks no longer than a segment, so is Valid() |
| Recorder.AudioRecorder.Get | audio_recorder.py:74-76 | the oldest queued segment is removed and returned, or None when the queue is empty |
| Recorder.AudioRecorder.SaveAudioWorker | audio_recorder.py:71-93 | after recording stops, the worker writes every queued segment, oldest first, and ends with the queue empty; each has samples_per_file frames |
| Recorder.AudioRecorder.OnPress | audio_recorder.py:95-108 | q/Q clears recording and stops the listener; p/P flips storage; every other key, or a key without a char, changes nothing |
| Recorder.ToggleTwice | audio_recorder.py:103-104 | pressing the toggle key twice restores storage_enabled and leaves recording unchanged |
| Recorder.OneSecondRecording | audio_recorder.py:41-93 | at 16000 Hz, 1 s and int16, a 16000-frame chunk followed by q gives exactly one written segment, that chunk |
| SpeechCommands.IndexMap | Lab4/msc_dataset_lab4.py:25 | the label map's keys are exactly the classes, and each label maps to a position holding that label |
| SpeechCommands.IndexMapIsLastOccurrence | Lab4/msc_dataset_lab4.py:25 | a repeated label maps to its last position in classes |
| SpeechCommands.IndexMapOfDistinct | Lab4/msc_dataset_lab4.py:25 | for distinct classes, label_to_idx[classes[i]] == i |
| SpeechCommands.LabelPrefixIsFirstField | Lab4/msc_dataset_lab4.py:72 | split('_')[0] is the longest start of the name with no underscore: the whole name, or the part before the first underscore |
| SpeechCommands.SelectedKeepsQualifying | Lab4/msc_dataset_lab4.py:70-75 | exactly the .wav names whose label is a class are kept, each as often as it is listed |
| SpeechCommands.CollectSamples | Lab4/msc_dataset_lab4.py:70-75 | one sample per kept name, in listing order, with the joined path and the prefix label; every label is a class |
| SpeechCommands.PadOrCrop | Lab4/msc_dataset_lab4.py:115-123 | the result has 16000 frames: a short waveform is kept and zero-padded at its end, a long one is cut to its first 16000 frames |
| SpeechCommands.PadOrCropIdempotent | Lab4/msc_dataset_lab4.py:115-123 | framing a framed waveform changes nothing |
| SpeechCommands.GetItem | Lab4/msc_dataset_lab4.py:100-135 | succeeds iff -len <= idx < len (IndexError otherwise); x is the framed waveform of the sample's file; y is a class index whose class is the sample's label and equals label_to_int |
| SpeechCommands.LabelToInt | Lab4/msc_dataset_lab4.py:137-144 | -1 iff the label is not a class; otherwise a position of that label in classes, namely its last one |
| Lab4Dataset.FirstExisting | Lab4/msc_dataset_lab4.py:51-58 | the first existing candidate, or the fallback when none exists |
| Lab4Dataset.DataFolder | Lab4/msc_dataset_lab4.py:38-60 | for a known split, the first existing of /tmp/m, root/tmp/m and root/m, else root; for any other split, root |
| Lab4Dataset.Load | Lab4/msc_dataset_lab4.py:20-85 | fails iff the folder listed (the data folder if it is a directory, else root) is not a directory, with os.listdir's error; on success the samples are the qualifying names of that folder in listing order, and the label map comes from classes |
| Accumulator.Flatten | audio_recorder.py:53 | np.concatenate of the buffered chunks along the frame axis; it only computes, and FlattenConcat states its property |
| Accumulator.FlattenConcat | audio_recorder.py:53 | concatenating two lists of chunks concatenates their frames |
| Accumulator.PyPrefix | audio_recorder.py:56 | Python's s[:stop]: a prefix of s; of length stop when 0 <= stop <= len(s), all of s above that, len(s) + stop for a negative stop down to -len(s), empty below |
| Accumulator.PyTail | audio_recorder.py:65 | Python's s[-n:] for n > 0: the suffix of s of length min(n, len(s)) |
| Accumulator.Callback | audio_recorder.py:46-69 | one call of audio_callback as written on (current_buffer, sample_count); it only computes, and CallbackShape, SegmentIsExact, CallbackConserves and OvercountDropsFrames state its behaviour |
| Accumulator.Feed | audio_recorder.py:41-69 | successive callbacks over a list of chunks cut at most one segment per chunk; FeedConserves states conservation |
| SpeechCommands.FileSystem.ListDir | Lab4/msc_dataset_lab4.py:70 | os.listdir succeeds iff the path is a directory, and otherwise fails with NotADirectory or FileNotFound |
| SpeechCommands.Join | Lab4/msc_dataset_lab4.py:74 | posixpath.join: the result ends with the second component; an absolute second component replaces the first, otherwise the first is a prefix of the result |
| SpeechCommands.EndsWithWav | Lab4/msc_dataset_lab4.py:71 | filename.endswith('.wav'); a predicate without a contract |
| SpeechCommands.LabelPrefix | Lab4/msc_dataset_lab4.py:72 | filename.split('_')[0]; it only computes, and LabelPrefixIsFirstField states its meaning |
| SpeechCommands.Selected | Lab4/msc_dataset_lab4.py:70-75 | the names the loop keeps, in listing order; it only computes, SelectedKeepsQualifying states which names, and CollectSamples is proved to follow it |
| SpeechCommands.Len | Lab4/msc_dataset_lab4.py:94-98 | __len__, the number of samples; each Load states its value |
| Lab4Dataset.Candidates | Lab4/msc_dataset_lab4.py:41-43 | three candidate folders in the order they are tried, each ending with the split's folder name |
| Lab4Dataset.ListedFolder | Lab4/msc_dataset_lab4.py:68-83 | the folder listed: the data folder when it is a directory, root otherwise |
| Hw2Dataset.DataFolder | HW2/msc_dataset.py:31-40 | root for an unknown split; for a known split a path that starts with root and ends with the split's folder name |
| Hw2Dataset.Load | HW2/msc_dataset.py:12-54 | FileNotFoundError iff the split is known and root/m does not exist; otherwise the samples are the qualifying names of the data folder, or none when it is not a directory |

## Left out

- The sound device, the keyboard listener and the threads are left out.
  `start_recording` (audio_recorder.py:110-145) starts all three and polls
  `sd.sleep`.
  - Their entry points are methods the caller invokes in sequence.
  - Interleavings between the capture callback and the worker are not
    modelled.
  - Neither is `queue.join`, `task_done` nor the join timeout.
- The callback's `status` report, its unused `frames` and `time_info` arguments, and all `print` output are left out as I/O.
- Timestamped file names, `wavfile.write`, `os.path.getsize` and the size report are I/O. The worker's writes are modelled as the sequence of segments it returns.
- Recorder.AudioRecorder.SaveAudioWorker: modelled only from the point `recording` is false. Before that the loop waits on the capture thread, which a sequential model cannot interleave.
- A `wavfile.write` exception ending the worker thread is not modelled: the model has no write failures.
- Recorder.AudioRecorder.SaveAudioWorker: samples are unbounded integers. The cast to `int16`/`int32` by `astype` when writing (audio_recorder.py:83) is not modelled.
- `KeyboardInterrupt` handling and argparse's own errors for a missing or non-integer argument are framework behaviour: only the choice check is modelled.
- Waveforms are single-channel sequences of reals. Multi-channel tensors, `torchaudio.load` and `sf.read` are not modelled: the loader is a function parameter.
- `Load` keeps the `split='training'` default of `__init__`. It takes the file-system snapshot as an extra first argument.
- `preprocess`, `_download` and the `download` flag are not modelled: they are user callbacks and a placeholder.
- Paths are plain strings joined as posixpath does: no normalisation and no symlinks.
- SpeechCommands.GetItem: requires a dataset as `__init__` builds it (`Valid`). The `KeyError` for a label missing from `label_to_idx` only arises after `self.samples` is edited by hand, and is not modelled.

## Findings

| source | as written | input that shows it | evidently intended | confidence | as-written member | corrected member |
|---|---|---|---|---|---|---|
| audio_recorder.py:51-66 | a callback cuts at most one segment and carries the surplus only from the last chunk. Once buffered frames plus a chunk exceed two segments, the count runs ahead of the buffer, and the next callback loses frames | samples_per_file = 3, chunks of 7, 1 and 1 frames: segments [0,1,2], [3,4,5], [7,8]; frame 6 is lost and the last segment has 2 frames | every whole segment is cut and the remainder of all buffered frames is carried, so segments plus leftover equal the input | medium, not executed | Accumulator.LostAndShortSegment | Accumulator.CorrectedFeedConserves |

`Recorder.AudioRecorder.AudioCallback` keeps the callback as written, since
it models the source's class. `Accumulator.FeedAgreesWithCorrected` shows
that it coincides with the corrected accumulator whenever every chunk is at
most one segment long. That is also a case in which `Valid()` is preserved.
