/**
 * The segment accumulator of audio_recorder.py: the part of
 * AudioRecorder.audio_callback that appends an incoming chunk of frames to
 * the buffer, cuts one segment of samples_per_file frames once enough frames
 * are counted, and carries the leftover from the last chunk.
 *
 * The callback is stated here as a function of the accumulator state; the
 * class in module Recorder runs it in place and is proved equal to it.
 */
module Accumulator {
  import opened Wrappers

  /** np.concatenate of a list of mono chunks along the frame axis. */
  function Flatten(chunks: seq<seq<int>>): seq<int>
    decreases |chunks|
  {
    if chunks == [] then [] else chunks[0] + Flatten(chunks[1..])
  }

  lemma {:induction false} FlattenConcat(a: seq<seq<int>>, b: seq<seq<int>>)
    ensures Flatten(a + b) == Flatten(a) + Flatten(b)
    decreases |a|
  {
    if a == [] {
      assert a + b == b;
    } else {
      assert (a + b)[0] == a[0];
      assert (a + b)[1..] == a[1..] + b;
      FlattenConcat(a[1..], b);
    }
  }

  lemma FlattenSnoc(a: seq<seq<int>>, c: seq<int>)
    ensures Flatten(a + [c]) == Flatten(a) + c
  {
    FlattenConcat(a, [c]);
    assert [c][1..] == [];
  }

  lemma FlattenSingle(c: seq<int>)
    ensures Flatten([c]) == c
  {
    assert [c][1..] == [];
  }

  lemma FlattenCons(x: seq<int>, a: seq<seq<int>>)
    ensures Flatten([x] + a) == x + Flatten(a)
  {
    assert ([x] + a)[0] == x;
    assert ([x] + a)[1..] == a;
  }

  /** The regrouping step shared by the conservation proofs. */
  lemma Regroup(e: seq<int>, r: seq<int>, f: seq<int>, b: seq<int>, p: seq<int>, c: seq<int>, t: seq<int>)
    requires e + b == p + c && r + f == b + t
    ensures (e + r) + f == p + (c + t)
  {
    calc {
      (e + r) + f;
      e + (r + f);
      e + (b + t);
      (e + b) + t;
      (p + c) + t;
    }
  }

  /** Python's s[:stop], including a negative or oversized stop. */
  function PyPrefix<T>(s: seq<T>, stop: int): (r: seq<T>)
    ensures r <= s
    ensures 0 <= stop <= |s| ==> |r| == stop
    ensures stop > |s| ==> r == s
    ensures -|s| <= stop < 0 ==> |r| == |s| + stop
    ensures stop < -|s| ==> r == []
  {
    if stop >= 0 then s[..if stop <= |s| then stop else |s|]
    else s[..if |s| + stop >= 0 then |s| + stop else 0]
  }

  /** Python's s[-n:] for a positive n: the last n elements, or all of s. */
  function PyTail<T>(s: seq<T>, n: int): (r: seq<T>)
    requires n > 0
    ensures |r| == if n <= |s| then n else |s|
    ensures s == s[..|s| - |r|] + r
  {
    s[if n <= |s| then |s| - n else 0..]
  }

  /** current_buffer (a list of chunks) and sample_count. */
  datatype State = State(buffer: seq<seq<int>>, count: int)

  /** The state after one callback, and the segment it cut, if any. */
  datatype Step = Step(next: State, segment: Option<seq<int>>)

  /** The segments of a run of callbacks, and the state they leave. */
  datatype Run = Run(final: State, segments: seq<seq<int>>)

  function Emitted(segment: Option<seq<int>>): seq<seq<int>>
  {
    if segment.Some? then [segment.value] else []
  }

  /** audio_callback as written: at most one segment per call, and the
      leftover is taken from the tail of the last chunk only. */
  function Callback(st: State, samplesPerFile: int, chunk: seq<int>): Step
  {
    var buffer := st.buffer + [chunk];
    var count := st.count + |chunk|;
    if count >= samplesPerFile then
      var segment := PyPrefix(Flatten(buffer), samplesPerFile);
      var remaining := count - samplesPerFile;
      if remaining > 0 then
        Step(State([PyTail(buffer[|buffer| - 1], remaining)], remaining), Some(segment))
      else
        Step(State([], 0), Some(segment))
    else
      Step(State(buffer, count), None)
  }

  /** sample_count is the number of buffered frames. */
  ghost predicate Tracks(st: State)
  {
    st.count == |Flatten(st.buffer)|
  }

  /** The accumulator invariant: fewer buffered frames than one segment. */
  ghost predicate Partial(st: State, samplesPerFile: int)
  {
    Tracks(st) && st.count < samplesPerFile
  }

  /** The two branches of the callback: below the threshold the chunk is
      only appended; at or above it exactly one segment is cut and the new
      count is the surplus, with an empty buffer exactly when it is zero.
      (That a call cuts at most one segment already follows from the
      segment being an Option; the bound on Emitted only spells it out.) */
  lemma CallbackShape(st: State, samplesPerFile: int, chunk: seq<int>)
    ensures var r := Callback(st, samplesPerFile, chunk);
      && (r.segment.Some? <==> st.count + |chunk| >= samplesPerFile)
      && |Emitted(r.segment)| <= 1
      && (r.segment.None? ==> r.next == State(st.buffer + [chunk], st.count + |chunk|))
      && (r.segment.Some? ==>
            && r.next.count == st.count + |chunk| - samplesPerFile
            && (r.next.buffer == [] <==> r.next.count == 0))
  {
  }

  /** A cut segment is exactly the first samplesPerFile buffered frames. */
  lemma SegmentIsExact(st: State, samplesPerFile: int, chunk: seq<int>)
    requires Tracks(st) && samplesPerFile >= 0
    ensures var r := Callback(st, samplesPerFile, chunk);
      r.segment.Some? ==>
        && |r.segment.value| == samplesPerFile
        && r.segment.value == (Flatten(st.buffer) + chunk)[..samplesPerFile]
  {
    FlattenSnoc(st.buffer, chunk);
  }

  /** While the count was at most one segment before the call, the frames
      carried from the last chunk are exactly the frames after the cut:
      segment followed by leftover reproduces buffer followed by chunk. */
  lemma CallbackConserves(st: State, samplesPerFile: int, chunk: seq<int>)
    requires Tracks(st) && 0 <= samplesPerFile && st.count <= samplesPerFile
    ensures var r := Callback(st, samplesPerFile, chunk);
      && Tracks(r.next)
      && Flatten(Emitted(r.segment)) + Flatten(r.next.buffer) == Flatten(st.buffer) + chunk
  {
    var all := Flatten(st.buffer) + chunk;
    FlattenSnoc(st.buffer, chunk);
    var r := Callback(st, samplesPerFile, chunk);
    var count := st.count + |chunk|;
    if count >= samplesPerFile {
      var segment := all[..samplesPerFile];
      assert r.segment == Some(segment);
      FlattenSingle(segment);
      var remaining := count - samplesPerFile;
      if remaining > 0 {
        var tail := PyTail(chunk, remaining);
        assert tail == chunk[samplesPerFile - st.count..];
        assert tail == all[samplesPerFile..];
        FlattenSingle(tail);
        assert all == segment + all[samplesPerFile..];
      } else {
        assert segment == all;
      }
    } else {
      assert r.next.buffer == st.buffer + [chunk];
    }
  }

  /** The frames cut into segments so far, followed by the buffered frames,
      are exactly the frames captured so far. */
  ghost predicate Accounted(st: State, produced: seq<seq<int>>, captured: seq<int>)
  {
    Tracks(st) && Flatten(produced) + Flatten(st.buffer) == captured
  }

  /** One callback keeps that account when the count was at most one
      segment before it. */
  lemma CallbackKeepsAccount(st: State, samplesPerFile: int, chunk: seq<int>, produced: seq<seq<int>>, captured: seq<int>)
    requires Accounted(st, produced, captured) && 0 <= samplesPerFile && st.count <= samplesPerFile
    ensures var step := Callback(st, samplesPerFile, chunk);
      Accounted(step.next, produced + Emitted(step.segment), captured + chunk)
  {
    var step := Callback(st, samplesPerFile, chunk);
    CallbackConserves(st, samplesPerFile, chunk);
    FlattenConcat(produced, Emitted(step.segment));
    Regroup(Flatten(produced), Flatten(Emitted(step.segment)), Flatten(step.next.buffer),
            Flatten(st.buffer), captured, [], chunk);
    assert [] + chunk == chunk;
  }

  /** With chunks no longer than a segment the callback keeps fewer than
      samplesPerFile frames buffered. */
  lemma PartialPreserved(st: State, samplesPerFile: int, chunk: seq<int>)
    requires Partial(st, samplesPerFile) && |chunk| <= samplesPerFile
    ensures Partial(Callback(st, samplesPerFile, chunk).next, samplesPerFile)
  {
    CallbackConserves(st, samplesPerFile, chunk);
  }

  /** Where the invariant first gives way: from a partial state, the carried
      count reaches a whole segment exactly when the chunk brings the total
      to two segments or more, which a chunk no longer than one segment
      never does. */
  lemma CarryReachesSegment(st: State, samplesPerFile: int, chunk: seq<int>)
    requires Partial(st, samplesPerFile)
    ensures (Callback(st, samplesPerFile, chunk).next.count >= samplesPerFile)
        <==> (st.count + |chunk| >= 2 * samplesPerFile)
  {
  }

  /** Where it breaks: once the count exceeds a segment, the next call cuts a
      segment and keeps only the new chunk while counting st.count -
      samplesPerFile frames more than it holds; those frames are lost. */
  lemma OvercountDropsFrames(st: State, samplesPerFile: int, chunk: seq<int>)
    requires Tracks(st) && 0 <= samplesPerFile < st.count
    ensures var r := Callback(st, samplesPerFile, chunk);
      && r.segment.Some?
      && r.next.buffer == [chunk]
      && r.next.count == |Flatten(r.next.buffer)| + (st.count - samplesPerFile)
      && !Tracks(r.next)
  {
    FlattenSingle(chunk);
  }

  /** Successive callbacks over a list of chunks. */
  function Feed(st: State, samplesPerFile: int, chunks: seq<seq<int>>): (r: Run)
    ensures |r.segments| <= |chunks|
    decreases |chunks|
  {
    if chunks == [] then Run(st, [])
    else
      var step := Callback(st, samplesPerFile, chunks[0]);
      var rest := Feed(step.next, samplesPerFile, chunks[1..]);
      Run(rest.final, Emitted(step.segment) + rest.segments)
  }

  /** With every chunk at most one segment long, the callbacks lose and
      duplicate nothing: the segments, all of samplesPerFile frames, followed
      by the final leftover are the buffered frames followed by the input. */
  lemma {:induction false} FeedConserves(st: State, samplesPerFile: int, chunks: seq<seq<int>>)
    requires Partial(st, samplesPerFile)
    requires forall i :: 0 <= i < |chunks| ==> |chunks[i]| <= samplesPerFile
    ensures var run := Feed(st, samplesPerFile, chunks);
      && Partial(run.final, samplesPerFile)
      && (forall k :: 0 <= k < |run.segments| ==> |run.segments[k]| == samplesPerFile)
      && Flatten(run.segments) + Flatten(run.final.buffer) == Flatten(st.buffer) + Flatten(chunks)
    decreases |chunks|
  {
    if chunks == [] {
      assert Feed(st, samplesPerFile, chunks) == Run(st, []);
      assert Flatten(chunks) == [];
    } else {
      var step := Callback(st, samplesPerFile, chunks[0]);
      CallbackConserves(st, samplesPerFile, chunks[0]);
      SegmentIsExact(st, samplesPerFile, chunks[0]);
      PartialPreserved(st, samplesPerFile, chunks[0]);
      FeedConserves(step.next, samplesPerFile, chunks[1..]);
      var rest := Feed(step.next, samplesPerFile, chunks[1..]);
      assert Feed(st, samplesPerFile, chunks) == Run(rest.final, Emitted(step.segment) + rest.segments);
      FlattenConcat(Emitted(step.segment), rest.segments);
      assert Flatten(chunks) == chunks[0] + Flatten(chunks[1..]);
      Regroup(Flatten(Emitted(step.segment)), Flatten(rest.segments), Flatten(rest.final.buffer),
              Flatten(step.next.buffer), Flatten(st.buffer), chunks[0], Flatten(chunks[1..]));
    }
  }

  /** A counterexample for chunks longer than a segment: with segments of 3
      frames, chunks of 7, 1 and 1 frames give a segment of only 2 frames,
      and frame 6 is never emitted. */
  lemma LostAndShortSegment()
    ensures Feed(State([], 0), 3, [[0, 1, 2, 3, 4, 5, 6], [7], [8]]).segments
              == [[0, 1, 2], [3, 4, 5], [7, 8]]
  {
    var c1: seq<int>, c2: seq<int>, c3: seq<int> := [0, 1, 2, 3, 4, 5, 6], [7], [8];
    FlattenSingle(c1);
    assert [] + [c1] == [c1];
    assert c1[..3] == [0, 1, 2] && c1[3..] == [3, 4, 5, 6];
    var s1 := Callback(State([], 0), 3, c1);
    assert s1 == Step(State([[3, 4, 5, 6]], 4), Some([0, 1, 2]));
    FlattenSingle([3, 4, 5, 6]);
    FlattenSnoc([[3, 4, 5, 6]], c2);
    assert [3, 4, 5, 6] + c2 == [3, 4, 5, 6, 7];
    assert [3, 4, 5, 6, 7][..3] == [3, 4, 5];
    assert [[3, 4, 5, 6]] + [c2] == [[3, 4, 5, 6], c2];
    var s2 := Callback(s1.next, 3, c2);
    assert s2 == Step(State([[7]], 2), Some([3, 4, 5]));
    FlattenSingle([7]);
    FlattenSnoc([[7]], c3);
    assert [7] + c3 == [7, 8];
    assert [[7]] + [c3] == [[7], c3];
    assert [7, 8][..2] == [7, 8];
    var s3 := Callback(s2.next, 3, c3);
    assert s3 == Step(State([], 0), Some([7, 8]));
    var chunks: seq<seq<int>> := [c1, c2, c3];
    assert chunks[1..] == [c2, c3] && chunks[1..][1..] == [c3] && |chunks[1..][1..][1..]| == 0;
  }

  // ---------------------------------------------------------------------
  // The accumulator as intended by "Reset buffer, keeping any extra samples"
  // (audio_recorder.py:62): every whole segment is cut and the leftover is
  // the remainder of all buffered frames, not only of the last chunk.

  /** The result of cutting a frame sequence into whole segments. */
  datatype Cut = Cut(segments: seq<seq<int>>, rest: seq<int>)

  /** Cuts s, front first, into segments of samplesPerFile frames. */
  function Chop(s: seq<int>, samplesPerFile: int): (r: Cut)
    requires samplesPerFile > 0
    ensures Flatten(r.segments) + r.rest == s
    ensures |r.rest| < samplesPerFile
    ensures forall k :: 0 <= k < |r.segments| ==> |r.segments[k]| == samplesPerFile
    decreases |s|
  {
    if |s| < samplesPerFile then Cut([], s)
    else
      var t := Chop(s[samplesPerFile..], samplesPerFile);
      FlattenCons(s[..samplesPerFile], t.segments);
      Regroup(s[..samplesPerFile], Flatten(t.segments), t.rest, [], s[..samplesPerFile], [], s[samplesPerFile..]);
      assert s == s[..samplesPerFile] + s[samplesPerFile..];
      Cut([s[..samplesPerFile]] + t.segments, t.rest)
  }

  /** The callback as intended: all whole segments of the buffered frames
      and the chunk are cut, and the remainder is carried. */
  function CorrectedCallback(st: State, samplesPerFile: int, chunk: seq<int>): (r: Run)
    requires samplesPerFile > 0
    ensures Partial(r.final, samplesPerFile)
    ensures forall k :: 0 <= k < |r.segments| ==> |r.segments[k]| == samplesPerFile
    ensures Flatten(r.segments) + Flatten(r.final.buffer) == Flatten(st.buffer) + chunk
  {
    var cut := Chop(Flatten(st.buffer) + chunk, samplesPerFile);
    FlattenSingle(cut.rest);
    Run(State(if cut.rest == [] then [] else [cut.rest], |cut.rest|), cut.segments)
  }

  /** Successive corrected callbacks over a list of chunks. */
  function CorrectedFeed(st: State, samplesPerFile: int, chunks: seq<seq<int>>): Run
    requires samplesPerFile > 0
    decreases |chunks|
  {
    if chunks == [] then Run(st, [])
    else
      var step := CorrectedCallback(st, samplesPerFile, chunks[0]);
      var rest := CorrectedFeed(step.final, samplesPerFile, chunks[1..]);
      Run(rest.final, step.segments + rest.segments)
  }

  /** The corrected accumulator loses and duplicates nothing, whatever the
      chunk sizes. */
  lemma {:induction false} CorrectedFeedConserves(st: State, samplesPerFile: int, chunks: seq<seq<int>>)
    requires Partial(st, samplesPerFile)
    ensures var run := CorrectedFeed(st, samplesPerFile, chunks);
      && Partial(run.final, samplesPerFile)
      && (forall k :: 0 <= k < |run.segments| ==> |run.segments[k]| == samplesPerFile)
      && Flatten(run.segments) + Flatten(run.final.buffer) == Flatten(st.buffer) + Flatten(chunks)
    decreases |chunks|
  {
    if chunks == [] {
      assert CorrectedFeed(st, samplesPerFile, chunks) == Run(st, []);
      assert Flatten(chunks) == [];
    } else {
      var step := CorrectedCallback(st, samplesPerFile, chunks[0]);
      CorrectedFeedConserves(step.final, samplesPerFile, chunks[1..]);
      var rest := CorrectedFeed(step.final, samplesPerFile, chunks[1..]);
      assert CorrectedFeed(st, samplesPerFile, chunks) == Run(rest.final, step.segments + rest.segments);
      FlattenConcat(step.segments, rest.segments);
      assert Flatten(chunks) == chunks[0] + Flatten(chunks[1..]);
      Regroup(Flatten(step.segments), Flatten(rest.segments), Flatten(rest.final.buffer),
              Flatten(step.final.buffer), Flatten(st.buffer), chunks[0], Flatten(chunks[1..]));
    }
  }

  /** Whole segments and a short remainder are determined by the frames they
      make up. */
  lemma {:induction false} CutUnique(a: seq<seq<int>>, x: seq<int>, b: seq<seq<int>>, y: seq<int>, samplesPerFile: int)
    requires samplesPerFile > 0
    requires forall k :: 0 <= k < |a| ==> |a[k]| == samplesPerFile
    requires forall k :: 0 <= k < |b| ==> |b[k]| == samplesPerFile
    requires |x| < samplesPerFile && |y| < samplesPerFile
    requires Flatten(a) + x == Flatten(b) + y
    ensures a == b && x == y
    decreases |a|
  {
    if a == [] {
      assert Flatten(a) == [];
      if b != [] {
        assert false;
      } else {
        assert Flatten(b) == [];
        assert x == Flatten(a) + x && y == Flatten(b) + y;
      }
    } else if b == [] {
      assert false;
    } else {
      var s := Flatten(a) + x;
      assert s == a[0] + (Flatten(a[1..]) + x);
      assert s == b[0] + (Flatten(b[1..]) + y);
      assert a[0] == s[..samplesPerFile] == b[0];
      assert Flatten(a[1..]) + x == s[samplesPerFile..] == Flatten(b[1..]) + y;
      CutUnique(a[1..], x, b[1..], y, samplesPerFile);
      assert a == [a[0]] + a[1..];
      assert b == [b[0]] + b[1..];
    }
  }

  /** While every chunk is at most one segment long, the callback as written
      cuts the same segments as the corrected one and leaves the same frames
      buffered. */
  lemma FeedAgreesWithCorrected(st: State, samplesPerFile: int, chunks: seq<seq<int>>)
    requires Partial(st, samplesPerFile)
    requires forall i :: 0 <= i < |chunks| ==> |chunks[i]| <= samplesPerFile
    ensures var run := Feed(st, samplesPerFile, chunks);
      var reference := CorrectedFeed(st, samplesPerFile, chunks);
      run.segments == reference.segments
      && Flatten(run.final.buffer) == Flatten(reference.final.buffer)
  {
    FeedConserves(st, samplesPerFile, chunks);
    CorrectedFeedConserves(st, samplesPerFile, chunks);
    var run := Feed(st, samplesPerFile, chunks);
    var reference := CorrectedFeed(st, samplesPerFile, chunks);
    CutUnique(run.segments, Flatten(run.final.buffer), reference.segments, Flatten(reference.final.buffer), samplesPerFile);
  }

  lemma {:induction false} FlattenLength(a: seq<seq<int>>, samplesPerFile: int)
    requires forall k :: 0 <= k < |a| ==> |a[k]| == samplesPerFile
    ensures |Flatten(a)| == |a| * samplesPerFile
    decreases |a|
  {
    if a != [] {
      FlattenLength(a[1..], samplesPerFile);
    }
  }

  lemma {:induction false} QuotientUnique(n: nat, m: nat, d: int, x: int, y: int)
    requires 0 <= x < d && 0 <= y < d
    requires n * d + x == m * d + y
    ensures n == m
    decreases n
  {
    if n > 0 && m > 0 {
      QuotientUnique(n - 1, m - 1, d, x, y);
    }
  }

  /** A stream of k whole segments and r more frames gives, from an empty
      buffer, exactly k segments of samplesPerFile frames and a leftover of r
      frames, in order: for the corrected accumulator whatever the chunk
      sizes, and for the callback as written when no chunk is longer than a
      segment. */
  lemma StreamSegmentCount(samplesPerFile: int, chunks: seq<seq<int>>, k: nat, r: nat)
    requires samplesPerFile > 0 && r < samplesPerFile
    requires |Flatten(chunks)| == k * samplesPerFile + r
    ensures var reference := CorrectedFeed(State([], 0), samplesPerFile, chunks);
      && |reference.segments| == k
      && (forall j :: 0 <= j < k ==> |reference.segments[j]| == samplesPerFile)
      && |Flatten(reference.final.buffer)| == r
      && Flatten(reference.segments) + Flatten(reference.final.buffer) == Flatten(chunks)
    ensures (forall i :: 0 <= i < |chunks| ==> |chunks[i]| <= samplesPerFile) ==>
      Feed(State([], 0), samplesPerFile, chunks).segments == CorrectedFeed(State([], 0), samplesPerFile, chunks).segments
  {
    var st := State([], 0);
    CorrectedFeedConserves(st, samplesPerFile, chunks);
    var reference := CorrectedFeed(st, samplesPerFile, chunks);
    FlattenLength(reference.segments, samplesPerFile);
    assert Flatten(st.buffer) == [];
    var input := Flatten(chunks);
    assert Flatten(reference.segments) + Flatten(reference.final.buffer) == input;
    QuotientUnique(|reference.segments|, k, samplesPerFile, |Flatten(reference.final.buffer)|, r);
    if forall i :: 0 <= i < |chunks| ==> |chunks[i]| <= samplesPerFile {
      FeedAgreesWithCorrected(st, samplesPerFile, chunks);
    }
  }
}
