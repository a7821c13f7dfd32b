/**
  The FFmpeg recording pipeline: an Encoder owning a Muxer, at most one AudioEncoder and a
  list of VideoEncoders. Each worker is a queue plus the bookkeeping its loop keeps
  (samples written, base time, last frame time); every producer or consumer call is one
  indivisible step.

  FFmpeg itself is not modelled. What a codec or the container returns is passed in as an
  argument (the packets a receive loop yields, the result of a send, of writing the header or
  the trailer), and what the pipeline does to the outside world is recorded: the Encoder's
  `events` trace holds thread starts and kills, disconnections and emitted signals, the
  Muxer's `written` list holds the packets handed to av_interleaved_write_frame, and each
  encoder's `submitted` list holds the frames sent to its codec with their timestamps.
*/
module FFmpegEncoder {
  import opened Wrappers

  // ---------------------------------------------------------------------------
  // Arithmetic of the source

  /** std::numeric_limits<qint64>::min(). */
  const MinInt64: int := -0x8000_0000_0000_0000

  function Abs(x: int): int
  {
    if x < 0 then -x else x
  }

  function Max(a: int, b: int): int
  {
    if a < b then b else a
  }

  function Min(a: int, b: int): int
  {
    if a < b then a else b
  }

  /**
    C++ integer division, which truncates toward zero: the remainder a - q * b is smaller
    than the divisor in magnitude and is zero or has the sign of the dividend.
  */
  function CDiv(a: int, b: int): (q: int)
    requires b != 0
    ensures Abs(a - q * b) < Abs(b)
    ensures a - q * b == 0 || (a - q * b < 0) == (a < 0)
  {
    if a >= 0 && b > 0 then
      FloorDiv(a, b); a / b
    else if a >= 0 then
      FloorDiv(a, -b); -(a / -b)
    else if b > 0 then
      FloorDiv(-a, b); -((-a) / b)
    else
      FloorDiv(-a, -b); (-a) / (-b)
  }

  /** For non-negative operands, division rounds down. */
  lemma FloorDiv(a: int, b: int)
    requires a >= 0 && b > 0
    ensures 0 <= a - (a / b) * b < b
  {
  }

  /** For non-negative operands, the truncating quotient is the floor of the quotient. */
  lemma DivBounds(a: int, b: int)
    requires a >= 0 && b > 0
    ensures CDiv(a, b) >= 0 && CDiv(a, b) * b <= a < CDiv(a, b) * b + b
  {
    var q := CDiv(a, b);
    assert 0 <= a - q * b < b;
    if q < 0 {
      MulMonotonic(b, q, -1);
      assert false;
    }
  }

  /** Division by a positive number preserves order. */
  lemma DivMonotonic(a: int, c: int, b: int)
    requires 0 <= a <= c && b > 0
    ensures a / b <= c / b
  {
    FloorDiv(a, b);
    FloorDiv(c, b);
    if a / b > c / b {
      MulMonotonic(b, c / b + 1, a / b);
      assert false;
    }
  }

  /** Multiplication by a non-negative number preserves order. */
  lemma MulMonotonic(k: int, a: int, c: int)
    requires k >= 0 && a <= c
    ensures k * a <= k * c
  {
  }

  // ---------------------------------------------------------------------------
  // Values passed through the pipeline

  /** An AVPacket: its payload and the stream it belongs to. */
  datatype Packet = Packet(payload: nat, streamIndex: int)

  /** A QAudioBuffer; the default-constructed one is invalid. */
  datatype AudioBuffer = InvalidBuffer | AudioBuffer(id: nat, frameCount: nat)

  /** A QVideoFrame with its start and end times in microseconds; the default one is invalid. */
  datatype VideoFrame = InvalidFrame | VideoFrame(id: nat, startTime: int, endTime: int)

  /** An AVRational time base. */
  datatype Rational = Rational(num: int, den: int)

  /** A frame handed to a codec: which buffer or frame it came from and its timestamp. */
  datatype SubmittedFrame = SubmittedFrame(id: nat, pts: int)

  datatype Worker = MuxerThread | AudioThread | VideoThread(index: nat)

  /** The description carried by an error signal: fixed text, or err2str of an FFmpeg code. */
  datatype ErrorDescription = Text(s: string) | FFmpegErrorText(code: int)

  /** What the Encoder does to the outside world, in order. */
  datatype Event =
    | ThreadStarted(worker: Worker)
    | Disconnected(connection: nat)
    | FinalizerStarted
    | ThreadKilled(killed: Worker)
    | TrailerWritten(ok: bool)
    | FinalizationDone
    | DurationChanged(duration: int)
    | ResourceError(description: ErrorDescription)

  /** A QVideoFrameFormat: validity, the FFmpeg pixel format its pixel format maps to, and its rate. */
  datatype VideoFrameFormat = VideoFrameFormat(valid: bool, avPixelFormat: int, frameRate: real)

  /** A video source: its frame format and the hardware pixel format it may offer. */
  datatype VideoSource = VideoSource(format: VideoFrameFormat, hwPixelFormat: Option<int>)

  /** The input's preferred QAudioFormat, with its sample format already mapped to FFmpeg's. */
  datatype AudioInputFormat = AudioInputFormat(sampleRate: int, channelCount: int, avSampleFormat: int)

  // ---------------------------------------------------------------------------
  // Specification functions

  /** The durationChanged signal newTimeStamp emits: only for a strictly later time. */
  function StampEvents(recorded: int, time: int): seq<Event>
  {
    if time > recorded then [DurationChanged(time)] else []
  }

  /**
    What one encoded buffer or frame tells the Encoder: its time in milliseconds for
    newTimeStamp, and the code of a failed send, if the send failed.
  */
  datatype Notice = Notice(ms: int, failure: Option<int>)

  /** The events one notice raises: durationChanged for a later time, then the send error. */
  function NoticeEvents(recorded: int, n: Notice): seq<Event>
  {
    StampEvents(recorded, n.ms) + (if n.failure.Some? then [ResourceError(FFmpegErrorText(n.failure.value))] else [])
  }

  /** The Encoder's recorded duration and the events it has emitted. */
  datatype Stamps = Stamps(recorded: int, events: seq<Event>)

  /**
    The Encoder after it hears a run of notices, in order, from the recorded duration
    `recorded`: the duration it ends on and the events it emits on the way.
  */
  function Announced(recorded: int, ns: seq<Notice>): (s: Stamps)
    ensures s.recorded >= recorded
    decreases |ns|
  {
    if ns == [] then Stamps(recorded, [])
    else
      var rest := Announced(Max(recorded, ns[0].ms), ns[1..]);
      Stamps(rest.recorded, NoticeEvents(recorded, ns[0]) + rest.events)
  }

  /** The durations a trace of events signals with durationChanged, in order. */
  function Durations(es: seq<Event>): seq<int>
  {
    if es == [] then [] else (if es[0].DurationChanged? then [es[0].duration] else []) + Durations(es[1..])
  }

  lemma {:induction false} DurationsAppend(a: seq<Event>, b: seq<Event>)
    ensures Durations(a + b) == Durations(a) + Durations(b)
    decreases |a|
  {
    if a == [] {
      assert a + b == b;
    } else {
      var head := if a[0].DurationChanged? then [a[0].duration] else [];
      assert (a + b)[0] == a[0] && (a + b)[1..] == a[1..] + b;
      assert Durations(a + b) == head + Durations(a[1..] + b);
      DurationsAppend(a[1..], b);
      assert head + (Durations(a[1..]) + Durations(b)) == (head + Durations(a[1..])) + Durations(b);
    }
  }

  /** One notice signals its time exactly when it is later than the recorded duration. */
  lemma NoticeDurations(recorded: int, n: Notice)
    ensures Durations(NoticeEvents(recorded, n)) == if n.ms > recorded then [n.ms] else []
  {
    var err := if n.failure.Some? then [ResourceError(FFmpegErrorText(n.failure.value))] else [];
    DurationsAppend(StampEvents(recorded, n.ms), err);
    assert Durations(err) == [];
  }

  /**
    The recorded duration after a run of notices is the latest time heard, or the starting
    duration when no notice was later.
  */
  lemma {:induction false} AnnouncedRecordsLatest(recorded: int, ns: seq<Notice>)
    ensures var s := Announced(recorded, ns);
      && (forall i :: 0 <= i < |ns| ==> ns[i].ms <= s.recorded)
      && (s.recorded == recorded || exists i :: 0 <= i < |ns| && s.recorded == ns[i].ms)
    decreases |ns|
  {
    if ns != [] {
      AnnouncedRecordsLatest(Max(recorded, ns[0].ms), ns[1..]);
      var s := Announced(recorded, ns);
      assert forall i :: 1 <= i < |ns| ==> ns[i] == ns[1..][i - 1];
      if s.recorded != recorded && s.recorded != ns[0].ms {
        var i :| 0 <= i < |ns[1..]| && s.recorded == ns[1..][i].ms;
        assert s.recorded == ns[i + 1].ms;
      }
    }
  }

  /** The durations one notice and then the rest of a run signal. */
  lemma AnnouncedDurationsStep(recorded: int, ns: seq<Notice>)
    requires ns != []
    ensures Durations(Announced(recorded, ns).events)
         == (if ns[0].ms > recorded then [ns[0].ms] else []) + Durations(Announced(Max(recorded, ns[0].ms), ns[1..]).events)
  {
    DurationsAppend(NoticeEvents(recorded, ns[0]), Announced(Max(recorded, ns[0].ms), ns[1..]).events);
    NoticeDurations(recorded, ns[0]);
  }

  /**
    durationChanged is signalled for strictly increasing durations, each later than the
    starting one and none later than the duration recorded at the end.
  */
  lemma {:induction false} AnnouncedSignalsIncreases(recorded: int, ns: seq<Notice>)
    ensures var s := Announced(recorded, ns);
      var d := Durations(s.events);
      && (forall i :: 0 <= i < |d| ==> recorded < d[i] <= s.recorded)
      && (forall i, j :: 0 <= i < j < |d| ==> d[i] < d[j])
    decreases |ns|
  {
    if ns != [] {
      var r1 := Max(recorded, ns[0].ms);
      AnnouncedSignalsIncreases(r1, ns[1..]);
      AnnouncedDurationsStep(recorded, ns);
      var s := Announced(recorded, ns);
      var d1 := Durations(Announced(r1, ns[1..]).events);
      assert s.recorded == Announced(r1, ns[1..]).recorded;
      if ns[0].ms > recorded {
        IncreasingCons(ns[0].ms, d1, recorded, s.recorded);
      }
    }
  }

  /** Putting a value below a strictly increasing run in front keeps it strictly increasing. */
  lemma IncreasingCons(x: int, d: seq<int>, lo: int, hi: int)
    requires lo < x <= hi
    requires forall i :: 0 <= i < |d| ==> x < d[i] <= hi
    requires forall i, j :: 0 <= i < j < |d| ==> d[i] < d[j]
    ensures forall i :: 0 <= i < |[x] + d| ==> lo < ([x] + d)[i] <= hi
    ensures forall i, j :: 0 <= i < j < |[x] + d| ==> ([x] + d)[i] < ([x] + d)[j]
  {
    var e := [x] + d;
    assert forall i :: 1 <= i < |e| ==> e[i] == d[i - 1];
  }

  /**
    durationChanged is signalled exactly when the recorded duration moved, and the last
    signal carries the duration recorded at the end.
  */
  lemma {:induction false} AnnouncedSignalsLatest(recorded: int, ns: seq<Notice>)
    ensures var s := Announced(recorded, ns);
      var d := Durations(s.events);
      && (d == [] <==> s.recorded == recorded)
      && (d != [] ==> d[|d| - 1] == s.recorded)
    decreases |ns|
  {
    if ns != [] {
      var r1 := Max(recorded, ns[0].ms);
      AnnouncedSignalsLatest(r1, ns[1..]);
      AnnouncedDurationsStep(recorded, ns);
      var d1 := Durations(Announced(r1, ns[1..]).events);
      if ns[0].ms > recorded {
        assert Durations(Announced(recorded, ns).events) == [ns[0].ms] + d1;
      }
    }
  }

  /** The FFmpeg error codes a trace of events reports as resource errors, in order. */
  function ErrorCodes(es: seq<Event>): seq<int>
  {
    if es == [] then []
    else (if es[0].ResourceError? && es[0].description.FFmpegErrorText? then [es[0].description.code] else [])
         + ErrorCodes(es[1..])
  }

  lemma {:induction false} ErrorCodesAppend(a: seq<Event>, b: seq<Event>)
    ensures ErrorCodes(a + b) == ErrorCodes(a) + ErrorCodes(b)
    decreases |a|
  {
    if a == [] {
      assert a + b == b;
    } else {
      var head := if a[0].ResourceError? && a[0].description.FFmpegErrorText? then [a[0].description.code] else [];
      assert (a + b)[0] == a[0] && (a + b)[1..] == a[1..] + b;
      assert ErrorCodes(a + b) == head + ErrorCodes(a[1..] + b);
      ErrorCodesAppend(a[1..], b);
      assert head + (ErrorCodes(a[1..]) + ErrorCodes(b)) == (head + ErrorCodes(a[1..])) + ErrorCodes(b);
    }
  }

  /** The codes of the failed sends a run of notices reports, in order. */
  function FailureCodes(ns: seq<Notice>): seq<int>
  {
    if ns == [] then [] else (if ns[0].failure.Some? then [ns[0].failure.value] else []) + FailureCodes(ns[1..])
  }

  /** Every failed send in a run of notices is signalled as an error exactly once, in order. */
  lemma {:induction false} AnnouncedReportsFailures(recorded: int, ns: seq<Notice>)
    ensures ErrorCodes(Announced(recorded, ns).events) == FailureCodes(ns)
    decreases |ns|
  {
    if ns != [] {
      var n := ns[0];
      var rest := Announced(Max(recorded, n.ms), ns[1..]);
      var err := if n.failure.Some? then [ResourceError(FFmpegErrorText(n.failure.value))] else [];
      AnnouncedReportsFailures(Max(recorded, n.ms), ns[1..]);
      ErrorCodesAppend(NoticeEvents(recorded, n), rest.events);
      ErrorCodesAppend(StampEvents(recorded, n.ms), err);
      assert ErrorCodes(StampEvents(recorded, n.ms)) == [];
    }
  }

  /**
    Midway through a run of notices that set out to leave the Encoder at `goal` after the
    events `events0`: the events so far, followed by what the rest of the run emits from the
    current duration, give that same outcome.
  */
  predicate AnnouncementsRemain(recorded: int, events: seq<Event>, ns: seq<Notice>, events0: seq<Event>, goal: Stamps)
  {
    var a := Announced(recorded, ns);
    a.recorded == goal.recorded && events + a.events == events0 + goal.events
  }

  /** Hearing one notice keeps a run of notices on course for its outcome. */
  lemma AnnounceStep(recorded: int, events: seq<Event>, ns: seq<Notice>, events0: seq<Event>, goal: Stamps)
    requires ns != [] && AnnouncementsRemain(recorded, events, ns, events0, goal)
    ensures AnnouncementsRemain(Max(recorded, ns[0].ms), events + NoticeEvents(recorded, ns[0]), ns[1..], events0, goal)
  {
    var rest := Announced(Max(recorded, ns[0].ms), ns[1..]);
    assert (events + NoticeEvents(recorded, ns[0])) + rest.events == events + (NoticeEvents(recorded, ns[0]) + rest.events);
  }

  /** The packets of one receive loop, stamped with the audio stream's index. */
  function Restamp(ps: seq<Packet>, streamId: int): seq<Packet>
  {
    seq(|ps|, k requires 0 <= k < |ps| => Packet(ps[k].payload, streamId))
  }

  /** What av_interleaved_write_frame receives for each queued packet, in order. */
  function Written(ps: seq<Packet>): seq<Option<Packet>>
  {
    seq(|ps|, k requires 0 <= k < |ps| => Some(ps[k]))
  }

  /** Remove the front of a queue, if any. */
  function Dequeued<T>(q: seq<T>): seq<T>
  {
    if q == [] then [] else q[1..]
  }

  /**
    The presentation timestamp AudioEncoder::loop gives a frame: the samples written so far
    expressed in the stream time base, den * samplesWritten / (sampleRate * num), or
    samplesWritten itself when either part of the time base is zero.
  */
  function AudioPts(timeBase: Rational, sampleRate: int, samplesWritten: int): (pts: int)
    requires sampleRate > 0
    ensures timeBase.num > 0 && timeBase.den > 0 && samplesWritten >= 0 ==>
      && pts >= 0
      && pts * (sampleRate * timeBase.num) <= timeBase.den * samplesWritten
      && timeBase.den * samplesWritten < (pts + 1) * (sampleRate * timeBase.num)
    ensures timeBase.num == 0 || timeBase.den == 0 ==> pts == samplesWritten
  {
    if timeBase.den != 0 && timeBase.num != 0 then
      var b := sampleRate * timeBase.num;
      if timeBase.num > 0 && timeBase.den > 0 && samplesWritten >= 0 then
        assert b > 0 && timeBase.den * samplesWritten >= 0;
        DivBounds(timeBase.den * samplesWritten, b);
        CDiv(timeBase.den * samplesWritten, b)
      else
        CDiv(timeBase.den * samplesWritten, b)
    else samplesWritten
  }

  /** With the time base the encoder asks for, 1/sampleRate, the timestamp is the sample count. */
  lemma AudioPtsCountsSamples(sampleRate: int, samplesWritten: nat)
    requires sampleRate > 0
    ensures AudioPts(Rational(1, sampleRate), sampleRate, samplesWritten) == samplesWritten
  {
    var pts := AudioPts(Rational(1, sampleRate), sampleRate, samplesWritten);
    assert pts * sampleRate <= samplesWritten * sampleRate < (pts + 1) * sampleRate;
    if pts < samplesWritten {
      MulMonotonic(sampleRate, pts + 1, samplesWritten);
      assert false;
    }
    if pts > samplesWritten {
      MulMonotonic(sampleRate, samplesWritten + 1, pts);
      assert false;
    }
  }

  /** More samples written never gives an earlier timestamp (for a positive time base). */
  lemma AudioPtsMonotonic(timeBase: Rational, sampleRate: int, s1: nat, s2: nat)
    requires sampleRate > 0 && timeBase.num > 0 && timeBase.den > 0 && s1 <= s2
    ensures AudioPts(timeBase, sampleRate, s1) <= AudioPts(timeBase, sampleRate, s2)
  {
    var b := sampleRate * timeBase.num;
    assert b > 0;
    MulMonotonic(timeBase.den, s1, s2);
    DivMonotonic(timeBase.den * s1, timeBase.den * s2, b);
  }

  /** The base time, frame time and last frame time VideoEncoder::loop computes for one frame. */
  datatype Timing = Timing(baseTime: int, time: int, lastFrameTime: int)

  /**
    The base-time bookkeeping of VideoEncoder::loop: the base is re-anchored only while it
    holds the minimum qint64, so that the frame continues where the previous one ended; the
    frame's time and the new last frame time are then both taken relative to the base.
  */
  function FrameTiming(baseTime: int, lastFrameTime: int, startTime: int, endTime: int): (t: Timing)
    ensures baseTime != MinInt64 ==> t.baseTime == baseTime
    ensures baseTime == MinInt64 ==> t.time == lastFrameTime
    ensures t.lastFrameTime - t.time == endTime - startTime
    ensures startTime - t.time == t.baseTime
  {
    var base := if baseTime == MinInt64 then startTime - lastFrameTime else baseTime;
    Timing(base, startTime - base, endTime - base)
  }

  /** The first frame after construction (base at the minimum, no frame yet) gets time 0. */
  lemma FirstFrameStartsAtZero(startTime: int, endTime: int)
    ensures FrameTiming(MinInt64, 0, startTime, endTime).time == 0
    ensures FrameTiming(MinInt64, 0, startTime, endTime).lastFrameTime == endTime - startTime
  {
  }

  /**
    Pausing stores -1 as the base, which is not the re-anchoring marker: the next frame is
    timed against -1, so its time is its own start time plus one.
  */
  lemma PausedBaseDoesNotReanchor(lastFrameTime: int, startTime: int, endTime: int)
    ensures FrameTiming(-1, lastFrameTime, startTime, endTime) == Timing(-1, startTime + 1, endTime + 1)
  {
  }

  /** Two frames timed against the same base keep their spacing. */
  lemma SameBaseKeepsSpacing(baseTime: int, last1: int, last2: int, f1: VideoFrame, f2: VideoFrame)
    requires baseTime != MinInt64 && f1.VideoFrame? && f2.VideoFrame?
    ensures FrameTiming(baseTime, last2, f2.startTime, f2.endTime).time - FrameTiming(baseTime, last1, f1.startTime, f1.endTime).time
         == f2.startTime - f1.startTime
  {
  }

  // ---------------------------------------------------------------------------
  // Video queue policy

  /** The capacity of the video frame queue (maxQueueSize). */
  const MaxQueueSize: int := 10

  /** The queue after addFrame: a full queue drops the frame, a paused encoder drops it too. */
  function QueueAfterAddFrame(paused: bool, q: seq<VideoFrame>, frame: VideoFrame): (r: seq<VideoFrame>)
    ensures q <= r && |r| <= |q| + 1
    ensures |q| <= MaxQueueSize ==> |r| <= MaxQueueSize
    ensures r != q ==> r == q + [frame]
  {
    if |q| >= MaxQueueSize then q else if !paused then q + [frame] else q
  }

  /** The queue after a run of addFrame calls. */
  function QueueAfterAddFrames(paused: bool, q: seq<VideoFrame>, frames: seq<VideoFrame>): (r: seq<VideoFrame>)
    ensures q <= r && |r| <= |q| + |frames|
    decreases |frames|
  {
    if frames == [] then q else QueueAfterAddFrames(paused, QueueAfterAddFrame(paused, q, frames[0]), frames[1..])
  }

  /** However many frames arrive, the queue never grows past its capacity. */
  lemma {:induction false} AddFramesBounded(paused: bool, q: seq<VideoFrame>, frames: seq<VideoFrame>)
    requires |q| <= MaxQueueSize
    ensures |QueueAfterAddFrames(paused, q, frames)| <= MaxQueueSize
    decreases |frames|
  {
    if frames != [] {
      AddFramesBounded(paused, QueueAfterAddFrame(paused, q, frames[0]), frames[1..]);
    }
  }

  /**
    While recording, arriving frames are queued in order until the queue is full and every
    later one is dropped: the oldest frames survive, the newest are lost.
  */
  lemma {:induction false} AddFramesKeepsOldest(q: seq<VideoFrame>, frames: seq<VideoFrame>)
    requires |q| <= MaxQueueSize
    ensures QueueAfterAddFrames(false, q, frames) == q + frames[..Min(|frames|, MaxQueueSize - |q|)]
    decreases |frames|
  {
    if frames != [] {
      var q' := QueueAfterAddFrame(false, q, frames[0]);
      AddFramesKeepsOldest(q', frames[1..]);
      if |q| < MaxQueueSize {
        assert q' == q + [frames[0]];
        assert frames[1..][..Min(|frames| - 1, MaxQueueSize - |q'|)] == frames[1..Min(|frames|, MaxQueueSize - |q|)];
        assert q + frames[..Min(|frames|, MaxQueueSize - |q|)] == q' + frames[1..Min(|frames|, MaxQueueSize - |q|)];
      } else {
        assert frames[..0] == [];
      }
    }
  }

  /** While paused, arriving frames never reach the queue. */
  lemma {:induction false} AddFramesWhilePaused(q: seq<VideoFrame>, frames: seq<VideoFrame>)
    ensures QueueAfterAddFrames(true, q, frames) == q
    decreases |frames|
  {
    if frames != [] {
      AddFramesWhilePaused(QueueAfterAddFrame(true, q, frames[0]), frames[1..]);
    }
  }

  /** The queue after one VideoEncoder::loop as written: a paused encoder dequeues nothing. */
  function VideoQueueAfterLoop(paused: bool, q: seq<VideoFrame>): (r: seq<VideoFrame>)
    ensures |r| <= |q| && r == q[|q| - |r|..]
    ensures q != [] && !paused ==> |r| == |q| - 1
  {
    if paused then q else Dequeued(q)
  }

  /** The queue after n calls of loop as written, as `while (!videoFrameQueue.isEmpty()) loop();` makes them. */
  function VideoQueueAfterLoops(paused: bool, q: seq<VideoFrame>, n: nat): (r: seq<VideoFrame>)
    ensures |r| <= |q| && r == q[|q| - |r|..]
  {
    if n == 0 then q else VideoQueueAfterLoops(paused, VideoQueueAfterLoop(paused, q), n - 1)
  }

  /**
    VideoEncoder::cleanup as written, entered while paused with frames queued: no number of
    loop calls empties the queue, so its drain loop never ends.
  */
  lemma {:induction false} CleanupWhilePausedNeverDrains(q: seq<VideoFrame>, n: nat)
    requires q != []
    ensures VideoQueueAfterLoops(true, q, n) == q
    ensures VideoQueueAfterLoops(true, q, n) != []
  {
    if n > 0 {
      CleanupWhilePausedNeverDrains(q, n - 1);
    }
  }

  /** Unpaused, the same drain loop empties the queue after exactly as many calls as it holds. */
  lemma {:induction false} CleanupUnpausedDrains(q: seq<VideoFrame>)
    ensures VideoQueueAfterLoops(false, q, |q|) == []
    decreases |q|
  {
    if q != [] {
      CleanupUnpausedDrains(q[1..]);
    }
  }

  /**
    Where the video drain leaves the encoder: the frames it sent, what it told the Encoder
    about each of them, and the timing state.
  */
  datatype Drain = Drain(submitted: seq<SubmittedFrame>, notices: seq<Notice>, baseTime: int, lastFrameTime: int)

  /** The failure a send result reports: a negative result is an FFmpeg error code. */
  function SendFailure(sendResult: int): Option<int>
  {
    if sendResult < 0 then Some(sendResult) else None
  }

  /**
    Encoding every frame of a queue, one loop body per frame, where the i-th loop's send
    returns sendResults[i]: each valid frame on a valid encoder is timed by FrameTiming,
    sent, and reported to the Encoder with its time in milliseconds and the send's failure;
    invalid frames, and every frame of an invalid encoder, are skipped.
  */
  function EncodeAll(valid: bool, q: seq<VideoFrame>, sendResults: seq<int>, baseTime: int, lastFrameTime: int): (d: Drain)
    requires |sendResults| == |q|
    ensures |d.submitted| <= |q| && |d.notices| == |d.submitted|
    ensures forall i :: 0 <= i < |d.notices| ==> d.notices[i].ms == CDiv(d.submitted[i].pts, 1000)
    ensures !valid ==> d == Drain([], [], baseTime, lastFrameTime)
  {
    if q == [] then Drain([], [], baseTime, lastFrameTime)
    else if q[0].VideoFrame? && valid then
      var t := FrameTiming(baseTime, lastFrameTime, q[0].startTime, q[0].endTime);
      var rest := EncodeAll(valid, q[1..], sendResults[1..], t.baseTime, t.lastFrameTime);
      Drain([SubmittedFrame(q[0].id, t.time)] + rest.submitted,
            [Notice(CDiv(t.time, 1000), SendFailure(sendResults[0]))] + rest.notices,
            rest.baseTime, rest.lastFrameTime)
    else EncodeAll(valid, q[1..], sendResults[1..], baseTime, lastFrameTime)
  }

  /**
    Midway through a drain that set out to produce `total` after the frames `sent0`: what
    has been sent so far, followed by encoding what is left from the current timing state,
    gives that same outcome.
  */
  predicate DrainRemains(valid: bool, q: seq<VideoFrame>, sendResults: seq<int>, baseTime: int, lastFrameTime: int,
                         sent: seq<SubmittedFrame>, sent0: seq<SubmittedFrame>, total: Drain)
  {
    && |sendResults| == |q|
    && var d := EncodeAll(valid, q, sendResults, baseTime, lastFrameTime);
    && sent + d.submitted == sent0 + total.submitted
    && d.baseTime == total.baseTime
    && d.lastFrameTime == total.lastFrameTime
  }

  /**
    A drain on course both for `total` after the frames `sent0` and for leaving the Encoder
    at `goal` after the events `events0`.
  */
  predicate DrainOnCourse(valid: bool, q: seq<VideoFrame>, sendResults: seq<int>, baseTime: int, lastFrameTime: int,
                          sent: seq<SubmittedFrame>, recorded: int, events: seq<Event>,
                          sent0: seq<SubmittedFrame>, total: Drain, events0: seq<Event>, goal: Stamps)
  {
    && DrainRemains(valid, q, sendResults, baseTime, lastFrameTime, sent, sent0, total)
    && AnnouncementsRemain(recorded, events, EncodeAll(valid, q, sendResults, baseTime, lastFrameTime).notices, events0, goal)
  }

  /** A drain on course that has nothing left to encode has reached its outcome. */
  lemma DrainArrives(valid: bool, sendResults: seq<int>, baseTime: int, lastFrameTime: int,
                     sent: seq<SubmittedFrame>, recorded: int, events: seq<Event>,
                     sent0: seq<SubmittedFrame>, total: Drain, events0: seq<Event>, goal: Stamps)
    requires DrainOnCourse(valid, [], sendResults, baseTime, lastFrameTime, sent, recorded, events, sent0, total, events0, goal)
    ensures sent == sent0 + total.submitted && baseTime == total.baseTime && lastFrameTime == total.lastFrameTime
    ensures recorded == goal.recorded && events == events0 + goal.events
  {
    assert sendResults == [];
    assert EncodeAll(valid, [], [], baseTime, lastFrameTime).submitted == [];
  }

  /** One encoding step keeps a drain on course for its outcome, and reports what it sent. */
  lemma EncodeStep(valid: bool, q: seq<VideoFrame>, sendResults: seq<int>, baseTime: int, lastFrameTime: int,
                   sent: seq<SubmittedFrame>, sent0: seq<SubmittedFrame>, total: Drain)
    requires q != [] && DrainRemains(valid, q, sendResults, baseTime, lastFrameTime, sent, sent0, total)
    ensures q[0].VideoFrame? && valid ==>
      var t := FrameTiming(baseTime, lastFrameTime, q[0].startTime, q[0].endTime);
      && DrainRemains(valid, q[1..], sendResults[1..], t.baseTime, t.lastFrameTime, sent + [SubmittedFrame(q[0].id, t.time)], sent0, total)
      && EncodeAll(valid, q, sendResults, baseTime, lastFrameTime).notices
         == [Notice(CDiv(t.time, 1000), SendFailure(sendResults[0]))]
            + EncodeAll(valid, q[1..], sendResults[1..], t.baseTime, t.lastFrameTime).notices
    ensures !(q[0].VideoFrame? && valid) ==>
      && DrainRemains(valid, q[1..], sendResults[1..], baseTime, lastFrameTime, sent, sent0, total)
      && EncodeAll(valid, q, sendResults, baseTime, lastFrameTime).notices
         == EncodeAll(valid, q[1..], sendResults[1..], baseTime, lastFrameTime).notices
  {
    if q[0].VideoFrame? && valid {
      var t := FrameTiming(baseTime, lastFrameTime, q[0].startTime, q[0].endTime);
      var d := EncodeAll(valid, q[1..], sendResults[1..], t.baseTime, t.lastFrameTime);
      assert (sent + [SubmittedFrame(q[0].id, t.time)]) + d.submitted == sent + ([SubmittedFrame(q[0].id, t.time)] + d.submitted);
    }
  }

  /** The ids of the valid frames of a queue, in order. */
  function ValidFrameIds(q: seq<VideoFrame>): seq<nat>
  {
    if q == [] then [] else (if q[0].VideoFrame? then [q[0].id] else []) + ValidFrameIds(q[1..])
  }

  /**
    No frame is lost by the drain: a valid encoder sends every valid queued frame to its
    codec, exactly once and in queue order.
  */
  lemma {:induction false} EncodeAllSendsEveryFrame(q: seq<VideoFrame>, sendResults: seq<int>, baseTime: int, lastFrameTime: int)
    requires |sendResults| == |q|
    ensures SubmittedIds(EncodeAll(true, q, sendResults, baseTime, lastFrameTime).submitted) == ValidFrameIds(q)
    decreases |q|
  {
    if q != [] {
      if q[0].VideoFrame? {
        var t := FrameTiming(baseTime, lastFrameTime, q[0].startTime, q[0].endTime);
        var rest := EncodeAll(true, q[1..], sendResults[1..], t.baseTime, t.lastFrameTime).submitted;
        EncodeAllSendsEveryFrame(q[1..], sendResults[1..], t.baseTime, t.lastFrameTime);
        assert SubmittedIds([SubmittedFrame(q[0].id, t.time)] + rest) == [q[0].id] + SubmittedIds(rest);
      } else {
        EncodeAllSendsEveryFrame(q[1..], sendResults[1..], baseTime, lastFrameTime);
      }
    }
  }

  /** The results of the sends that failed, for the valid frames of a queue, in order. */
  function FailedSends(q: seq<VideoFrame>, sendResults: seq<int>): seq<int>
    requires |sendResults| == |q|
  {
    if q == [] then []
    else (if q[0].VideoFrame? && sendResults[0] < 0 then [sendResults[0]] else []) + FailedSends(q[1..], sendResults[1..])
  }

  /**
    A valid encoder's drain reports the failure of every send that fails, and of no other,
    in queue order; so its Encoder signals exactly those errors.
  */
  lemma {:induction false} EncodeAllReportsFailedSends(q: seq<VideoFrame>, sendResults: seq<int>, baseTime: int, lastFrameTime: int, recorded: int)
    requires |sendResults| == |q|
    ensures FailureCodes(EncodeAll(true, q, sendResults, baseTime, lastFrameTime).notices) == FailedSends(q, sendResults)
    ensures ErrorCodes(Announced(recorded, EncodeAll(true, q, sendResults, baseTime, lastFrameTime).notices).events)
         == FailedSends(q, sendResults)
    decreases |q|
  {
    AnnouncedReportsFailures(recorded, EncodeAll(true, q, sendResults, baseTime, lastFrameTime).notices);
    if q != [] {
      if q[0].VideoFrame? {
        var t := FrameTiming(baseTime, lastFrameTime, q[0].startTime, q[0].endTime);
        EncodeAllReportsFailedSends(q[1..], sendResults[1..], t.baseTime, t.lastFrameTime, recorded);
        var rest := EncodeAll(true, q[1..], sendResults[1..], t.baseTime, t.lastFrameTime).notices;
        assert ([Notice(CDiv(t.time, 1000), SendFailure(sendResults[0]))] + rest)[1..] == rest;
      } else {
        EncodeAllReportsFailedSends(q[1..], sendResults[1..], baseTime, lastFrameTime, recorded);
      }
    }
  }

  /** Each valid frame of a queue stamped with its start time relative to a fixed base. */
  function AnchoredStamps(q: seq<VideoFrame>, baseTime: int): seq<SubmittedFrame>
  {
    if q == [] then []
    else (if q[0].VideoFrame? then [SubmittedFrame(q[0].id, q[0].startTime - baseTime)] else [])
         + AnchoredStamps(q[1..], baseTime)
  }

  /**
    Once anchored (any base but the minimum), the drain keeps its base, and every frame it
    sends is stamped with its start time relative to that base.
  */
  lemma {:induction false} AnchoredDrainKeepsBase(q: seq<VideoFrame>, sendResults: seq<int>, baseTime: int, lastFrameTime: int)
    requires |sendResults| == |q| && baseTime != MinInt64
    ensures EncodeAll(true, q, sendResults, baseTime, lastFrameTime).baseTime == baseTime
    ensures EncodeAll(true, q, sendResults, baseTime, lastFrameTime).submitted == AnchoredStamps(q, baseTime)
    decreases |q|
  {
    if q != [] {
      if q[0].VideoFrame? {
        var t := FrameTiming(baseTime, lastFrameTime, q[0].startTime, q[0].endTime);
        AnchoredDrainKeepsBase(q[1..], sendResults[1..], t.baseTime, t.lastFrameTime);
      } else {
        AnchoredDrainKeepsBase(q[1..], sendResults[1..], baseTime, lastFrameTime);
      }
    }
  }

  /** The packets of several receive loops, in order. */
  function Concat(batches: seq<seq<Packet>>): seq<Packet>
  {
    if batches == [] then [] else Concat(batches[..|batches| - 1]) + batches[|batches| - 1]
  }

  /** The queue after AudioEncoder::addBuffer: only an unpaused encoder queues the buffer. */
  function AudioQueueAfterAddBuffer(paused: bool, q: seq<AudioBuffer>, buffer: AudioBuffer): (r: seq<AudioBuffer>)
    ensures q <= r && |r| <= |q| + 1
    ensures paused <==> r == q
  {
    if paused then q else q + [buffer]
  }

  /** Whether AudioEncoder::loop encodes a buffer it takes: a valid one, taken while not paused. */
  predicate Encodes(paused: bool, buffer: AudioBuffer)
  {
    buffer.AudioBuffer? && !paused
  }

  /**
    The samples AudioEncoder::cleanup counts while it drains the queue: the frames of every
    buffer the loop encodes. A paused drain dequeues and drops every buffer, counting nothing.
  */
  function CountedSamples(paused: bool, q: seq<AudioBuffer>): (r: nat)
    ensures paused ==> r == 0
  {
    if q == [] then 0
    else (if Encodes(paused, q[0]) then q[0].frameCount else 0) + CountedSamples(paused, q[1..])
  }

  /**
    The frames AudioEncoder::cleanup sends to the codec while it drains the queue, starting
    from the sample count `samples`: one per encoded buffer, in queue order, each stamped
    with the samples written before it. A paused drain sends nothing.
  */
  function AudioSubmissions(paused: bool, q: seq<AudioBuffer>, timeBase: Rational, sampleRate: int, samples: nat): (r: seq<SubmittedFrame>)
    requires sampleRate > 0
    ensures |r| <= |q|
    ensures paused ==> r == []
  {
    if q == [] then []
    else if Encodes(paused, q[0]) then
      [SubmittedFrame(q[0].id, AudioPts(timeBase, sampleRate, samples))]
      + AudioSubmissions(paused, q[1..], timeBase, sampleRate, samples + q[0].frameCount)
    else AudioSubmissions(paused, q[1..], timeBase, sampleRate, samples)
  }

  /**
    The packets AudioEncoder::cleanup hands to the muxer while it drains the queue: the
    ready batch of each encoded buffer, stamped with the stream index. A paused drain hands
    over nothing.
  */
  function AudioDrainPackets(paused: bool, q: seq<AudioBuffer>, readies: seq<seq<Packet>>, streamId: int): (r: seq<Packet>)
    requires |readies| == |q|
    ensures paused ==> r == []
  {
    if q == [] then []
    else (if Encodes(paused, q[0]) then Restamp(readies[0], streamId) else [])
         + AudioDrainPackets(paused, q[1..], readies[1..], streamId)
  }

  /**
    What AudioEncoder::cleanup tells the Encoder while it drains the queue, starting from the
    sample count `samples`: for each encoded buffer, the duration of all samples written
    once it is counted, in milliseconds. Audio sends are never reported as failures.
  */
  function AudioNotices(paused: bool, q: seq<AudioBuffer>, durationForFrames: nat -> int, samples: nat): (r: seq<Notice>)
    ensures |r| <= |q|
    ensures paused ==> r == []
    ensures forall i :: 0 <= i < |r| ==> r[i].failure == None
  {
    if q == [] then []
    else if Encodes(paused, q[0]) then
      [Notice(CDiv(durationForFrames(samples + q[0].frameCount), 1000), None)]
      + AudioNotices(paused, q[1..], durationForFrames, samples + q[0].frameCount)
    else AudioNotices(paused, q[1..], durationForFrames, samples)
  }

  /** One loop of the drain counts what it encodes; the rest of the drain counts the rest. */
  lemma CountStep(paused: bool, q: seq<AudioBuffer>)
    requires q != []
    ensures CountedSamples(paused, q) == (if Encodes(paused, q[0]) then q[0].frameCount else 0) + CountedSamples(paused, q[1..])
  {
  }

  /** One loop of the drain sends the frame of the buffer it encodes, before the rest of the drain. */
  lemma SubmitStep(paused: bool, q: seq<AudioBuffer>, timeBase: Rational, sampleRate: int, count: nat, sent: seq<SubmittedFrame>)
    requires q != [] && sampleRate > 0
    ensures Encodes(paused, q[0]) ==>
      (sent + [SubmittedFrame(q[0].id, AudioPts(timeBase, sampleRate, count))])
        + AudioSubmissions(paused, q[1..], timeBase, sampleRate, count + q[0].frameCount)
      == sent + AudioSubmissions(paused, q, timeBase, sampleRate, count)
    ensures !Encodes(paused, q[0]) ==>
      sent + AudioSubmissions(paused, q[1..], timeBase, sampleRate, count) == sent + AudioSubmissions(paused, q, timeBase, sampleRate, count)
  {
    if Encodes(paused, q[0]) {
      var f := SubmittedFrame(q[0].id, AudioPts(timeBase, sampleRate, count));
      var later := AudioSubmissions(paused, q[1..], timeBase, sampleRate, count + q[0].frameCount);
      assert (sent + [f]) + later == sent + ([f] + later);
    }
  }

  /**
    One loop of the drain that encodes a buffer tells the Encoder the new duration, and the
    rest of the drain tells it the rest; one that does not encode tells it nothing.
  */
  lemma NoticeStep(paused: bool, q: seq<AudioBuffer>, durationForFrames: nat -> int, count: nat,
                   recorded: int, events: seq<Event>, events0: seq<Event>, goal: Stamps)
    requires q != []
    requires AnnouncementsRemain(recorded, events, AudioNotices(paused, q, durationForFrames, count), events0, goal)
    ensures Encodes(paused, q[0]) ==>
      var ms := CDiv(durationForFrames(count + q[0].frameCount), 1000);
      AnnouncementsRemain(Max(recorded, ms), events + StampEvents(recorded, ms),
        AudioNotices(paused, q[1..], durationForFrames, count + q[0].frameCount), events0, goal)
    ensures !Encodes(paused, q[0]) ==>
      AnnouncementsRemain(recorded, events, AudioNotices(paused, q[1..], durationForFrames, count), events0, goal)
  {
    if Encodes(paused, q[0]) {
      var ms := CDiv(durationForFrames(count + q[0].frameCount), 1000);
      AnnounceStep(recorded, events, AudioNotices(paused, q, durationForFrames, count), events0, goal);
      assert NoticeEvents(recorded, Notice(ms, None)) == StampEvents(recorded, ms);
    }
  }

  /** One loop of the drain muxes the batch of the buffer it encodes, before the rest of the drain. */
  lemma MuxStep(paused: bool, q: seq<AudioBuffer>, readies: seq<seq<Packet>>, streamId: int, muxed: seq<Packet>)
    requires q != [] && |readies| == |q|
    ensures Encodes(paused, q[0]) ==>
      (muxed + Restamp(readies[0], streamId)) + AudioDrainPackets(paused, q[1..], readies[1..], streamId)
      == muxed + AudioDrainPackets(paused, q, readies, streamId)
    ensures !Encodes(paused, q[0]) ==>
      muxed + AudioDrainPackets(paused, q[1..], readies[1..], streamId) == muxed + AudioDrainPackets(paused, q, readies, streamId)
  {
    var rest := AudioDrainPackets(paused, q[1..], readies[1..], streamId);
    if Encodes(paused, q[0]) {
      assert (muxed + Restamp(readies[0], streamId)) + rest == muxed + (Restamp(readies[0], streamId) + rest);
    } else {
      assert [] + rest == rest;
    }
  }

  /** The ids of the frames sent to a codec, in order. */
  function SubmittedIds(fs: seq<SubmittedFrame>): seq<nat>
  {
    seq(|fs|, k requires 0 <= k < |fs| => fs[k].id)
  }

  /** The ids of the valid buffers of a queue, in order. */
  function ValidBufferIds(q: seq<AudioBuffer>): seq<nat>
  {
    if q == [] then [] else (if q[0].AudioBuffer? then [q[0].id] else []) + ValidBufferIds(q[1..])
  }

  /**
    No audio is lost by an unpaused drain: every valid buffer still queued reaches the
    codec, exactly once and in queue order.
  */
  lemma {:induction false} UnpausedAudioLoopsCountAll(q: seq<AudioBuffer>, timeBase: Rational, sampleRate: int, samples: nat)
    requires sampleRate > 0
    ensures SubmittedIds(AudioSubmissions(false, q, timeBase, sampleRate, samples)) == ValidBufferIds(q)
    decreases |q|
  {
    if q != [] {
      if q[0].AudioBuffer? {
        var rest := AudioSubmissions(false, q[1..], timeBase, sampleRate, samples + q[0].frameCount);
        UnpausedAudioLoopsCountAll(q[1..], timeBase, sampleRate, samples + q[0].frameCount);
        assert SubmittedIds([SubmittedFrame(q[0].id, AudioPts(timeBase, sampleRate, samples))] + rest)
            == [q[0].id] + SubmittedIds(rest);
      } else {
        UnpausedAudioLoopsCountAll(q[1..], timeBase, sampleRate, samples);
      }
    }
  }

  /**
    With the time base the encoder asks for, 1/sampleRate, an unpaused drain continues the
    stream without a gap: its first frame is stamped with the samples already written.
  */
  lemma {:induction false} UnpausedAudioPtsStartAtCount(q: seq<AudioBuffer>, sampleRate: int, samples: nat)
    requires sampleRate > 0
    ensures var subs := AudioSubmissions(false, q, Rational(1, sampleRate), sampleRate, samples);
      subs != [] ==> subs[0].pts == samples
    decreases |q|
  {
    if q != [] {
      if q[0].AudioBuffer? {
        AudioPtsCountsSamples(sampleRate, samples);
      } else {
        UnpausedAudioPtsStartAtCount(q[1..], sampleRate, samples);
      }
    }
  }

  // ---------------------------------------------------------------------------
  // Codec choices

  /** AV_SAMPLE_FMT_NONE, which ends the codec's list of sample formats. */
  const SampleFmtNone: int := -1

  /** AV_PIX_FMT_NONE. */
  const PixFmtNone: int := -1

  /** The position of the NONE terminator in a codec's sample-format list. */
  function NoneIndex(s: seq<int>): (k: nat)
    requires SampleFmtNone in s
    ensures k < |s| && s[k] == SampleFmtNone && SampleFmtNone !in s[..k]
  {
    if s[0] == SampleFmtNone then 0
    else
      assert s == [s[0]] + s[1..];
      var k := 1 + NoneIndex(s[1..]);
      assert s[..k] == [s[0]] + s[1..][..k - 1];
      k
  }

  /**
    The sample format bestMatchingSampleFormat settles on: without a list, the requested
    format; otherwise, among the formats before NONE, the requested one if listed, else its
    planar variant (planarOf stands for av_get_planar_sample_fmt) if listed, else the list's
    first entry.
  */
  predicate IsBestMatch(requested: int, available: Option<seq<int>>, planarOf: int -> int, best: int)
    requires available.Some? ==> SampleFmtNone in available.value
  {
    && (available.None? ==> best == requested)
    && (available.Some? ==>
      var listed := available.value[..NoneIndex(available.value)];
      && (requested in listed ==> best == requested)
      && (requested !in listed && planarOf(requested) in listed ==> best == planarOf(requested))
      && (requested !in listed && planarOf(requested) !in listed ==> best == available.value[0]))
  }

  /** bestMatchingSampleFormat: a walk over the codec's list up to NONE. */
  method BestMatchingSampleFormat(requested: int, available: Option<seq<int>>, planarOf: int -> int) returns (best: int)
    requires available.Some? ==> SampleFmtNone in available.value
    ensures IsBestMatch(requested, available, planarOf, best)
  {
    if available.None? {
      return requested;
    }
    var formats := available.value;
    var n := NoneIndex(formats);
    best := formats[0];
    var f := 0;
    while formats[f] != SampleFmtNone
      invariant 0 <= f <= n
      invariant requested !in formats[..f]
      invariant planarOf(requested) in formats[..f] ==> best == planarOf(requested)
      invariant planarOf(requested) !in formats[..f] ==> best == formats[0]
      decreases n - f
    {
      assert formats[..f + 1] == formats[..f] + [formats[f]];
      if formats[f] == requested {
        best := formats[f];
        break;
      }
      if planarOf(requested) == formats[f] {
        best := formats[f];
      }
      f := f + 1;
    }
  }

  /** The pixel format a VideoEncoder encodes from: a hardware format other than NONE wins. */
  function EncoderPixelFormat(hwFormat: Option<int>, swFormat: int): int
  {
    if hwFormat.Some? && hwFormat.value != PixFmtNone then hwFormat.value else swFormat
  }

  /**
    The encoder always works from one of the formats it was offered; it ends up with NONE
    only when neither side offers a format; and a hardware format of NONE counts as no
    hardware format at all.
  */
  lemma EncoderPixelFormatChoice(hwFormat: Option<int>, swFormat: int)
    ensures var f := EncoderPixelFormat(hwFormat, swFormat);
      && (f == swFormat || (hwFormat.Some? && f == hwFormat.value))
      && (f == PixFmtNone <==> swFormat == PixFmtNone && (hwFormat.None? || hwFormat.value == PixFmtNone))
      && (hwFormat == Some(PixFmtNone) ==> f == EncoderPixelFormat(None, swFormat))
  {
  }

  /** The frame rate a VideoEncoder uses: always positive, 30 in place of a non-positive rate. */
  function EncoderFrameRate(rate: real): (r: real)
    ensures r > 0.0
    ensures rate > 0.0 ==> r == rate
    ensures rate <= 0.0 ==> r == 30.0
  {
    if rate <= 0.0 then 30.0 else rate
  }

  // ---------------------------------------------------------------------------
  // Start and finalize

  /** The start events of the valid video encoders, by index. */
  function VideoStarts(vs: seq<VideoEncoder>): (es: seq<Event>)
    ensures |es| <= |vs|
    ensures (forall i :: 0 <= i < |vs| ==> vs[i].valid) ==>
      |es| == |vs| && forall i :: 0 <= i < |vs| ==> es[i] == ThreadStarted(VideoThread(i))
  {
    if vs == [] then []
    else VideoStarts(vs[..|vs| - 1]) + (if vs[|vs| - 1].valid then [ThreadStarted(VideoThread(|vs| - 1))] else [])
  }

  /** The disconnections finalize performs, in list order. */
  function Disconnections(cs: seq<nat>): seq<Event>
  {
    seq(|cs|, i requires 0 <= i < |cs| => Disconnected(cs[i]))
  }

  /** The kills of the video encoders, in list order. */
  function VideoKills(n: nat): seq<Event>
  {
    seq(n, i requires 0 <= i < n => ThreadKilled(VideoThread(i)))
  }

  /** What EncodingFinalizer::run does, in order. */
  function FinalizerEvents(hasAudio: bool, videoCount: nat, trailerOk: bool): (es: seq<Event>)
    ensures |es| == (if hasAudio then 1 else 0) + videoCount + 3
    ensures es[|es| - 1] == FinalizationDone
  {
    (if hasAudio then [ThreadKilled(AudioThread)] else [])
    + VideoKills(videoCount)
    + [ThreadKilled(MuxerThread), TrailerWritten(trailerOk), FinalizationDone]
  }

  /**
    The finalizer kills the audio encoder first, then every video encoder in list order,
    then the muxer, and only then writes the trailer and signals completion, exactly once.
  */
  lemma FinalizerOrder(hasAudio: bool, videoCount: nat, trailerOk: bool)
    ensures var es := FinalizerEvents(hasAudio, videoCount, trailerOk);
      var a := if hasAudio then 1 else 0;
      && |es| == a + videoCount + 3
      && (hasAudio ==> es[0] == ThreadKilled(AudioThread))
      && (forall i :: 0 <= i < videoCount ==> es[a + i] == ThreadKilled(VideoThread(i)))
      && es[a + videoCount] == ThreadKilled(MuxerThread)
      && es[a + videoCount + 1] == TrailerWritten(trailerOk)
      && es[a + videoCount + 2] == FinalizationDone
      && (forall i :: 0 <= i < |es| && es[i] == FinalizationDone ==> i == |es| - 1)
  {
  }

  // ---------------------------------------------------------------------------
  // The objects

  /** The Muxer thread's state: its packet queue and what it has written so far. */
  class Muxer {
    var packetQueue: seq<Packet>
    var written: seq<Option<Packet>>

    constructor ()
      ensures packetQueue == [] && written == []
    {
      packetQueue := [];
      written := [];
    }

    /** Muxer::addPacket: the packet joins the back of the queue. */
    method AddPacket(packet: Packet)
      modifies this`packetQueue
      ensures packetQueue == old(packetQueue) + [packet]
    {
      packetQueue := packetQueue + [packet];
    }

    /** Muxer::takePacket: the front packet, or null (None) when the queue is empty. */
    method TakePacket() returns (packet: Option<Packet>)
      modifies this`packetQueue
      ensures packet.None? <==> old(packetQueue) == []
      ensures packet.Some? ==> packet.value == old(packetQueue)[0]
      ensures packetQueue == Dequeued(old(packetQueue))
    {
      if packetQueue == [] {
        return None;
      }
      packet := Some(packetQueue[0]);
      packetQueue := packetQueue[1..];
    }

    /** Muxer::shouldWait: the thread sleeps exactly when there is nothing to write. */
    function ShouldWait(): (wait: bool)
      reads this
      ensures wait <==> packetQueue == []
    {
      |packetQueue| == 0
    }

    /** Muxer::loop: write the front packet, or a null packet (a flush) when there is none. */
    method Loop()
      modifies this
      ensures packetQueue == Dequeued(old(packetQueue))
      ensures written == old(written) + [if old(packetQueue) == [] then None else Some(old(packetQueue)[0])]
    {
      var packet := TakePacket();
      written := written + [packet];
    }
  }

  /**
    A muxer fed a run of packets and then looped once more than it holds writes them in the
    order they were added, then a null packet.
  */
  method MuxInOrder(packets: seq<Packet>) returns (written: seq<Option<Packet>>, waits: bool)
    ensures written == Written(packets) + [None]
    ensures waits
  {
    var muxer := new Muxer();
    var i := 0;
    while i < |packets|
      invariant 0 <= i <= |packets|
      invariant muxer.packetQueue == packets[..i] && muxer.written == []
    {
      muxer.AddPacket(packets[i]);
      assert packets[..i + 1] == packets[..i] + [packets[i]];
      i := i + 1;
    }
    i := 0;
    while i < |packets|
      invariant 0 <= i <= |packets|
      invariant muxer.packetQueue == packets[i..] && muxer.written == Written(packets[..i])
    {
      muxer.Loop();
      assert Written(packets[..i + 1]) == Written(packets[..i]) + [Some(packets[i])];
      i := i + 1;
    }
    assert packets[..|packets|] == packets;
    muxer.Loop();
    written := muxer.written;
    waits := muxer.ShouldWait();
  }

  /** The recording session: its workers, its connections and its observable effects. */
  class Encoder {
    const muxer: Muxer
    var isRecording: bool
    var audioEncode: AudioEncoder?
    var videoEncoders: seq<VideoEncoder>
    /** The source connections, parallel to videoEncoders. */
    var connections: seq<nat>
    var timeRecorded: int
    var events: seq<Event>

    /** Every worker belongs to this encoder, every video encoder is valid and listed once. */
    predicate Valid()
      reads this
    {
      && (audioEncode != null ==> audioEncode.encoder == this)
      && (forall i :: 0 <= i < |videoEncoders| ==> videoEncoders[i].encoder == this && videoEncoders[i].valid)
      && Distinct(videoEncoders)
      && |connections| == |videoEncoders|
    }

    /** Encoder::Encoder: not recording, nothing recorded, no workers but the muxer. */
    constructor ()
      ensures Valid()
      ensures fresh(muxer) && muxer.packetQueue == [] && muxer.written == []
      ensures !isRecording && timeRecorded == 0
      ensures audioEncode == null && videoEncoders == [] && connections == [] && events == []
    {
      muxer := new Muxer();
      isRecording := false;
      audioEncode := null;
      videoEncoders := [];
      connections := [];
      timeRecorded := 0;
      events := [];
    }

    /** Encoder::addAudioInput: a new audio encoder replaces the pointer. */
    method AddAudioInput(format: AudioInputFormat, available: Option<seq<int>>, planarOf: int -> int,
                         durationForFrames: nat -> int, streamId: nat)
      requires Valid()
      requires available.Some? ==> SampleFmtNone in available.value
      modifies this`audioEncode
      ensures Valid()
      ensures audioEncode != null && fresh(audioEncode)
      ensures audioEncode.format == format && audioEncode.streamId == streamId
      ensures audioEncode.audioBufferQueue == [] && !audioEncode.paused && audioEncode.samplesWritten == 0
    {
      audioEncode := new AudioEncoder(this, format, available, planarOf, durationForFrames, streamId);
    }

    /**
      Encoder::addVideoSource: a source with an invalid frame format is ignored; otherwise a
      video encoder is built and, if its frame encoder is valid, appended with its connection.
    */
    method AddVideoSource(source: VideoSource, connection: nat, frameEncoderValid: bool)
      requires Valid()
      modifies this`videoEncoders, this`connections
      ensures Valid()
      ensures !source.format.valid || !frameEncoderValid ==>
        videoEncoders == old(videoEncoders) && connections == old(connections)
      ensures source.format.valid && frameEncoderValid ==>
        && |videoEncoders| == |old(videoEncoders)| + 1
        && videoEncoders[..|old(videoEncoders)|] == old(videoEncoders)
        && connections == old(connections) + [connection]
      ensures source.format.valid && frameEncoderValid ==>
        var ve := videoEncoders[|videoEncoders| - 1];
        && fresh(ve)
        && ve.pixelFormat == EncoderPixelFormat(source.hwPixelFormat, source.format.avPixelFormat)
        && ve.frameRate == EncoderFrameRate(source.format.frameRate)
        && ve.videoFrameQueue == [] && !ve.paused
        && ve.baseTime == MinInt64 && ve.lastFrameTime == 0
    {
      if !source.format.valid {
        return;
      }
      var ve := new VideoEncoder(this, source.format, source.hwPixelFormat, frameEncoderValid);
      if ve.valid {
        videoEncoders := videoEncoders + [ve];
        connections := connections + [connection];
      }
    }

    /**
      Encoder::start: a failed header write emits one error and starts nothing; otherwise
      the muxer, the audio encoder and every valid video encoder start, in that order, and
      recording begins.
    */
    method Start(headerResult: int)
      requires Valid()
      modifies this`isRecording, this`events
      ensures headerResult < 0 ==>
        && events == old(events) + [ResourceError(Text("Cannot start writing the stream"))]
        && isRecording == old(isRecording)
      ensures headerResult >= 0 ==>
        && events == old(events) + [ThreadStarted(MuxerThread)]
                    + (if audioEncode != null then [ThreadStarted(AudioThread)] else [])
                    + VideoStarts(videoEncoders)
        && isRecording
    {
      if headerResult < 0 {
        EmitError(Text("Cannot start writing the stream"));
        return;
      }
      events := events + [ThreadStarted(MuxerThread)];
      if audioEncode != null {
        events := events + [ThreadStarted(AudioThread)];
      }
      ghost var before := events;
      var i := 0;
      while i < |videoEncoders|
        invariant 0 <= i <= |videoEncoders|
        invariant events == before + VideoStarts(videoEncoders[..i])
      {
        assert videoEncoders[..i + 1][..i] == videoEncoders[..i];
        if videoEncoders[i].valid {
          events := events + [ThreadStarted(VideoThread(i))];
        }
        i := i + 1;
      }
      assert videoEncoders[..i] == videoEncoders;
      isRecording := true;
    }

    /** Encoder::finalize: disconnect every source in order, then start the finalizer. */
    method Finalize() returns (finalizer: EncodingFinalizer)
      modifies this`events
      ensures fresh(finalizer) && finalizer.encoder == this
      ensures events == old(events) + Disconnections(connections) + [FinalizerStarted]
    {
      var i := 0;
      while i < |connections|
        invariant 0 <= i <= |connections|
        invariant events == old(events) + Disconnections(connections[..i])
      {
        events := events + [Disconnected(connections[i])];
        i := i + 1;
        assert Disconnections(connections[..i]) == Disconnections(connections[..i - 1]) + [Disconnected(connections[i - 1])];
      }
      assert connections[..i] == connections;
      finalizer := new EncodingFinalizer(this);
      events := events + [FinalizerStarted];
    }

    /** Encoder::setPaused: every worker gets the same pause state, and nothing else changes. */
    method SetPaused(p: bool)
      requires Valid()
      modifies (if audioEncode != null then {audioEncode} else {})`paused, videoEncoders`paused, videoEncoders`baseTime
      ensures audioEncode != null ==> audioEncode.paused == p
      ensures audioEncode != null ==> audioEncode.audioBufferQueue == old(audioEncode.audioBufferQueue)
      ensures audioEncode != null ==> audioEncode.samplesWritten == old(audioEncode.samplesWritten)
      ensures forall i :: 0 <= i < |videoEncoders| ==>
        && videoEncoders[i].paused == p
        && videoEncoders[i].baseTime == (if p then -1 else old(videoEncoders[i].baseTime))
        && videoEncoders[i].videoFrameQueue == old(videoEncoders[i].videoFrameQueue)
        && videoEncoders[i].lastFrameTime == old(videoEncoders[i].lastFrameTime)
    {
      if audioEncode != null {
        audioEncode.SetPaused(p);
      }
      var i := 0;
      while i < |videoEncoders|
        invariant 0 <= i <= |videoEncoders|
        invariant audioEncode != null ==> audioEncode.paused == p
        invariant audioEncode != null ==> audioEncode.audioBufferQueue == old(audioEncode.audioBufferQueue)
        invariant audioEncode != null ==> audioEncode.samplesWritten == old(audioEncode.samplesWritten)
        invariant forall j :: 0 <= j < i ==>
          && videoEncoders[j].paused == p
          && videoEncoders[j].baseTime == (if p then -1 else old(videoEncoders[j].baseTime))
        invariant forall j :: 0 <= j < |videoEncoders| ==>
          && videoEncoders[j].videoFrameQueue == old(videoEncoders[j].videoFrameQueue)
          && videoEncoders[j].lastFrameTime == old(videoEncoders[j].lastFrameTime)
        invariant forall j :: i <= j < |videoEncoders| ==> videoEncoders[j].baseTime == old(videoEncoders[j].baseTime)
      {
        videoEncoders[i].SetPaused(p);
        i := i + 1;
      }
    }

    /** Encoder::newAudioBuffer: forwarded only to an existing audio encoder while recording. */
    method NewAudioBuffer(buffer: AudioBuffer)
      modifies (if audioEncode != null then {audioEncode} else {})`audioBufferQueue
      ensures audioEncode != null ==>
        audioEncode.audioBufferQueue ==
          (if isRecording then AudioQueueAfterAddBuffer(audioEncode.paused, old(audioEncode.audioBufferQueue), buffer)
           else old(audioEncode.audioBufferQueue))
      ensures audioEncode != null ==> unchanged(audioEncode`paused, audioEncode`samplesWritten)
    {
      if audioEncode != null && isRecording {
        audioEncode.AddBuffer(buffer);
      }
    }

    /**
      Encoder::newTimeStamp: a strictly later time becomes the recorded duration and is
      signalled; an earlier or equal one changes nothing, so the duration never decreases.
    */
    method NewTimeStamp(time: int)
      modifies this`timeRecorded, this`events
      ensures timeRecorded == Max(old(timeRecorded), time)
      ensures timeRecorded >= old(timeRecorded)
      ensures events == old(events) + StampEvents(old(timeRecorded), time)
    {
      if time > timeRecorded {
        timeRecorded := time;
        events := events + [DurationChanged(time)];
      }
    }

    /** Emitting the error signal with QMediaRecorder::ResourceError. */
    method EmitError(description: ErrorDescription)
      modifies this`events
      ensures events == old(events) + [ResourceError(description)]
    {
      events := events + [ResourceError(description)];
    }
  }

  /** The thread that tears a recording down. */
  class EncodingFinalizer {
    const encoder: Encoder

    constructor (encoder: Encoder)
      ensures this.encoder == encoder
    {
      this.encoder := encoder;
    }

    /** EncodingFinalizer::run; trailerResult is what av_write_trailer returns. */
    method Run(trailerResult: int)
      modifies encoder`events
      ensures encoder.events == old(encoder.events)
        + FinalizerEvents(encoder.audioEncode != null, |encoder.videoEncoders|, trailerResult >= 0)
    {
      if encoder.audioEncode != null {
        encoder.events := encoder.events + [ThreadKilled(AudioThread)];
      }
      ghost var before := encoder.events;
      var i := 0;
      while i < |encoder.videoEncoders|
        invariant 0 <= i <= |encoder.videoEncoders|
        invariant encoder.events == before + VideoKills(i)
      {
        encoder.events := encoder.events + [ThreadKilled(VideoThread(i))];
        i := i + 1;
        assert VideoKills(i) == VideoKills(i - 1) + [ThreadKilled(VideoThread(i - 1))];
      }
      encoder.events := encoder.events + [ThreadKilled(MuxerThread)];
      encoder.events := encoder.events + [TrailerWritten(trailerResult >= 0)];
      encoder.events := encoder.events + [FinalizationDone];
    }
  }

  /** The audio encoding thread. */
  class AudioEncoder {
    const encoder: Encoder
    const format: AudioInputFormat
    /** The index avformat_new_stream gave the audio stream. */
    const streamId: nat
    /** The sample format the stream is declared with. */
    const streamSampleFormat: int
    /** QAudioFormat::durationForFrames of the input format (microseconds). */
    const durationForFrames: nat -> int

    var paused: bool
    var audioBufferQueue: seq<AudioBuffer>
    var samplesWritten: nat
    /** The stream time base: 1/sampleRate as declared, whatever the header write left. */
    var timeBase: Rational
    var codecOpen: bool
    var codecSampleRate: int
    /** Whether a resampler converts from the input's sample format. */
    var resampling: bool
    var submitted: seq<SubmittedFrame>

    /** The codec is open with a usable sample rate, as init() leaves it before any loop. */
    predicate Ready()
      reads this
    {
      codecOpen && codecSampleRate > 0
    }

    /**
      AudioEncoder::AudioEncoder: the stream takes the best matching sample format among
      those the codec lists (`available`, None for a codec without a list).
    */
    constructor (encoder: Encoder, format: AudioInputFormat, available: Option<seq<int>>, planarOf: int -> int,
                 durationForFrames: nat -> int, streamId: nat)
      requires available.Some? ==> SampleFmtNone in available.value
      ensures this.encoder == encoder && this.format == format && this.streamId == streamId
      ensures this.durationForFrames == durationForFrames
      ensures IsBestMatch(format.avSampleFormat, available, planarOf, streamSampleFormat)
      ensures timeBase == Rational(1, format.sampleRate)
      ensures !paused && audioBufferQueue == [] && samplesWritten == 0 && submitted == []
      ensures !codecOpen
    {
      this.encoder := encoder;
      this.format := format;
      this.streamId := streamId;
      this.durationForFrames := durationForFrames;
      var best := BestMatchingSampleFormat(format.avSampleFormat, available, planarOf);
      streamSampleFormat := best;
      paused := false;
      audioBufferQueue := [];
      samplesWritten := 0;
      timeBase := Rational(1, format.sampleRate);
      codecOpen := false;
      codecSampleRate := 0;
      resampling := false;
      submitted := [];
    }

    /**
      AudioEncoder::open: the codec takes the stream's time base as the header write left it,
      and the stream's parameters: its sample format and the input's sample rate. A
      resampler is needed when that sample format differs from the input's.
    */
    method Open(headerTimeBase: Rational)
      requires format.sampleRate > 0
      modifies this`timeBase, this`codecOpen, this`codecSampleRate, this`resampling
      ensures Ready()
      ensures timeBase == headerTimeBase && codecSampleRate == format.sampleRate
      ensures resampling <==> streamSampleFormat != format.avSampleFormat
    {
      timeBase := headerTimeBase;
      codecOpen := true;
      codecSampleRate := format.sampleRate;
      resampling := streamSampleFormat != format.avSampleFormat;
    }

    /** EncoderThread::setPaused: only the pause flag changes. */
    method SetPaused(b: bool)
      modifies this`paused
      ensures paused == b
    {
      paused := b;
    }

    /** AudioEncoder::addBuffer: the buffer joins the back of the queue unless paused. */
    method AddBuffer(buffer: AudioBuffer)
      modifies this`audioBufferQueue
      ensures audioBufferQueue == AudioQueueAfterAddBuffer(paused, old(audioBufferQueue), buffer)
    {
      if !paused {
        audioBufferQueue := audioBufferQueue + [buffer];
      }
    }

    /** AudioEncoder::takeBuffer: the front buffer, or an invalid one when the queue is empty. */
    method TakeBuffer() returns (buffer: AudioBuffer)
      modifies this`audioBufferQueue
      ensures buffer == (if old(audioBufferQueue) == [] then InvalidBuffer else old(audioBufferQueue)[0])
      ensures audioBufferQueue == Dequeued(old(audioBufferQueue))
    {
      if audioBufferQueue == [] {
        return InvalidBuffer;
      }
      buffer := audioBufferQueue[0];
      audioBufferQueue := audioBufferQueue[1..];
    }

    /** AudioEncoder::shouldWait. */
    function ShouldWait(): (wait: bool)
      reads this
      ensures wait <==> audioBufferQueue == []
    {
      |audioBufferQueue| == 0
    }

    /** AudioEncoder::retrievePackets: the codec's ready packets go to the muxer on this stream. */
    method RetrievePackets(ready: seq<Packet>)
      modifies encoder.muxer`packetQueue
      ensures encoder.muxer.packetQueue == old(encoder.muxer.packetQueue) + Restamp(ready, streamId)
    {
      var i := 0;
      while i < |ready|
        invariant 0 <= i <= |ready|
        invariant encoder.muxer.packetQueue == old(encoder.muxer.packetQueue) + Restamp(ready[..i], streamId)
      {
        encoder.muxer.AddPacket(Packet(ready[i].payload, streamId));
        i := i + 1;
        assert Restamp(ready[..i], streamId) == Restamp(ready[..i - 1], streamId) + [Packet(ready[i - 1].payload, streamId)];
      }
      assert ready[..i] == ready;
    }

    /**
      AudioEncoder::loop: take a buffer; an invalid one, or any while paused, is dropped.
      Otherwise the ready packets go to the muxer, the frame is stamped with the samples
      written so far, the count grows by the buffer's frames and the encoder hears the new
      duration in milliseconds.
    */
    method Loop(ready: seq<Packet>)
      requires Ready()
      modifies this`audioBufferQueue, this`samplesWritten, this`submitted
      modifies encoder.muxer`packetQueue, encoder`timeRecorded, encoder`events
      ensures audioBufferQueue == Dequeued(old(audioBufferQueue))
      ensures samplesWritten >= old(samplesWritten)
      ensures encoder.timeRecorded >= old(encoder.timeRecorded)
      ensures var processed := old(audioBufferQueue) != [] && Encodes(paused, old(audioBufferQueue)[0]);
        !processed ==> unchanged(this`samplesWritten, this`submitted, encoder.muxer`packetQueue, encoder`timeRecorded, encoder`events)
      ensures var processed := old(audioBufferQueue) != [] && Encodes(paused, old(audioBufferQueue)[0]);
        processed ==>
          var buffer := old(audioBufferQueue)[0];
          var time := CDiv(durationForFrames(samplesWritten), 1000);
          && encoder.muxer.packetQueue == old(encoder.muxer.packetQueue) + Restamp(ready, streamId)
          && submitted == old(submitted) + [SubmittedFrame(buffer.id, AudioPts(timeBase, codecSampleRate, old(samplesWritten)))]
          && samplesWritten == old(samplesWritten) + buffer.frameCount
          && encoder.timeRecorded == Max(old(encoder.timeRecorded), time)
          && encoder.events == old(encoder.events) + StampEvents(old(encoder.timeRecorded), time)
    {
      var buffer := TakeBuffer();
      if !buffer.AudioBuffer? || paused {
        return;
      }
      RetrievePackets(ready);
      var pts := AudioPts(timeBase, codecSampleRate, samplesWritten);
      submitted := submitted + [SubmittedFrame(buffer.id, pts)];
      samplesWritten := samplesWritten + buffer.frameCount;
      var time := durationForFrames(samplesWritten);
      encoder.NewTimeStamp(CDiv(time, 1000));
    }

    /**
      One loop of a drain that is on course for the sample count `countGoal`, the frames
      `sentGoal`, the muxer queue `muxGoal` and the Encoder state `goal` after `events0`.
    */
    method DrainStep(ready: seq<Packet>, ghost readies: seq<seq<Packet>>, ghost countGoal: int, ghost sentGoal: seq<SubmittedFrame>,
                     ghost muxGoal: seq<Packet>, ghost events0: seq<Event>, ghost goal: Stamps)
      requires Ready()
      requires audioBufferQueue != [] && |readies| == |audioBufferQueue| && readies[0] == ready
      requires samplesWritten + CountedSamples(paused, audioBufferQueue) == countGoal
      requires submitted + AudioSubmissions(paused, audioBufferQueue, timeBase, codecSampleRate, samplesWritten) == sentGoal
      requires encoder.muxer.packetQueue + AudioDrainPackets(paused, audioBufferQueue, readies, streamId) == muxGoal
      requires AnnouncementsRemain(encoder.timeRecorded, encoder.events,
                 AudioNotices(paused, audioBufferQueue, durationForFrames, samplesWritten), events0, goal)
      modifies this`audioBufferQueue, this`samplesWritten, this`submitted
      modifies encoder.muxer`packetQueue, encoder`timeRecorded, encoder`events
      ensures audioBufferQueue == old(audioBufferQueue)[1..]
      ensures samplesWritten + CountedSamples(paused, audioBufferQueue) == countGoal
      ensures submitted + AudioSubmissions(paused, audioBufferQueue, timeBase, codecSampleRate, samplesWritten) == sentGoal
      ensures encoder.muxer.packetQueue + AudioDrainPackets(paused, audioBufferQueue, readies[1..], streamId) == muxGoal
      ensures AnnouncementsRemain(encoder.timeRecorded, encoder.events,
                AudioNotices(paused, audioBufferQueue, durationForFrames, samplesWritten), events0, goal)
      ensures encoder.timeRecorded >= old(encoder.timeRecorded)
    {
      ghost var q, sent, count, muxed := audioBufferQueue, submitted, samplesWritten, encoder.muxer.packetQueue;
      CountStep(paused, q);
      SubmitStep(paused, q, timeBase, codecSampleRate, count, sent);
      MuxStep(paused, q, readies, streamId, muxed);
      NoticeStep(paused, q, durationForFrames, count, encoder.timeRecorded, encoder.events, events0, goal);
      Loop(ready);
    }

    /**
      AudioEncoder::cleanup: run the loop until the queue is empty (one batch of ready
      packets per queued buffer), then hand the flushed packets to the muxer. Every valid
      buffer is encoded and counted unless the encoder is paused, in which case the loop
      drops them all. The Encoder hears the duration after each encoded buffer.
    */
    method Cleanup(drainReady: seq<seq<Packet>>, flushed: seq<Packet>)
      requires Ready()
      requires |drainReady| == |audioBufferQueue|
      modifies this`audioBufferQueue, this`samplesWritten, this`submitted
      modifies encoder.muxer`packetQueue, encoder`timeRecorded, encoder`events
      ensures audioBufferQueue == []
      ensures samplesWritten == old(samplesWritten) + CountedSamples(paused, old(audioBufferQueue))
      ensures submitted == old(submitted)
        + AudioSubmissions(paused, old(audioBufferQueue), timeBase, codecSampleRate, old(samplesWritten))
      ensures encoder.muxer.packetQueue == old(encoder.muxer.packetQueue)
        + AudioDrainPackets(paused, old(audioBufferQueue), drainReady, streamId) + Restamp(flushed, streamId)
      ensures encoder.timeRecorded >= old(encoder.timeRecorded)
      ensures var a := Announced(old(encoder.timeRecorded), AudioNotices(paused, old(audioBufferQueue), durationForFrames, old(samplesWritten)));
        encoder.timeRecorded == a.recorded && encoder.events == old(encoder.events) + a.events
    {
      ghost var countGoal := samplesWritten + CountedSamples(paused, audioBufferQueue);
      ghost var sentGoal := submitted + AudioSubmissions(paused, audioBufferQueue, timeBase, codecSampleRate, samplesWritten);
      ghost var muxGoal := encoder.muxer.packetQueue + AudioDrainPackets(paused, audioBufferQueue, drainReady, streamId);
      ghost var goal := Announced(encoder.timeRecorded, AudioNotices(paused, audioBufferQueue, durationForFrames, samplesWritten));
      var k := 0;
      while audioBufferQueue != []
        invariant 0 <= k <= |drainReady|
        invariant k + |audioBufferQueue| == |drainReady|
        invariant samplesWritten + CountedSamples(paused, audioBufferQueue) == countGoal
        invariant submitted + AudioSubmissions(paused, audioBufferQueue, timeBase, codecSampleRate, samplesWritten) == sentGoal
        invariant encoder.muxer.packetQueue + AudioDrainPackets(paused, audioBufferQueue, drainReady[k..], streamId) == muxGoal
        invariant AnnouncementsRemain(encoder.timeRecorded, encoder.events,
                    AudioNotices(paused, audioBufferQueue, durationForFrames, samplesWritten), old(encoder.events), goal)
        invariant encoder.timeRecorded >= old(encoder.timeRecorded)
        decreases |audioBufferQueue|
      {
        DrainStep(drainReady[k], drainReady[k..], countGoal, sentGoal, muxGoal, old(encoder.events), goal);
        assert drainReady[k..][1..] == drainReady[k + 1..];
        k := k + 1;
      }
      RetrievePackets(flushed);
    }
  }

  /** A video encoding thread. */
  class VideoEncoder {
    const encoder: Encoder
    /** The pixel format frames are encoded from. */
    const pixelFormat: int
    const frameRate: real
    /** Whether the frame encoder could be set up (VideoEncoder::isValid). */
    const valid: bool

    var paused: bool
    var videoFrameQueue: seq<VideoFrame>
    var baseTime: int
    var lastFrameTime: int
    var submitted: seq<SubmittedFrame>

    /** The queue never holds more than its capacity. */
    predicate Valid()
      reads this
    {
      |videoFrameQueue| <= MaxQueueSize
    }

    /**
      VideoEncoder::VideoEncoder: a hardware pixel format other than NONE is preferred to the
      software one, and a non-positive frame rate becomes 30.
    */
    constructor (encoder: Encoder, format: VideoFrameFormat, hwFormat: Option<int>, frameEncoderValid: bool)
      ensures Valid()
      ensures this.encoder == encoder && valid == frameEncoderValid
      ensures pixelFormat == EncoderPixelFormat(hwFormat, format.avPixelFormat)
      ensures frameRate == EncoderFrameRate(format.frameRate)
      ensures !paused && videoFrameQueue == [] && submitted == []
      ensures baseTime == MinInt64 && lastFrameTime == 0
    {
      this.encoder := encoder;
      pixelFormat := EncoderPixelFormat(hwFormat, format.avPixelFormat);
      frameRate := EncoderFrameRate(format.frameRate);
      valid := frameEncoderValid;
      paused := false;
      videoFrameQueue := [];
      baseTime := MinInt64;
      lastFrameTime := 0;
      submitted := [];
    }

    /** VideoEncoder::setPaused: pausing also stores -1 as the base time. */
    method SetPaused(b: bool)
      modifies this`paused, this`baseTime
      ensures paused == b
      ensures baseTime == (if b then -1 else old(baseTime))
    {
      paused := b;
      if b {
        baseTime := -1;
      }
    }

    /** VideoEncoder::addFrame: a full queue drops the frame; otherwise it is queued unless paused. */
    method AddFrame(frame: VideoFrame)
      requires Valid()
      modifies this`videoFrameQueue
      ensures Valid()
      ensures videoFrameQueue == QueueAfterAddFrame(paused, old(videoFrameQueue), frame)
    {
      var queueFull := |videoFrameQueue| >= MaxQueueSize;
      if queueFull {
      } else if !paused {
        videoFrameQueue := videoFrameQueue + [frame];
      }
    }

    /** VideoEncoder::takeFrame: the front frame, or an invalid one when the queue is empty. */
    method TakeFrame() returns (frame: VideoFrame)
      modifies this`videoFrameQueue
      ensures frame == (if old(videoFrameQueue) == [] then InvalidFrame else old(videoFrameQueue)[0])
      ensures videoFrameQueue == Dequeued(old(videoFrameQueue))
    {
      if videoFrameQueue != [] {
        frame := videoFrameQueue[0];
        videoFrameQueue := videoFrameQueue[1..];
      } else {
        frame := InvalidFrame;
      }
    }

    /** VideoEncoder::shouldWait. */
    function ShouldWait(): (wait: bool)
      reads this
      ensures wait <==> videoFrameQueue == []
    {
      |videoFrameQueue| == 0
    }

    /** VideoEncoder::retrievePackets: every packet the frame encoder has ready goes to the muxer. */
    method RetrievePackets(ready: seq<Packet>)
      modifies encoder.muxer`packetQueue
      ensures encoder.muxer.packetQueue == old(encoder.muxer.packetQueue) + ready
    {
      var i := 0;
      while i < |ready|
        invariant 0 <= i <= |ready|
        invariant encoder.muxer.packetQueue == old(encoder.muxer.packetQueue) + ready[..i]
      {
        encoder.muxer.AddPacket(ready[i]);
        assert ready[..i + 1] == ready[..i] + [ready[i]];
        i := i + 1;
      }
      assert ready[..i] == ready;
    }

    /** VideoEncoder::init: a frame encoder that fails to open is reported as an error. */
    method Init(openOk: bool)
      modifies encoder`events
      ensures encoder.events == old(encoder.events) + (if openOk then [] else [ResourceError(Text("Could not initialize encoder"))])
    {
      if !openOk {
        encoder.EmitError(Text("Could not initialize encoder"));
      }
    }

    /**
      The body of VideoEncoder::loop past its pause gate: the ready packets go to the muxer
      and a frame is taken; a valid frame on a valid encoder is timed against the base
      (re-anchored only when it holds the minimum), sent with its time, and the encoder hears
      the time in milliseconds; a failed send emits an error.
    */
    method Encode(ready: seq<Packet>, sendResult: int)
      modifies this`videoFrameQueue, this`baseTime, this`lastFrameTime, this`submitted
      modifies encoder.muxer`packetQueue, encoder`timeRecorded, encoder`events
      ensures videoFrameQueue == Dequeued(old(videoFrameQueue))
      ensures encoder.timeRecorded >= old(encoder.timeRecorded)
      ensures encoder.muxer.packetQueue == old(encoder.muxer.packetQueue) + ready
      ensures var sent := old(videoFrameQueue) != [] && old(videoFrameQueue)[0].VideoFrame? && valid;
        !sent ==> unchanged(this`baseTime, this`lastFrameTime, this`submitted, encoder`timeRecorded, encoder`events)
      ensures var sent := old(videoFrameQueue) != [] && old(videoFrameQueue)[0].VideoFrame? && valid;
        sent ==>
          var frame := old(videoFrameQueue)[0];
          var t := FrameTiming(old(baseTime), old(lastFrameTime), frame.startTime, frame.endTime);
          var ms := CDiv(t.time, 1000);
          && baseTime == t.baseTime
          && lastFrameTime == t.lastFrameTime
          && submitted == old(submitted) + [SubmittedFrame(frame.id, t.time)]
          && encoder.timeRecorded == Max(old(encoder.timeRecorded), ms)
          && encoder.events == old(encoder.events) + StampEvents(old(encoder.timeRecorded), ms)
                               + (if sendResult < 0 then [ResourceError(FFmpegErrorText(sendResult))] else [])
    {
      RetrievePackets(ready);
      var frame := TakeFrame();
      if !frame.VideoFrame? {
        return;
      }
      if !valid {
        return;
      }
      if baseTime == MinInt64 {
        baseTime := frame.startTime - lastFrameTime;
      }
      var time := frame.startTime - baseTime;
      lastFrameTime := frame.endTime - baseTime;
      submitted := submitted + [SubmittedFrame(frame.id, time)];
      encoder.NewTimeStamp(CDiv(time, 1000));
      if sendResult < 0 {
        encoder.EmitError(FFmpegErrorText(sendResult));
      }
    }

    /**
      One Encode step of a drain that is on course for `total` after the frames `sent0`, and
      for the Encoder state `goal` after the events `events0`.
    */
    method DrainStep(ready: seq<Packet>, sendResults: seq<int>, ghost sent0: seq<SubmittedFrame>, ghost total: Drain,
                     ghost events0: seq<Event>, ghost goal: Stamps)
      requires videoFrameQueue != []
      requires DrainOnCourse(valid, videoFrameQueue, sendResults, baseTime, lastFrameTime, submitted,
                 encoder.timeRecorded, encoder.events, sent0, total, events0, goal)
      modifies this`videoFrameQueue, this`baseTime, this`lastFrameTime, this`submitted
      modifies encoder.muxer`packetQueue, encoder`timeRecorded, encoder`events
      ensures videoFrameQueue == old(videoFrameQueue)[1..]
      ensures DrainOnCourse(valid, videoFrameQueue, sendResults[1..], baseTime, lastFrameTime, submitted,
                encoder.timeRecorded, encoder.events, sent0, total, events0, goal)
      ensures encoder.muxer.packetQueue == old(encoder.muxer.packetQueue) + ready
      ensures encoder.timeRecorded >= old(encoder.timeRecorded)
    {
      EncodeStep(valid, videoFrameQueue, sendResults, baseTime, lastFrameTime, submitted, sent0, total);
      var ns := EncodeAll(valid, videoFrameQueue, sendResults, baseTime, lastFrameTime).notices;
      if videoFrameQueue[0].VideoFrame? && valid {
        AnnounceStep(encoder.timeRecorded, encoder.events, ns, events0, goal);
      }
      Encode(ready, sendResults[0]);
    }

    /** VideoEncoder::loop: while paused nothing happens at all; otherwise one Encode step. */
    method Loop(ready: seq<Packet>, sendResult: int)
      modifies this`videoFrameQueue, this`baseTime, this`lastFrameTime, this`submitted
      modifies encoder.muxer`packetQueue, encoder`timeRecorded, encoder`events
      ensures videoFrameQueue == VideoQueueAfterLoop(paused, old(videoFrameQueue))
      ensures encoder.timeRecorded >= old(encoder.timeRecorded)
      ensures paused ==> unchanged(this`baseTime, this`lastFrameTime, this`submitted)
      ensures paused ==> unchanged(encoder.muxer`packetQueue, encoder`timeRecorded, encoder`events)
      ensures !paused ==> encoder.muxer.packetQueue == old(encoder.muxer.packetQueue) + ready
      ensures var sent := !paused && old(videoFrameQueue) != [] && old(videoFrameQueue)[0].VideoFrame? && valid;
        !sent ==> unchanged(this`baseTime, this`lastFrameTime, this`submitted, encoder`timeRecorded, encoder`events)
      ensures var sent := !paused && old(videoFrameQueue) != [] && old(videoFrameQueue)[0].VideoFrame? && valid;
        sent ==>
          var frame := old(videoFrameQueue)[0];
          var t := FrameTiming(old(baseTime), old(lastFrameTime), frame.startTime, frame.endTime);
          var ms := CDiv(t.time, 1000);
          && baseTime == t.baseTime
          && lastFrameTime == t.lastFrameTime
          && submitted == old(submitted) + [SubmittedFrame(frame.id, t.time)]
          && encoder.timeRecorded == Max(old(encoder.timeRecorded), ms)
          && encoder.events == old(encoder.events) + StampEvents(old(encoder.timeRecorded), ms)
                               + (if sendResult < 0 then [ResourceError(FFmpegErrorText(sendResult))] else [])
    {
      if paused {
        return;
      }
      Encode(ready, sendResult);
    }

    /**
      VideoEncoder::cleanup, corrected: the drain runs the loop's body without its pause
      gate, once per queued frame, so it ends and encodes every queued frame even while
      paused; the Encoder hears the time of each frame sent and the error of each failed
      send. Then the flushed packets go to the muxer.
    */
    method Cleanup(drainReady: seq<seq<Packet>>, sendResults: seq<int>, flushed: seq<Packet>)
      requires |drainReady| == |videoFrameQueue| && |sendResults| == |videoFrameQueue|
      modifies this`videoFrameQueue, this`baseTime, this`lastFrameTime, this`submitted
      modifies encoder.muxer`packetQueue, encoder`timeRecorded, encoder`events
      ensures videoFrameQueue == []
      ensures var d := EncodeAll(valid, old(videoFrameQueue), sendResults, old(baseTime), old(lastFrameTime));
        && submitted == old(submitted) + d.submitted
        && baseTime == d.baseTime
        && lastFrameTime == d.lastFrameTime
      ensures encoder.muxer.packetQueue == old(encoder.muxer.packetQueue) + Concat(drainReady) + flushed
      ensures encoder.timeRecorded >= old(encoder.timeRecorded)
      ensures var d := EncodeAll(valid, old(videoFrameQueue), sendResults, old(baseTime), old(lastFrameTime));
        var a := Announced(old(encoder.timeRecorded), d.notices);
        encoder.timeRecorded == a.recorded && encoder.events == old(encoder.events) + a.events
    {
      ghost var total := EncodeAll(valid, videoFrameQueue, sendResults, baseTime, lastFrameTime);
      ghost var sent0 := submitted;
      ghost var goal := Announced(encoder.timeRecorded, total.notices);
      assert submitted + total.submitted == sent0 + total.submitted;
      assert encoder.events + goal.events == old(encoder.events) + goal.events;
      var k := 0;
      while videoFrameQueue != []
        invariant 0 <= k <= |drainReady|
        invariant k + |videoFrameQueue| == |drainReady|
        invariant DrainOnCourse(valid, videoFrameQueue, sendResults[k..], baseTime, lastFrameTime, submitted,
                    encoder.timeRecorded, encoder.events, sent0, total, old(encoder.events), goal)
        invariant encoder.muxer.packetQueue == old(encoder.muxer.packetQueue) + Concat(drainReady[..k])
        invariant encoder.timeRecorded >= old(encoder.timeRecorded)
        decreases |videoFrameQueue|
      {
        DrainStep(drainReady[k], sendResults[k..], sent0, total, old(encoder.events), goal);
        assert sendResults[k..][1..] == sendResults[k + 1..];
        assert drainReady[..k + 1] == drainReady[..k] + [drainReady[k]];
        k := k + 1;
      }
      assert drainReady[..k] == drainReady;
      DrainArrives(valid, sendResults[k..], baseTime, lastFrameTime, submitted, encoder.timeRecorded, encoder.events,
                   sent0, total, old(encoder.events), goal);
      RetrievePackets(flushed);
    }
  }

  /**
    A fresh, recording video encoder sent a run of frames keeps the first ten, in order, and
    drops the rest.
  */
  method FloodVideoQueue(frames: seq<VideoFrame>) returns (queued: seq<VideoFrame>)
    ensures queued == frames[..Min(|frames|, MaxQueueSize)]
  {
    var e := new Encoder();
    var ve := new VideoEncoder(e, VideoFrameFormat(true, 0, 30.0), None, true);
    var i := 0;
    while i < |frames|
      invariant 0 <= i <= |frames|
      invariant ve.Valid() && !ve.paused
      invariant ve.videoFrameQueue == QueueAfterAddFrames(false, [], frames[..i])
    {
      ghost var q := ve.videoFrameQueue;
      ve.AddFrame(frames[i]);
      AppendFrame(false, [], frames[..i], frames[i]);
      assert frames[..i + 1] == frames[..i] + [frames[i]];
      i := i + 1;
    }
    assert frames[..i] == frames;
    AddFramesKeepsOldest([], frames);
    queued := ve.videoFrameQueue;
  }

  /** Adding one more frame at the end of a run is one more addFrame step. */
  lemma {:induction false} AppendFrame(paused: bool, q: seq<VideoFrame>, frames: seq<VideoFrame>, frame: VideoFrame)
    ensures QueueAfterAddFrames(paused, q, frames + [frame])
         == QueueAfterAddFrame(paused, QueueAfterAddFrames(paused, q, frames), frame)
    decreases |frames|
  {
    if frames == [] {
      assert [frame][1..] == [];
    } else {
      assert (frames + [frame])[1..] == frames[1..] + [frame];
      AppendFrame(paused, QueueAfterAddFrame(paused, q, frames[0]), frames[1..], frame);
    }
  }
}
