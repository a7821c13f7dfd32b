# Qt Multimedia recording core, modelled in Dafny

This project models three parts of Qt Multimedia and proves properties about them.

- **The FFmpeg recording pipeline** (`ffmpeg_encoder.dfy`, module `FFmpegEncoder`).
  - The `Encoder` owns a `Muxer`, at most one `AudioEncoder` and an ordered list of `VideoEncoder`s.
  - Each worker is a class whose queue is a `seq`.
  - Every producer or consumer call is one atomic method: add/take, loop, cleanup, setPaused, newTimeStamp, start, finalize.
  - The Encoder's `events` trace records what goes out: thread starts and kills, disconnections, and the `durationChanged`, `error` and `finalizationDone` signals.
  - The Muxer's `written` list records the packets handed to `av_interleaved_write_frame`.
  - Each encoder's `submitted` list records the frames sent to its codec, with their timestamps.
  - FFmpeg results are method arguments: the packets a receive loop yields, the result of sending a frame, writing the header or the trailer, and opening the codec.
- **`QMediaFormat`** (`media_format.dfy`, module `MediaFormat`).
  - Name and description tables, and `operator==`.
  - `resolveForEncoding`, with its priority lists.
  - The platform's `supported*` queries are uninterpreted functions, from the format they are asked on to a set of enumerators.
- **GStreamer utilities** (`gst_utils.dfy`, module `GstUtils`).
  - The audio sample-format names and their parsing.
  - The two-way pixel-format table.
  - Reading pixel format, size and audio format out of a caps structure.
  - Building audio caps.
  - Stamping a video frame with a buffer's times.
  - A caps structure is a record of optional fields.

`wrappers.dfy` holds the `Option` type and a `Distinct` predicate.

## Model

Paths are relative to the repository root.

| member | source | states |
|---|---|---|
| FFmpegEncoder.Encoder.constructor | src/plugins/multimedia/ffmpeg/qffmpegencoder_p.h:86-97 | A new encoder is not recording, has recorded 0, and has no audio or video encoders and no connections. Its muxer queue is empty. |
| FFmpegEncoder.Encoder.AddAudioInput | src/plugins/multimedia/ffmpeg/qffmpegencoder.cpp:55-60 | The single audio pointer is replaced by a fresh, unpaused encoder with an empty queue and no samples written. |
| FFmpegEncoder.Encoder.AddVideoSource | src/plugins/multimedia/ffmpeg/qffmpegencoder.cpp:62-89 | An invalid frame format or an invalid frame encoder leaves both lists unchanged. Otherwise the encoder and its connection are appended to the two parallel lists, with the chosen pixel format and frame rate, base time at the minimum and last frame time 0. |
| FFmpegEncoder.Encoder.Start | src/plugins/multimedia/ffmpeg/qffmpegencoder.cpp:91-114 | A failed header write emits exactly one ResourceError, starts nothing and leaves isRecording alone. Otherwise it starts the muxer, then audio, then each valid video encoder in order, and sets isRecording. |
| FFmpegEncoder.VideoStarts | src/plugins/multimedia/ffmpeg/qffmpegencoder.cpp:109-111 | When every listed video encoder is valid, one start event per encoder is produced, carrying its index, in list order. |
| FFmpegEncoder.Encoder.Finalize | src/plugins/multimedia/ffmpeg/qffmpegencoder.cpp:138-147 | Every stored connection is disconnected, in list order. Only then is a finalizer for this encoder started. |
| FFmpegEncoder.EncodingFinalizer.Run | src/plugins/multimedia/ffmpeg/qffmpegencoder.cpp:120-136 | Appends exactly the finalizer's sequence to the trace: kill audio if present, kill each video encoder, kill the muxer, write the trailer (ok when the result is non-negative), then finalizationDone. |
| FFmpegEncoder.FinalizerEvents | src/plugins/multimedia/ffmpeg/qffmpegencoder.cpp:120-136 | The finalizer does one step per worker plus the muxer, the trailer and the signal, and finalizationDone is the last. |
| FFmpegEncoder.FinalizerOrder | src/plugins/multimedia/ffmpeg/qffmpegencoder.cpp:120-136 | Audio is killed first, then the video encoders by index, then the muxer; the trailer follows, finalizationDone is last and occurs exactly once. |
| FFmpegEncoder.Encoder.SetPaused | src/plugins/multimedia/ffmpeg/qffmpegencoder.cpp:149-155 | Every worker gets the same pause flag. Video encoders' base times become -1 when pausing and are kept when resuming. Its frame allows only the workers' pause flags and the video base times to change, so nothing else changes. |
| FFmpegEncoder.Encoder.NewAudioBuffer | src/plugins/multimedia/ffmpeg/qffmpegencoder.cpp:162-166 | The buffer reaches the audio encoder's addBuffer only when an audio encoder exists and recording has started. Otherwise its queue is unchanged. Its frame allows only the audio queue to change. |
| FFmpegEncoder.Encoder.NewTimeStamp | src/plugins/multimedia/ffmpeg/qffmpegencoder.cpp:168-175 | The recorded time becomes the maximum of old and new, so it never decreases. durationChanged is emitted exactly when the new time is strictly greater. |
| FFmpegEncoder.Announced | src/plugins/multimedia/ffmpeg/qffmpegencoder.cpp:168-175 | A run of newTimeStamp calls (and error signals) never lowers the recorded time. |
| FFmpegEncoder.AnnouncedRecordsLatest | src/plugins/multimedia/ffmpeg/qffmpegencoder.cpp:168-175 | After a run of newTimeStamp calls, the recorded time is at least every time heard, and is either the starting time or one of them. |
| FFmpegEncoder.AnnouncedSignalsIncreases | src/plugins/multimedia/ffmpeg/qffmpegencoder.cpp:168-175 | durationChanged is signalled for strictly increasing durations, all later than the starting time and none later than the final recorded time. |
| FFmpegEncoder.AnnouncedSignalsLatest | src/plugins/multimedia/ffmpeg/qffmpegencoder.cpp:168-175 | durationChanged is signalled exactly when the recorded time moved, and the last signal carries the final recorded time. |
| FFmpegEncoder.AnnouncedReportsFailures | src/plugins/multimedia/ffmpeg/qffmpegencoder.cpp:633-636 | Every failed send in a run is signalled as an error exactly once, in order. |
| FFmpegEncoder.Encoder.EmitError | src/plugins/multimedia/ffmpeg/qffmpegencoder.cpp:632-636 | The error signal with ResourceError and the given description is appended to the trace. |
| FFmpegEncoder.Muxer.constructor | src/plugins/multimedia/ffmpeg/qffmpegencoder.cpp:177-181 | A new muxer has an empty queue and has written nothing. |
| FFmpegEncoder.Muxer.AddPacket | src/plugins/multimedia/ffmpeg/qffmpegencoder.cpp:183-189 | The packet joins the back of the queue. |
| FFmpegEncoder.Muxer.TakePacket | src/plugins/multimedia/ffmpeg/qffmpegencoder.cpp:191-198 | Returns null exactly when the queue is empty. Otherwise it returns the front packet and removes it. |
| FFmpegEncoder.Muxer.ShouldWait | src/plugins/multimedia/ffmpeg/qffmpegencoder.cpp:209-213 | True exactly when the queue is empty. |
| FFmpegEncoder.Muxer.Loop | src/plugins/multimedia/ffmpeg/qffmpegencoder.cpp:215-221 | Writes the front packet, or a null packet when the queue is empty, and dequeues. |
| FFmpegEncoder.MuxInOrder | src/plugins/multimedia/ffmpeg/qffmpegencoder.cpp:183-221 | Packets added to a fresh muxer are written in the order they were added (FIFO). One more loop writes a null packet, after which the muxer waits. |
| FFmpegEncoder.BestMatchingSampleFormat | src/plugins/multimedia/ffmpeg/qffmpegencoder.cpp:224-252 | A null list gives the requested format. Otherwise, among the entries before NONE: the requested format if listed, else its planar variant if listed, else the first entry. |
| FFmpegEncoder.NoneIndex | src/plugins/multimedia/ffmpeg/qffmpegencoder.cpp:238 | The position of the first NONE, which the walk stops at. |
| FFmpegEncoder.AudioEncoder.constructor | src/plugins/multimedia/ffmpeg/qffmpegencoder.cpp:254-297 | The stream's sample format satisfies IsBestMatch: the requested one without a codec list; otherwise the requested one if listed, else its planar variant if listed, else the codec's first format. The stream time base is 1/sampleRate. The encoder starts unpaused, with an empty queue and no samples written (qffmpegencoder_p.h:130, 161). |
| FFmpegEncoder.AudioEncoder.Open | src/plugins/multimedia/ffmpeg/qffmpegencoder.cpp:299-344 | The codec takes the stream time base as the header write left it. From the stream parameters (line 313) it takes the stream's sample format and the input's sample rate. A resampler is set up exactly when the stream's sample format differs from the requested one. |
| FFmpegEncoder.AudioEncoder.SetPaused | src/plugins/multimedia/ffmpeg/qffmpegencoder_p.h:124-127 | Sets the pause flag and nothing else. |
| FFmpegEncoder.AudioEncoder.AddBuffer | src/plugins/multimedia/ffmpeg/qffmpegencoder.cpp:346-353 | The buffer joins the back of the queue only when not paused. |
| FFmpegEncoder.AudioEncoder.TakeBuffer | src/plugins/multimedia/ffmpeg/qffmpegencoder.cpp:355-361 | Returns the front buffer and removes it, or an invalid buffer when the queue is empty. |
| FFmpegEncoder.AudioEncoder.ShouldWait | src/plugins/multimedia/ffmpeg/qffmpegencoder.cpp:381-385 | True exactly when the queue is empty. |
| FFmpegEncoder.AudioEncoder.RetrievePackets | src/plugins/multimedia/ffmpeg/qffmpegencoder.cpp:387-408 | Every ready packet goes to the muxer, in order, stamped with the audio stream's index. |
| FFmpegEncoder.AudioEncoder.Loop | src/plugins/multimedia/ffmpeg/qffmpegencoder.cpp:410-458 | The front buffer is always dequeued. An invalid buffer, or any buffer while paused, changes nothing else. Otherwise: packets go to the muxer; the frame gets the pts of the samples written before it; the count grows by its frame count; newTimeStamp receives the duration in milliseconds. |
| FFmpegEncoder.AudioEncoder.Cleanup | src/plugins/multimedia/ffmpeg/qffmpegencoder.cpp:372-379 | The drain loop empties the queue. The sample count grows by exactly CountedSamples of the queue, and the frames sent to the codec are exactly AudioSubmissions of it (none while paused). The muxer receives exactly the drain's batches (AudioDrainPackets), then the flushed packets. The Encoder ends exactly as Announced of the drain's AudioNotices leaves it: the recorded time and every durationChanged event the encoded buffers raise, in order. |
| FFmpegEncoder.AudioQueueAfterAddBuffer | src/plugins/multimedia/ffmpeg/qffmpegencoder.cpp:346-353 | The queue only grows, by at most the one buffer, and it is left unchanged exactly when paused. |
| FFmpegEncoder.CountedSamples | src/plugins/multimedia/ffmpeg/qffmpegencoder.cpp:410-444 | The samples counted while draining a queue are the frames of the buffers the loop encodes. A paused drain counts none. |
| FFmpegEncoder.AudioNotices | src/plugins/multimedia/ffmpeg/qffmpegencoder.cpp:443-447 | The drain reports at most one time per queued buffer, none while paused, and never a failed send (the audio loop does not signal send errors). |
| FFmpegEncoder.AudioSubmissions | src/plugins/multimedia/ffmpeg/qffmpegencoder.cpp:410-444 | The drain sends at most one frame per queued buffer. A paused drain sends none. |
| FFmpegEncoder.AudioDrainPackets | src/plugins/multimedia/ffmpeg/qffmpegencoder.cpp:410-418 | Only buffers the loop encodes hand their ready packets to the muxer. A paused drain hands over none. |
| FFmpegEncoder.UnpausedAudioLoopsCountAll | src/plugins/multimedia/ffmpeg/qffmpegencoder.cpp:372-379 | No audio is lost by an unpaused drain: the ids sent to the codec are exactly those of the valid queued buffers, in queue order. |
| FFmpegEncoder.UnpausedAudioPtsStartAtCount | src/plugins/multimedia/ffmpeg/qffmpegencoder.cpp:439-442 | With time base 1/sampleRate, the drain's first frame is stamped with the samples already written, so the stream continues without a gap. |
| FFmpegEncoder.AudioPts | src/plugins/multimedia/ffmpeg/qffmpegencoder.cpp:439-442 | With a positive time base, pts is the floor of den * samplesWritten / (sampleRate * num), the sample count expressed in the time base. With a zero numerator or denominator it is samplesWritten. |
| FFmpegEncoder.AudioPtsCountsSamples | src/plugins/multimedia/ffmpeg/qffmpegencoder.cpp:293 | With the requested time base 1/sampleRate, pts equals the number of samples written. |
| FFmpegEncoder.AudioPtsMonotonic | src/plugins/multimedia/ffmpeg/qffmpegencoder.cpp:439-444 | Since samplesWritten only grows, successive audio timestamps never go back. |
| FFmpegEncoder.CDiv | src/plugins/multimedia/ffmpeg/qffmpegencoder.cpp:441 | C++ division: the remainder is smaller than the divisor in magnitude and is zero or has the dividend's sign. |
| FFmpegEncoder.DivBounds | src/plugins/multimedia/ffmpeg/qffmpegencoder.cpp:447 | For non-negative operands the quotient is the floor of the quotient. |
| FFmpegEncoder.EncoderPixelFormatChoice | src/plugins/multimedia/ffmpeg/qffmpegencoder.cpp:467-469 | The chosen pixel format is one of those offered. It is NONE exactly when the software format is NONE and no hardware format other than NONE is offered. A hardware NONE counts as no hardware format. |
| FFmpegEncoder.EncoderFrameRate | src/plugins/multimedia/ffmpeg/qffmpegencoder.cpp:470-476 | The frame rate used is always positive: the source's rate if positive, else 30. |
| FFmpegEncoder.VideoEncoder.constructor | src/plugins/multimedia/ffmpeg/qffmpegencoder.cpp:460-481 | The pixel format and frame rate follow the two choices above. The encoder starts unpaused with an empty queue, base time at the minimum qint64 and last frame time 0 (qffmpegencoder_p.h:200-201). |
| FFmpegEncoder.VideoEncoder.SetPaused | src/plugins/multimedia/ffmpeg/qffmpegencoder_p.h:182-187 | Sets the pause flag. Pausing also stores -1 into the base time; resuming leaves it unchanged. |
| FFmpegEncoder.VideoEncoder.AddFrame | src/plugins/multimedia/ffmpeg/qffmpegencoder.cpp:488-504 | A full queue (10 or more) drops the frame. Otherwise the frame is queued at the back unless paused. The queue never exceeds 10. |
| FFmpegEncoder.VideoEncoder.TakeFrame | src/plugins/multimedia/ffmpeg/qffmpegencoder.cpp:511-520 | Returns the front frame and removes it, or an invalid frame when the queue is empty. |
| FFmpegEncoder.VideoEncoder.ShouldWait | src/plugins/multimedia/ffmpeg/qffmpegencoder.cpp:549-553 | True exactly when the queue is empty. |
| FFmpegEncoder.VideoEncoder.RetrievePackets | src/plugins/multimedia/ffmpeg/qffmpegencoder.cpp:522-528 | Every ready packet goes to the muxer, in order. |
| FFmpegEncoder.VideoEncoder.Init | src/plugins/multimedia/ffmpeg/qffmpegencoder.cpp:530-536 | A frame encoder that fails to open emits one ResourceError. |
| FFmpegEncoder.VideoEncoder.Encode | src/plugins/multimedia/ffmpeg/qffmpegencoder.cpp:571-637 | Packets go to the muxer and a frame is dequeued. A valid frame on a valid encoder gets the base/time/last-frame bookkeeping of FrameTiming. It is submitted with that time, and newTimeStamp gets the time in milliseconds. A failed send appends a ResourceError carrying the FFmpeg code. |
| FFmpegEncoder.VideoEncoder.Loop | src/plugins/multimedia/ffmpeg/qffmpegencoder.cpp:566-637 | While paused nothing changes and nothing is dequeued. Otherwise it behaves as Encode. |
| FFmpegEncoder.VideoEncoder.Cleanup | src/plugins/multimedia/ffmpeg/qffmpegencoder.cpp:538-547 | Corrected drain (see Findings): the loop body runs once per queued frame, even while paused, so the queue ends empty. The frames sent and the final timing state are exactly EncodeAll of the old queue, send results and timing. The muxer receives every batch of the drain in order, then the flushed packets. The Encoder ends exactly as Announced of the drain's notices leaves it: the recorded time, and the durationChanged and ResourceError events of every frame sent, in order. |
| FFmpegEncoder.EncodeAll | src/plugins/multimedia/ffmpeg/qffmpegencoder.cpp:571-637 | Encoding a queue sends at most one frame per queued frame, and nothing at all on an invalid encoder. It reports one notice per frame sent, whose time is that frame's timestamp in milliseconds (C division). |
| FFmpegEncoder.EncodeAllSendsEveryFrame | src/plugins/multimedia/ffmpeg/qffmpegencoder.cpp:538-541 | No frame is lost by the corrected drain: a valid encoder sends exactly the valid queued frames, once each, in queue order. |
| FFmpegEncoder.EncodeAllReportsFailedSends | src/plugins/multimedia/ffmpeg/qffmpegencoder.cpp:631-636 | A valid encoder's drain reports exactly the failed sends of the valid frames, in queue order, and the Encoder signals exactly those errors. |
| FFmpegEncoder.AnchoredDrainKeepsBase | src/plugins/multimedia/ffmpeg/qffmpegencoder.cpp:618-624 | Once the base is anchored, the drain keeps it, and each frame is sent stamped with its start time minus that base. |
| FFmpegEncoder.FrameTiming | src/plugins/multimedia/ffmpeg/qffmpegencoder.cpp:618-625 | The base changes only when it holds the minimum. A re-anchored frame starts exactly where the previous one ended. A frame's time plus the base is its start time, and the last frame time keeps the frame's duration. |
| FFmpegEncoder.FirstFrameStartsAtZero | src/plugins/multimedia/ffmpeg/qffmpegencoder.cpp:618-625 | The first frame after construction gets time 0. |
| FFmpegEncoder.PausedBaseDoesNotReanchor | src/plugins/multimedia/ffmpeg/qffmpegencoder_p.h:182-187 | After a pause the base is -1, which is not the re-anchoring marker. The next frame is timed at its start time plus 1. |
| FFmpegEncoder.SameBaseKeepsSpacing | src/plugins/multimedia/ffmpeg/qffmpegencoder.cpp:624 | Frames timed against the same base keep their spacing. |
| FFmpegEncoder.QueueAfterAddFrame | src/plugins/multimedia/ffmpeg/qffmpegencoder.cpp:493-503 | addFrame only appends, and only the arriving frame. A queue within maxQueueSize stays within it. |
| FFmpegEncoder.QueueAfterAddFrames | src/plugins/multimedia/ffmpeg/qffmpegencoder.cpp:493-503 | A run of addFrame calls keeps the old queue as a prefix and adds at most one frame per call. |
| FFmpegEncoder.AddFramesBounded | src/plugins/multimedia/ffmpeg/qffmpegencoder.cpp:493-503 | However many frames arrive, the queue stays within maxQueueSize (qffmpegencoder_p.h:171). |
| FFmpegEncoder.AddFramesKeepsOldest | src/plugins/multimedia/ffmpeg/qffmpegencoder.cpp:493-503 | While recording, arriving frames are queued in order until the queue is full. Every later frame is dropped. |
| FFmpegEncoder.AddFramesWhilePaused | src/plugins/multimedia/ffmpeg/qffmpegencoder.cpp:497 | While paused, no arriving frame is queued. |
| FFmpegEncoder.AppendFrame | src/plugins/multimedia/ffmpeg/qffmpegencoder.cpp:488-504 | One more frame at the end of a run is one more addFrame step. |
| FFmpegEncoder.FloodVideoQueue | src/plugins/multimedia/ffmpeg/qffmpegencoder.cpp:488-504 | A fresh video encoder sent any run of frames holds exactly the first ten, in arrival order. |
| FFmpegEncoder.VideoQueueAfterLoop | src/plugins/multimedia/ffmpeg/qffmpegencoder.cpp:566-575 | One loop as written leaves a suffix of the queue; unpaused it removes exactly the front frame. |
| FFmpegEncoder.VideoQueueAfterLoops | src/plugins/multimedia/ffmpeg/qffmpegencoder.cpp:538-541 | Any number of loops as written leaves a suffix of the queue. |
| FFmpegEncoder.CleanupWhilePausedNeverDrains | src/plugins/multimedia/ffmpeg/qffmpegencoder.cpp:538-541 | As written, entered while paused with frames queued: no number of loop calls empties the queue (see Findings). |
| FFmpegEncoder.CleanupUnpausedDrains | src/plugins/multimedia/ffmpeg/qffmpegencoder.cpp:538-541 | Unpaused, the drain loop as written empties the queue after as many calls as it holds. |
| MediaFormat.FileFormatName | src/multimedia/qmediaformat.cpp:615-635 | Indexes the table at value + 1, so the result is slot 0 exactly for UnspecifiedFormat. |
| MediaFormat.AudioCodecName | src/multimedia/qmediaformat.cpp:645-662 | Slot 0 ("Invalid") exactly for Unspecified. |
| MediaFormat.VideoCodecName | src/multimedia/qmediaformat.cpp:672-689 | Slot 0 ("Invalid") exactly for Unspecified. |
| MediaFormat.FileFormatDescription | src/multimedia/qmediaformat.cpp:699-719 | Slot 0 exactly for UnspecifiedFormat. |
| MediaFormat.AudioCodecDescription | src/multimedia/qmediaformat.cpp:729-746 | Slot 0 exactly for Unspecified. |
| MediaFormat.VideoCodecDescription | src/multimedia/qmediaformat.cpp:756-773 | Slot 0 exactly for Unspecified. |
| MediaFormat.FileFormatNamesDistinguish | src/multimedia/qmediaformat.cpp:615-635 | Two file formats with the same name, or the same description, are the same format. |
| MediaFormat.AudioCodecNamesDistinguish | src/multimedia/qmediaformat.cpp:645-662 | Two audio codecs with the same name, or the same description, are equal. |
| MediaFormat.VideoCodecNamesDistinguish | src/multimedia/qmediaformat.cpp:672-689 | Two video codecs with the same name, or the same description, are equal. |
| MediaFormat.Equals | src/multimedia/qmediaformat.cpp:775-781 | True exactly when the file format, audio codec and video codec all agree. |
| MediaFormat.FirstStop | src/multimedia/qmediaformat.cpp:834-838 | The walk stops at the first entry that is the terminator or supported. Every entry before it is neither. |
| MediaFormat.FirstSupportedFindsEarliest | src/multimedia/qmediaformat.cpp:834-838 | A supported entry before the terminator is never passed over. |
| MediaFormat.FirstSupportedIsTerminatorIff | src/multimedia/qmediaformat.cpp:834-839 | The walk returns the terminator exactly when no listed entry is supported. |
| MediaFormat.FirstSupported | src/multimedia/qmediaformat.cpp:834-839 | The walk returns an entry that is supported or the terminator, with no earlier entry either supported or the terminator. |
| MediaFormat.FirstSupportedUnique | src/multimedia/qmediaformat.cpp:834-839 | Only the walk's result has that property: it characterises the result exactly. |
| MediaFormat.PriorityPick | src/multimedia/qmediaformat.cpp:900-906 | The pointer-walking while loop returns the first supported entry of the list, or the terminator. |
| MediaFormat.SearchAsWrittenOverruns | src/multimedia/qmediaformat.cpp:884-890 | Without a terminator, the walk leaves the array exactly when no listed codec is supported (see Findings). |
| MediaFormat.VideoSearchOverrunsWithoutVideoCodecs | src/multimedia/qmediaformat.cpp:153-166 | On the list as written, a format that supports no video codec drives the walk past the array. |
| MediaFormat.TerminatedSearchAgrees | src/multimedia/qmediaformat.cpp:884-890 | With the terminator appended, the walk agrees with the source wherever the source finds a codec. Where the source overruns, it gives Unspecified. |
| MediaFormat.ResetUnsupported | src/multimedia/qmediaformat.cpp:814-852 | Each field is kept or reset to Unspecified. The format is kept iff it is supported and, with video required, offers some video codec. Without RequiresVideo the video codec is always Unspecified. |
| MediaFormat.BestSupportedFileFormat | src/multimedia/qmediaformat.cpp:826-840 | Uses the audio list for NoFlags and the video list otherwise. Returns the FIRST entry of that list that is supported (IsFirstSupported: no earlier entry is), and Unspecified iff no listed format is. |
| MediaFormat.ChooseFileFormat | src/multimedia/qmediaformat.cpp:854-872 | A kept format stays. Otherwise the fallback queries are tried in order: both codecs, then without audio (these two only with RequiresVideo), then without video, then neither. The result is the first answer that is not Unspecified, and Unspecified exactly when the format was not kept and every answer is Unspecified. |
| MediaFormat.FallBackFileFormat | src/multimedia/qmediaformat.cpp:854-868 | The fallback queries run step by step, each walking the priority list, give exactly ChooseFileFormat. |
| MediaFormat.ChooseVideoCodec | src/multimedia/qmediaformat.cpp:874-895 | A supported video codec is kept. Otherwise the result is the FIRST entry of the (terminated) priority list that the format supports, which is Unspecified only when no listed codec is supported. |
| MediaFormat.ChooseAudioCodec | src/multimedia/qmediaformat.cpp:897-907 | A supported audio codec is kept. Otherwise the result is the FIRST entry of the priority list that the format supports, and Unspecified exactly when no entry of the list is supported. |
| MediaFormat.Resolve | src/multimedia/qmediaformat.cpp:812-908 | An unresolved file format means the whole result is the default format, and without RequiresVideo the video codec is Unspecified. |
| MediaFormat.ResolveForEncoding | src/multimedia/qmediaformat.cpp:812-908 | The step-by-step procedure equals the composition of the stages above. Without RequiresVideo the video codec is Unspecified, and an unresolved file format means the whole format is the default. |
| MediaFormat.ResolveKeepsSupportedFormat | src/multimedia/qmediaformat.cpp:842-848 | A supported file format (with some video codec when video is required) is kept unchanged. |
| MediaFormat.ResolveGivesUpToDefault | src/multimedia/qmediaformat.cpp:842-872 | The result is the default value exactly when the requested file format does not survive the reset (unsupported, or without a video codec when video is required) and every fallback query, RequiresVideo ones included, yields Unspecified. |
| MediaFormat.ResolveVideoCodec | src/multimedia/qmediaformat.cpp:875-892 | With video required, a supported video codec is kept. Otherwise the resolved codec is the FIRST entry of the terminated priority list that the format supports. The audio codec cleared for the video query is restored: the audio step starts from the codec the reset left. |
| MediaFormat.ResolveAudioCodec | src/multimedia/qmediaformat.cpp:897-907 | The audio codec is kept if the resolved format supports it. Otherwise the result is the FIRST entry of the priority list that the format supports, and Unspecified exactly when no entry of the list is supported. |
| GstUtils.AudioSampleFormatNames | src/multimedia/platform/gstreamer/common/qgstutils.cpp:68-81 | One slot per sample format, for either byte order; slot 0 is null. |
| GstUtils.FindSampleFormat | src/multimedia/platform/gstreamer/common/qgstutils.cpp:86-90 | The strcmp loop returns the first matching slot from 1 on, or Unknown exactly when no slot matches. |
| GstUtils.GstSampleFormatToSampleFormat | src/multimedia/platform/gstreamer/common/qgstutils.cpp:83-93 | A null or unrecognised name gives Unknown. A recognised one gives the index of its slot. |
| GstUtils.SampleFormatNameRoundTrip | src/multimedia/platform/gstreamer/common/qgstutils.cpp:68-93 | For every known format s, the name in slot s maps back to s. |
| GstUtils.KnownFormats | src/multimedia/platform/gstreamer/common/qgstutils.cpp:153-160 | The recognised formats of a list, in order, never Unknown and never more than the list holds. |
| GstUtils.KnownFormatsOfNames | src/multimedia/platform/gstreamer/common/qgstutils.cpp:146-162 | A list of the names of known formats reads back as exactly those formats. |
| GstUtils.GetSampleFormats | src/multimedia/platform/gstreamer/common/qgstutils.cpp:146-162 | Empty for a value that is not a list. Otherwise the recognised formats in order, with unknown names skipped. |
| GstUtils.VideoFormatLookup | src/multimedia/platform/gstreamer/common/qgstutils.cpp:172-205 | The table has 19 entries for either byte order. |
| GstUtils.LookupColumnsDistinct | src/multimedia/platform/gstreamer/common/qgstutils.cpp:172-205 | Neither column of the table repeats a value. |
| GstUtils.LookupHasNoInvalid | src/multimedia/platform/gstreamer/common/qgstutils.cpp:172-205 | Format_Invalid is not in the table. |
| GstUtils.IndexOfPixelFormat | src/multimedia/platform/gstreamer/common/qgstutils.cpp:207-214 | indexOfVideoFormat for a pixel format: the first matching index, or -1 exactly when no entry matches. |
| GstUtils.IndexOfGstFormat | src/multimedia/platform/gstreamer/common/qgstutils.cpp:216-223 | indexOfVideoFormat for a GStreamer format: the first matching index, or -1 exactly when no entry matches. |
| GstUtils.IndexOfPixelFormatFrom | src/multimedia/platform/gstreamer/common/qgstutils.cpp:207-214 | Returns the first index whose pixel format matches, or -1 exactly when none does. |
| GstUtils.IndexOfGstFormatFrom | src/multimedia/platform/gstreamer/common/qgstutils.cpp:216-223 | Returns the first index whose GStreamer format matches, or -1 exactly when none does. |
| GstUtils.LookupFindsEntry | src/multimedia/platform/gstreamer/common/qgstutils.cpp:207-223 | Looking up either column of entry i finds index i. |
| GstUtils.PixelGstPixelRoundTrip | src/multimedia/platform/gstreamer/common/qgstutils.cpp:207-223 | pixel → gst → pixel gives back every listed pixel format. |
| GstUtils.GstPixelGstRoundTrip | src/multimedia/platform/gstreamer/common/qgstutils.cpp:207-223 | gst → pixel → gst gives back every listed GStreamer format. |
| GstUtils.StructurePixelFormat | src/multimedia/platform/gstreamer/common/qgstutils.cpp:308-327 | Format_Invalid unless the structure exists, is named video/x-raw and has a format string the table lists; otherwise that entry's pixel format. |
| GstUtils.ResolutionValidIff | src/multimedia/platform/gstreamer/common/qgstutils.cpp:293-306 | The size read from a structure is valid (neither side negative) exactly when the structure has both a width and a height and neither is negative; then it is that width and height. A missing structure or field gives the default, invalid size. |
| GstUtils.AudioFormatForSample | src/multimedia/platform/gstreamer/common/qgstutils.cpp:101-123 | Empty unless the caps exist, are audio/x-raw, have a rate and a channel count, and name a known format; otherwise those three values. |
| GstUtils.CapsForAudioFormat | src/multimedia/platform/gstreamer/common/qgstutils.cpp:131-144 | Null exactly for an invalid format. Otherwise interleaved audio/x-raw caps with the format's rate and channel count. |
| GstUtils.AudioCapsRoundTrip | src/multimedia/platform/gstreamer/common/qgstutils.cpp:101-144 | Caps built for a valid format read back as that format. |
| GstUtils.AsInt64 | src/multimedia/platform/gstreamer/common/qgstutils.cpp:282 | Storing a guint64 into a qint64: non-negative exactly below 2^63, and then the same value. GST_CLOCK_TIME_NONE becomes -1. |
| GstUtils.NsToUs | src/multimedia/platform/gstreamer/common/qgstutils.cpp:285 | Nanoseconds to microseconds rounds down. |
| GstUtils.VideoFrame.constructor | src/multimedia/platform/gstreamer/common/qgstutils.cpp:280-291 | A frame with the given start and end times. |
| GstUtils.SetFrameTimeStamps | src/multimedia/platform/gstreamer/common/qgstutils.cpp:280-291 | A non-negative start sets start = ns/1000, and a non-negative duration then also sets end = (ns + duration)/1000. A negative start, including GST_CLOCK_TIME_NONE, leaves the frame untouched. |

## Left out

- Threads are not modelled: `QMutex`, `QAtomicInteger` ordering, `wake()` and the `Thread` base class, which is not part of this model. Every call is one atomic step. `cleanup` reads the queues without the lock, which matters only under concurrency.
- `Thread::kill` is not modelled beyond a `ThreadKilled` event, because the base class is not part of this model. `EncodingFinalizer.Run` therefore does not itself run each worker's cleanup.
- FFmpeg and GStreamer calls are not modelled; their results are parameters. This covers `avformat_*`, `avcodec_*`, `swr_*`, `VideoFrameEncoder` (its `getPts` and its send and receive calls), `gst_video_format_from_string`, `QAudioFormat::durationForFrames`, the codec lookup and the planar mapping. `av_strerror` and debug logging are not modelled.
- `AudioEncoder.Open`: requires the input's sample rate to be positive, because the loop divides by it and the source does not check it. `avcodec_open2` is taken to keep the sample format and rate it was given by `avcodec_parameters_to_context`.
- `Encoder` construction (URL, `avio_open2`), `setMetaData`, `Muxer::init` and `Muxer::cleanup` (both empty), and `AudioEncoder::init`'s frame-size hand-off are left out because they are only I/O.
- The input's `setRunning` and the signal connections are left out. A connection is an opaque number, and frames reach a video encoder by calling `AddFrame` directly.
- Pixel-buffer mapping, the hardware-frame reuse and the JPEG image path (qffmpegencoder.cpp:584-616) are left out. They concern memory aliasing and do not affect the queue or timing state.
- 64-bit overflow of `samplesWritten`, `den * samplesWritten` and the base-time subtractions is not modelled. Integers are unbounded.
- `SetFrameTimeStamps`: `startTime + duration` (qgstutils.cpp:289) can overflow qint64 when both are near 2^63. The model adds them as unbounded integers.
- `FloorDiv`, `DivMonotonic` and `MulMonotonic` are arithmetic proof helpers for the division in the audio timestamp, not models of source lines, so they have no row.
- The frame rate is a `real`. Only the "non-positive becomes 30" rule is modelled.
- `QMediaFormat::mimeType`, `isSupported` and the `supported*` queries are platform calls. They appear only as the uninterpreted `Platform` functions. Enumerator values are taken from the order of the name tables, since the enum declaration is not part of this model.
- `QGstStructure::frameRateRange` and `formatForCaps` are left out (floating point). `addPixelFormats` and the video sinks are GStreamer object construction.
- `GstUtils.AudioFormatForSample`: caps with no structure at all are not distinguished from missing caps.
- `GstUtils.ToString`: a value that does not hold a string reads as null.
- `GstUtils.IsValidAudioFormat` is taken to be: sample rate and channel count positive and the sample format known. `QAudioFormat::isValid` is not part of this model.
- `GstUtils.SetFrameTimeStamps` models only the start and end times of `QVideoFrame`.

## Findings

| source | as written | input that shows it | evidently intended | confidence | as-written member | corrected member |
|---|---|---|---|---|---|---|
| src/plugins/multimedia/ffmpeg/qffmpegencoder.cpp:538-541 | `cleanup` drains with `while (!videoFrameQueue.isEmpty()) loop();`, but `loop` returns before dequeuing while paused (lines 568-569) | frames are queued, the recording is paused before the thread takes them, then the encoder is cleaned up | the drain ends and still encodes every queued frame, which is what a drain on teardown is for: no frame that was accepted into the queue is lost | not executed; assumes the Thread base class, which is outside this model, runs cleanup on kill | FFmpegEncoder.CleanupWhilePausedNeverDrains | FFmpegEncoder.VideoEncoder.Cleanup |
| src/multimedia/qmediaformat.cpp:153-166 | `videoPriorityList` has no `Unspecified` terminator, yet the walk at lines 884-890 stops only at `Unspecified` or a supported codec | RequiresVideo, and a resolved file format for which the platform reports no supported video codec | the walk stops at the end of the list and yields Unspecified | not executed; needs a platform whose chosen format supports no video codec | MediaFormat.VideoSearchOverrunsWithoutVideoCodecs | MediaFormat.ChooseVideoCodec |
