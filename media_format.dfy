/**
  QMediaFormat: a file (container) format with an audio and a video codec, the tables
  that name and describe each enumerator, and resolveForEncoding, which turns a requested
  format into one the platform can encode, by walking fixed priority lists.

  The platform's capability queries (supportedFileFormats, supportedAudioCodecs,
  supportedVideoCodecs in Encode mode) are uninterpreted: a Platform value holds one
  function per query, from the format it is asked on to the set it answers.
*/
module MediaFormat {
  import opened Wrappers

  // ---------------------------------------------------------------------------
  // The three enumerations. Each enumerator's integer value is its position in the
  // name tables below minus one, so the Unspecified enumerator is -1.

  datatype FileFormat =
    | UnspecifiedFormat | WMV | AVI | Matroska | MPEG4 | Ogg | QuickTime | WebM
    | Mpeg4Audio | AAC | WMA | MP3 | FLAC | Wave
  {
    function Value(): (v: int)
      ensures -1 <= v < |FileFormatNames| - 1
      ensures v == -1 <==> this == UnspecifiedFormat
    {
      match this
      case UnspecifiedFormat => -1
      case WMV => 0
      case AVI => 1
      case Matroska => 2
      case MPEG4 => 3
      case Ogg => 4
      case QuickTime => 5
      case WebM => 6
      case Mpeg4Audio => 7
      case AAC => 8
      case WMA => 9
      case MP3 => 10
      case FLAC => 11
      case Wave => 12
    }
  }

  datatype AudioCodec =
    | Unspecified | MP3 | AAC | AC3 | EAC3 | FLAC | DolbyTrueHD | Opus | Vorbis | Wave | WMA | ALAC
  {
    function Value(): (v: int)
      ensures -1 <= v < |AudioCodecNames| - 1
      ensures v == -1 <==> this == AudioCodec.Unspecified
    {
      match this
      case Unspecified => -1
      case MP3 => 0
      case AAC => 1
      case AC3 => 2
      case EAC3 => 3
      case FLAC => 4
      case DolbyTrueHD => 5
      case Opus => 6
      case Vorbis => 7
      case Wave => 8
      case WMA => 9
      case ALAC => 10
    }
  }

  datatype VideoCodec =
    | Unspecified | MPEG1 | MPEG2 | MPEG4 | H264 | H265 | VP8 | VP9 | AV1 | Theora | WMV | MotionJPEG
  {
    function Value(): (v: int)
      ensures -1 <= v < |VideoCodecNames| - 1
      ensures v == -1 <==> this == VideoCodec.Unspecified
    {
      match this
      case Unspecified => -1
      case MPEG1 => 0
      case MPEG2 => 1
      case MPEG4 => 2
      case H264 => 3
      case H265 => 4
      case VP8 => 5
      case VP9 => 6
      case AV1 => 7
      case Theora => 8
      case WMV => 9
      case MotionJPEG => 10
    }
  }

  // ---------------------------------------------------------------------------
  // Name and description tables; slot 0 holds the Unspecified (or "Invalid") entry.

  const FileFormatNames: seq<string> := [
    "Unspecified", "WMV", "AVI", "Matroska", "MPEG-4", "Ogg", "QuickTime", "WebM",
    "MPEG-4 Audio", "AAC", "WMA", "MP3", "FLAC", "Wave"]

  const AudioCodecNames: seq<string> := [
    "Invalid", "MP3", "AAC", "AC3", "EAC3", "FLAC", "DolbyTrueHD", "Opus", "Vorbis",
    "Wave", "WMA", "ALAC"]

  const VideoCodecNames: seq<string> := [
    "Invalid", "MPEG1", "MPEG2", "MPEG4", "H264", "H265", "VP8", "VP9", "AV1", "Theora",
    "WMV", "MotionJPEG"]

  const FileFormatDescriptions: seq<string> := [
    "Unspecified File Format", "Windows Media Video", "Audio Video Interleave",
    "Matroska Multimedia Container", "MPEG-4 Video Container", "Ogg", "QuickTime Container",
    "WebM", "MPEG-4 Audio", "AAC", "Windows Media Audio", "MP3",
    "Free Lossless Audio Codec (FLAC)", "Wave File"]

  const AudioCodecDescriptions: seq<string> := [
    "Unspecified Audio Codec", "MP3", "Advanced Audio Codec (AAC)", "Dolby Digital (AC3)",
    "Dolby Digital Plus (E-AC3)", "Free Lossless Audio Codec (FLAC)", "Dolby True HD", "Opus",
    "Vorbis", "Wave", "Windows Media Audio", "Apple Lossless Audio Codec (ALAC)"]

  const VideoCodecDescriptions: seq<string> := [
    "Unspecified Video Codec", "MPEG-1 Video", "MPEG-2 Video", "MPEG-4 Video", "H.264",
    "H.265", "VP8", "VP9", "AV1", "Theora", "Windows Media Video", "MotionJPEG"]

  /** fileFormatName: the table entry at value + 1. */
  function FileFormatName(f: FileFormat): (name: string)
    ensures name == FileFormatNames[0] <==> f == UnspecifiedFormat
  {
    FileFormatNames[f.Value() + 1]
  }

  function AudioCodecName(c: AudioCodec): (name: string)
    ensures name == AudioCodecNames[0] <==> c == AudioCodec.Unspecified
  {
    AudioCodecNames[c.Value() + 1]
  }

  function VideoCodecName(c: VideoCodec): (name: string)
    ensures name == VideoCodecNames[0] <==> c == VideoCodec.Unspecified
  {
    VideoCodecNames[c.Value() + 1]
  }

  function FileFormatDescription(f: FileFormat): (text: string)
    ensures text == FileFormatDescriptions[0] <==> f == UnspecifiedFormat
  {
    FileFormatDescriptions[f.Value() + 1]
  }

  function AudioCodecDescription(c: AudioCodec): (text: string)
    ensures text == AudioCodecDescriptions[0] <==> c == AudioCodec.Unspecified
  {
    AudioCodecDescriptions[c.Value() + 1]
  }

  function VideoCodecDescription(c: VideoCodec): (text: string)
    ensures text == VideoCodecDescriptions[0] <==> c == VideoCodec.Unspecified
  {
    VideoCodecDescriptions[c.Value() + 1]
  }

  /** Different file formats have different names (and different descriptions). */
  lemma FileFormatNamesDistinguish(a: FileFormat, b: FileFormat)
    requires FileFormatName(a) == FileFormatName(b) || FileFormatDescription(a) == FileFormatDescription(b)
    ensures a == b
  {
    assert Distinct(FileFormatNames);
    assert Distinct(FileFormatDescriptions);
  }

  /** Different audio codecs have different names (and different descriptions). */
  lemma AudioCodecNamesDistinguish(a: AudioCodec, b: AudioCodec)
    requires AudioCodecName(a) == AudioCodecName(b) || AudioCodecDescription(a) == AudioCodecDescription(b)
    ensures a == b
  {
    assert Distinct(AudioCodecNames);
    assert Distinct(AudioCodecDescriptions);
  }

  /** Different video codecs have different names (and different descriptions). */
  lemma VideoCodecNamesDistinguish(a: VideoCodec, b: VideoCodec)
    requires VideoCodecName(a) == VideoCodecName(b) || VideoCodecDescription(a) == VideoCodecDescription(b)
    ensures a == b
  {
    assert Distinct(VideoCodecNames);
    assert Distinct(VideoCodecDescriptions);
  }

  // ---------------------------------------------------------------------------
  // The format value and its equality.

  datatype MediaFormat = MediaFormat(fmt: FileFormat, audio: AudioCodec, video: VideoCodec)

  /** A default-constructed QMediaFormat. */
  const Default := MediaFormat(UnspecifiedFormat, AudioCodec.Unspecified, VideoCodec.Unspecified)

  /** operator==: field-wise comparison of the three enumerators. */
  function Equals(a: MediaFormat, b: MediaFormat): (r: bool)
    ensures r <==> a == b
  {
    a.fmt == b.fmt && a.audio == b.audio && a.video == b.video
  }

  // ---------------------------------------------------------------------------
  // Priority lists, each ending in its Unspecified terminator.

  const VideoFormatPriorityList: seq<FileFormat> :=
    [FileFormat.MPEG4, QuickTime, AVI, WebM, FileFormat.WMV, Matroska, Ogg, UnspecifiedFormat]

  const AudioFormatPriorityList: seq<FileFormat> :=
    [Mpeg4Audio, FileFormat.MP3, FileFormat.WMA, FileFormat.FLAC, FileFormat.Wave, UnspecifiedFormat]

  const AudioPriorityList: seq<AudioCodec> := [
    AudioCodec.AAC, AudioCodec.MP3, AC3, Opus, EAC3, DolbyTrueHD, AudioCodec.WMA,
    AudioCodec.FLAC, Vorbis, AudioCodec.Wave, AudioCodec.Unspecified]

  /** The video codec list as the source declares it: without a terminator. */
  const VideoPriorityListAsWritten: seq<VideoCodec> := [
    H265, VP9, H264, AV1, VP8, VideoCodec.WMV, Theora, VideoCodec.MPEG4, MPEG2, MPEG1, MotionJPEG]

  /** The video codec list with the terminator the search loop relies on. */
  const VideoPriorityList: seq<VideoCodec> := VideoPriorityListAsWritten + [VideoCodec.Unspecified]

  /**
    The position where a walk over a terminated priority list stops: the first entry that
    is supported, or the terminator.
  */
  function FirstStop<T(==)>(list: seq<T>, terminator: T, supported: set<T>): (k: nat)
    requires terminator in list
    ensures k < |list|
    ensures list[k] == terminator || list[k] in supported
    ensures forall j :: 0 <= j < k ==> list[j] != terminator && list[j] !in supported
  {
    if list[0] == terminator || list[0] in supported then 0
    else 1 + FirstStop(list[1..], terminator, supported)
  }

  /**
    `r` is what a walk over a terminated priority list returns: it stands at some position
    of the list, it is supported or the terminator, and every entry before that position is
    neither.
  */
  predicate IsFirstSupported<T(==)>(list: seq<T>, terminator: T, supported: set<T>, r: T)
  {
    exists k :: 0 <= k < |list| && list[k] == r && (r == terminator || r in supported)
      && forall j :: 0 <= j < k ==> list[j] != terminator && list[j] !in supported
  }

  /** The entry a walk over a terminated priority list returns. */
  function FirstSupported<T(==)>(list: seq<T>, terminator: T, supported: set<T>): (r: T)
    requires terminator in list
    ensures IsFirstSupported(list, terminator, supported, r)
  {
    list[FirstStop(list, terminator, supported)]
  }

  /** Only one entry of a list can be the first supported one: the walk's. */
  lemma FirstSupportedUnique<T>(list: seq<T>, terminator: T, supported: set<T>, r: T)
    requires terminator in list
    ensures IsFirstSupported(list, terminator, supported, r) <==> r == FirstSupported(list, terminator, supported)
  {
    if IsFirstSupported(list, terminator, supported, r) {
      var k :| 0 <= k < |list| && list[k] == r && (r == terminator || r in supported)
        && forall j :: 0 <= j < k ==> list[j] != terminator && list[j] !in supported;
      var s := FirstStop(list, terminator, supported);
      assert !(k < s) && !(s < k);
    }
  }

  /** An entry before the terminator that is supported is never passed over. */
  lemma {:induction false} FirstSupportedFindsEarliest<T>(list: seq<T>, terminator: T, supported: set<T>, i: nat)
    requires terminator in list
    requires i < |list| && list[i] in supported
    requires forall j :: 0 <= j < i ==> list[j] != terminator
    ensures FirstSupported(list, terminator, supported) in supported
    ensures FirstStop(list, terminator, supported) <= i
  {
  }

  /**
    On a list whose only terminator is its last entry, the walk ends on the terminator
    exactly when no entry before it is supported.
  */
  lemma FirstSupportedIsTerminatorIff<T>(list: seq<T>, terminator: T, supported: set<T>)
    requires |list| > 0 && list[|list| - 1] == terminator
    requires forall i :: 0 <= i < |list| - 1 ==> list[i] != terminator
    ensures FirstSupported(list, terminator, supported) == terminator <==>
      forall i :: 0 <= i < |list| - 1 ==> list[i] !in supported
  {
    forall i | 0 <= i < |list| - 1 && list[i] in supported
      ensures FirstSupported(list, terminator, supported) != terminator
    {
      FirstSupportedFindsEarliest(list, terminator, supported, i);
    }
  }

  /** The while loop that walks a priority list until it meets a supported entry or the terminator. */
  method PriorityPick<T(==)>(list: seq<T>, terminator: T, supported: set<T>) returns (r: T)
    requires terminator in list
    ensures r in list && (r == terminator || r in supported)
    ensures r == FirstSupported(list, terminator, supported)
  {
    var i := 0;
    while list[i] != terminator
      invariant i <= FirstStop(list, terminator, supported)
      invariant forall j :: 0 <= j < i ==> list[j] != terminator && list[j] !in supported
      decreases FirstStop(list, terminator, supported) - i
    {
      if list[i] in supported {
        break;
      }
      i := i + 1;
    }
    r := list[i];
  }

  /**
    The same walk over a list that has no terminator, as the source does over the video
    codec list: None stands for stepping past the last element.
  */
  function SearchAsWritten(list: seq<VideoCodec>, supported: set<VideoCodec>): Option<VideoCodec>
  {
    if list == [] then None
    else if list[0] == VideoCodec.Unspecified then Some(VideoCodec.Unspecified)
    else if list[0] in supported then Some(list[0])
    else SearchAsWritten(list[1..], supported)
  }

  /** Without a terminator the walk leaves the array exactly when no listed codec is supported. */
  lemma {:induction false} SearchAsWrittenOverruns(list: seq<VideoCodec>, supported: set<VideoCodec>)
    requires VideoCodec.Unspecified !in list
    ensures SearchAsWritten(list, supported) == None <==> forall i :: 0 <= i < |list| ==> list[i] !in supported
  {
    if list != [] {
      SearchAsWrittenOverruns(list[1..], supported);
      assert forall i :: 1 <= i < |list| ==> list[i] == list[1..][i - 1];
    }
  }

  /** A format that supports no video codec drives the source's video search past the array. */
  lemma VideoSearchOverrunsWithoutVideoCodecs()
    ensures SearchAsWritten(VideoPriorityListAsWritten, {}) == None
  {
    SearchAsWrittenOverruns(VideoPriorityListAsWritten, {});
  }

  /**
    Adding the terminator changes nothing where the source's walk finds a codec and gives
    Unspecified where it would have left the array.
  */
  lemma {:induction false} TerminatedSearchAgrees(list: seq<VideoCodec>, supported: set<VideoCodec>)
    requires VideoCodec.Unspecified !in list
    ensures FirstSupported(list + [VideoCodec.Unspecified], VideoCodec.Unspecified, supported)
         == match SearchAsWritten(list, supported) case Some(c) => c case None => VideoCodec.Unspecified
  {
    var t := list + [VideoCodec.Unspecified];
    if list != [] && list[0] !in supported {
      TerminatedSearchAgrees(list[1..], supported);
      assert t[1..] == list[1..] + [VideoCodec.Unspecified];
    }
  }

  // ---------------------------------------------------------------------------
  // resolveForEncoding

  datatype ResolveFlags = NoFlags | RequiresVideo

  /** The platform's answers to the three Encode-mode capability queries. */
  datatype Platform = Platform(
    fileFormats: MediaFormat -> set<FileFormat>,
    audioCodecs: MediaFormat -> set<AudioCodec>,
    videoCodecs: MediaFormat -> set<VideoCodec>)

  /**
    The first step of resolveForEncoding: drop the video codec unless video is required, and
    reset each field the platform does not support on a default format (the file format also
    when video is required and this format offers no video codec).
  */
  function ResetUnsupported(f: MediaFormat, flags: ResolveFlags, p: Platform): (m: MediaFormat)
    ensures m.fmt == UnspecifiedFormat || m.fmt == f.fmt
    ensures m.fmt == f.fmt <== f.fmt in p.fileFormats(Default) && (flags == RequiresVideo ==> p.videoCodecs(f) != {})
    ensures m.fmt != UnspecifiedFormat ==> m.fmt in p.fileFormats(Default)
    ensures flags == RequiresVideo && m.fmt != UnspecifiedFormat ==> p.videoCodecs(f) != {}
    ensures m.audio == AudioCodec.Unspecified || (m.audio == f.audio && m.audio in p.audioCodecs(Default))
    ensures f.audio in p.audioCodecs(Default) ==> m.audio == f.audio
    ensures flags == NoFlags ==> m.video == VideoCodec.Unspecified
    ensures m.video == VideoCodec.Unspecified || (m.video == f.video && m.video in p.videoCodecs(Default))
    ensures flags == RequiresVideo && f.video in p.videoCodecs(Default) ==> m.video == f.video
  {
    var requiresVideo := flags == RequiresVideo;
    var fmt0 := if requiresVideo && p.videoCodecs(f) == {} then UnspecifiedFormat else f.fmt;
    var fmt1 := if fmt0 in p.fileFormats(Default) then fmt0 else UnspecifiedFormat;
    var audio := if f.audio in p.audioCodecs(Default) then f.audio else AudioCodec.Unspecified;
    var video := if requiresVideo && f.video in p.videoCodecs(Default) then f.video else VideoCodec.Unspecified;
    MediaFormat(fmt1, audio, video)
  }

  /**
    The bestSupportedFileFormat helper: the first entry of the audio-format list (when the
    flags are NoFlags) or of the video-format list (otherwise) that the platform supports for
    the given codecs, or UnspecifiedFormat.
  */
  function BestSupportedFileFormat(flags: ResolveFlags, p: Platform, audio: AudioCodec, video: VideoCodec): (r: FileFormat)
    ensures var list := if flags == NoFlags then AudioFormatPriorityList else VideoFormatPriorityList;
      && r in list
      && (r == UnspecifiedFormat || r in p.fileFormats(MediaFormat(UnspecifiedFormat, audio, video)))
      && IsFirstSupported(list, UnspecifiedFormat, p.fileFormats(MediaFormat(UnspecifiedFormat, audio, video)), r)
      && (r == UnspecifiedFormat <==>
            forall i :: 0 <= i < |list| - 1 ==> list[i] !in p.fileFormats(MediaFormat(UnspecifiedFormat, audio, video)))
  {
    var list := if flags == NoFlags then AudioFormatPriorityList else VideoFormatPriorityList;
    var supported := p.fileFormats(MediaFormat(UnspecifiedFormat, audio, video));
    FirstSupportedIsTerminatorIff(list, UnspecifiedFormat, supported);
    FirstSupported(list, UnspecifiedFormat, supported)
  }

  /**
    The answers of the file-format fallback queries, in the order they are tried: with both
    codecs, then without the audio codec (these two only when video is required), then
    without the video codec, then with neither.
  */
  function FileFormatFallbacks(m: MediaFormat, flags: ResolveFlags, p: Platform): seq<FileFormat>
  {
    var withoutVideo := BestSupportedFileFormat(flags, p, m.audio, VideoCodec.Unspecified);
    var withNeither := BestSupportedFileFormat(flags, p, AudioCodec.Unspecified, VideoCodec.Unspecified);
    if flags == RequiresVideo
    then [BestSupportedFileFormat(flags, p, m.audio, m.video), BestSupportedFileFormat(flags, p, AudioCodec.Unspecified, m.video),
          withoutVideo, withNeither]
    else [withoutVideo, withNeither]
  }

  /**
    The cascade of fallbacks over the answers b1, b2 (tried only when video is required),
    b3 and b4, keeping a specified `fmt`: it ends on Unspecified exactly when every answer
    tried is Unspecified, and otherwise on the first answer tried that is not.
  */
  lemma CascadeFindsFirst(fmt: FileFormat, requiresVideo: bool, b1: FileFormat, b2: FileFormat, b3: FileFormat, b4: FileFormat,
                          r: FileFormat)
    requires var f2 := if requiresVideo && fmt == UnspecifiedFormat
                       then (if b1 == UnspecifiedFormat then b2 else b1) else fmt;
      var f3 := if f2 == UnspecifiedFormat then b3 else f2;
      r == if f3 == UnspecifiedFormat then b4 else f3
    ensures var tried := if requiresVideo then [b1, b2, b3, b4] else [b3, b4];
      && (fmt != UnspecifiedFormat ==> r == fmt)
      && (r == UnspecifiedFormat <==> fmt == UnspecifiedFormat && forall i :: 0 <= i < |tried| ==> tried[i] == UnspecifiedFormat)
      && (fmt == UnspecifiedFormat ==>
            forall i :: 0 <= i < |tried| && tried[i] != UnspecifiedFormat && (forall j :: 0 <= j < i ==> tried[j] == UnspecifiedFormat)
              ==> r == tried[i])
  {
    var tried := if requiresVideo then [b1, b2, b3, b4] else [b3, b4];
    if requiresVideo {
      assert tried[0] == b1 && tried[1] == b2 && tried[2] == b3 && tried[3] == b4;
    } else {
      assert tried[0] == b3 && tried[1] == b4;
    }
  }

  /**
    The file-format fallbacks: keep a file format that survived the reset; otherwise try the
    priority list with both codecs, then without the audio codec (both only when video is
    required), then without the video codec, then with neither.
  */
  function ChooseFileFormat(m: MediaFormat, flags: ResolveFlags, p: Platform): (r: FileFormat)
    ensures m.fmt != UnspecifiedFormat ==> r == m.fmt
    ensures m.fmt == UnspecifiedFormat && r != UnspecifiedFormat ==>
      r in (if flags == NoFlags then AudioFormatPriorityList else VideoFormatPriorityList)
    ensures r == UnspecifiedFormat ==>
      && m.fmt == UnspecifiedFormat
      && BestSupportedFileFormat(flags, p, m.audio, VideoCodec.Unspecified) == UnspecifiedFormat
      && BestSupportedFileFormat(flags, p, AudioCodec.Unspecified, VideoCodec.Unspecified) == UnspecifiedFormat
    ensures var tried := FileFormatFallbacks(m, flags, p);
      r == UnspecifiedFormat <==> m.fmt == UnspecifiedFormat && forall i :: 0 <= i < |tried| ==> tried[i] == UnspecifiedFormat
    ensures var tried := FileFormatFallbacks(m, flags, p);
      m.fmt == UnspecifiedFormat ==>
        forall i :: 0 <= i < |tried| && tried[i] != UnspecifiedFormat && (forall j :: 0 <= j < i ==> tried[j] == UnspecifiedFormat)
          ==> r == tried[i]
  {
    var requiresVideo := flags == RequiresVideo;
    var f1 := if requiresVideo && m.fmt == UnspecifiedFormat then BestSupportedFileFormat(flags, p, m.audio, m.video) else m.fmt;
    var f2 := if requiresVideo && f1 == UnspecifiedFormat then BestSupportedFileFormat(flags, p, AudioCodec.Unspecified, m.video) else f1;
    var f3 := if f2 == UnspecifiedFormat then BestSupportedFileFormat(flags, p, m.audio, VideoCodec.Unspecified) else f2;
    var r := if f3 == UnspecifiedFormat then BestSupportedFileFormat(flags, p, AudioCodec.Unspecified, VideoCodec.Unspecified) else f3;
    CascadeFindsFirst(m.fmt, requiresVideo,
      BestSupportedFileFormat(flags, p, m.audio, m.video), BestSupportedFileFormat(flags, p, AudioCodec.Unspecified, m.video),
      BestSupportedFileFormat(flags, p, m.audio, VideoCodec.Unspecified),
      BestSupportedFileFormat(flags, p, AudioCodec.Unspecified, VideoCodec.Unspecified), r);
    r
  }

  /**
    The video-codec step (video required): keep a codec the resolved file format supports
    when asked without an audio codec; otherwise the first supported entry of the video list.
  */
  function ChooseVideoCodec(fmt: FileFormat, video: VideoCodec, p: Platform): (r: VideoCodec)
    ensures var codecs := p.videoCodecs(MediaFormat(fmt, AudioCodec.Unspecified, video));
      && (video in codecs ==> r == video)
      && (r in codecs || r == VideoCodec.Unspecified)
      && (video !in codecs ==> IsFirstSupported(VideoPriorityList, VideoCodec.Unspecified, codecs, r))
      && (r == VideoCodec.Unspecified && video !in codecs ==>
            forall i :: 0 <= i < |VideoPriorityListAsWritten| ==> VideoPriorityListAsWritten[i] !in codecs)
  {
    var codecs := p.videoCodecs(MediaFormat(fmt, AudioCodec.Unspecified, video));
    if video in codecs then video
    else
      FirstSupportedIsTerminatorIff(VideoPriorityList, VideoCodec.Unspecified, codecs);
      assert VideoPriorityList[..|VideoPriorityListAsWritten|] == VideoPriorityListAsWritten;
      FirstSupported(VideoPriorityList, VideoCodec.Unspecified, codecs)
  }

  /**
    The audio-codec step: keep a codec the resolved format supports; otherwise the first
    supported entry of the audio list, or Unspecified exactly when the format supports none
    of the listed codecs.
  */
  function ChooseAudioCodec(fmt: FileFormat, audio: AudioCodec, video: VideoCodec, p: Platform): (r: AudioCodec)
    ensures var codecs := p.audioCodecs(MediaFormat(fmt, audio, video));
      && (audio in codecs ==> r == audio)
      && (r in codecs || r == AudioCodec.Unspecified)
      && (audio !in codecs && r != AudioCodec.Unspecified ==> r in AudioPriorityList)
      && (audio !in codecs ==> IsFirstSupported(AudioPriorityList, AudioCodec.Unspecified, codecs, r))
      && (audio !in codecs ==>
            (r == AudioCodec.Unspecified <==> forall i :: 0 <= i < |AudioPriorityList| - 1 ==> AudioPriorityList[i] !in codecs))
  {
    var codecs := p.audioCodecs(MediaFormat(fmt, audio, video));
    if audio in codecs then audio
    else
      FirstSupportedIsTerminatorIff(AudioPriorityList, AudioCodec.Unspecified, codecs);
      FirstSupported(AudioPriorityList, AudioCodec.Unspecified, codecs)
  }

  /**
    resolveForEncoding as a composition of its steps: the default format when no file
    format can be found, and never a video codec unless video is required.
  */
  function Resolve(f: MediaFormat, flags: ResolveFlags, p: Platform): (r: MediaFormat)
    ensures r.fmt == UnspecifiedFormat ==> r == Default
    ensures flags == NoFlags ==> r.video == VideoCodec.Unspecified
  {
    var m := ResetUnsupported(f, flags, p);
    var fmt := ChooseFileFormat(m, flags, p);
    if fmt == UnspecifiedFormat then Default
    else
      var video := if flags == RequiresVideo then ChooseVideoCodec(fmt, m.video, p) else VideoCodec.Unspecified;
      MediaFormat(fmt, ChooseAudioCodec(fmt, m.audio, video, p), video)
  }

  /**
    The file-format fallbacks of resolveForEncoding as it runs them: each query walks the
    priority list for the flags, and only while no file format has been found.
  */
  method FallBackFileFormat(m: MediaFormat, flags: ResolveFlags, p: Platform) returns (fmt: FileFormat)
    ensures fmt == ChooseFileFormat(m, flags, p)
  {
    var requiresVideo := flags == RequiresVideo;
    var audio, video := m.audio, m.video;
    fmt := m.fmt;
    var listFlags := if flags == NoFlags then AudioFormatPriorityList else VideoFormatPriorityList;
    if requiresVideo {
      if fmt == UnspecifiedFormat {
        fmt := PriorityPick(listFlags, UnspecifiedFormat, p.fileFormats(MediaFormat(UnspecifiedFormat, audio, video)));
      }
      if fmt == UnspecifiedFormat {
        fmt := PriorityPick(listFlags, UnspecifiedFormat, p.fileFormats(MediaFormat(UnspecifiedFormat, AudioCodec.Unspecified, video)));
      }
    }
    if fmt == UnspecifiedFormat {
      fmt := PriorityPick(listFlags, UnspecifiedFormat, p.fileFormats(MediaFormat(UnspecifiedFormat, audio, VideoCodec.Unspecified)));
    }
    if fmt == UnspecifiedFormat {
      fmt := PriorityPick(listFlags, UnspecifiedFormat, p.fileFormats(MediaFormat(UnspecifiedFormat, AudioCodec.Unspecified, VideoCodec.Unspecified)));
    }
  }

  /**
    QMediaFormat::resolveForEncoding, reassigning the three fields step by step. QMediaFormat
    is a value type, so the updated *this is returned.
  */
  method ResolveForEncoding(f: MediaFormat, flags: ResolveFlags, p: Platform) returns (r: MediaFormat)
    ensures r == Resolve(f, flags, p)
    ensures flags == NoFlags ==> r.video == VideoCodec.Unspecified
    ensures r.fmt == UnspecifiedFormat ==> r == Default
  {
    var requiresVideo := flags == RequiresVideo;
    var fmt, audio, video := f.fmt, f.audio, f.video;
    if !requiresVideo {
      video := VideoCodec.Unspecified;
    }

    var supportedFormats := p.fileFormats(Default);
    var supportedAudioCodecs := p.audioCodecs(Default);
    var supportedVideoCodecs := p.videoCodecs(Default);

    if requiresVideo && p.videoCodecs(MediaFormat(fmt, audio, video)) == {} {
      fmt := UnspecifiedFormat;
    }
    if fmt !in supportedFormats {
      fmt := UnspecifiedFormat;
    }
    if audio !in supportedAudioCodecs {
      audio := AudioCodec.Unspecified;
    }
    if !requiresVideo || video !in supportedVideoCodecs {
      video := VideoCodec.Unspecified;
    }
    assert MediaFormat(fmt, audio, video) == ResetUnsupported(f, flags, p);

    fmt := FallBackFileFormat(MediaFormat(fmt, audio, video), flags, p);
    if fmt == UnspecifiedFormat {
      r := Default;
      return;
    }

    if requiresVideo {
      var a := audio;
      audio := AudioCodec.Unspecified;
      var videoCodecs := p.videoCodecs(MediaFormat(fmt, audio, video));
      if video !in videoCodecs {
        video := PriorityPick(VideoPriorityList, VideoCodec.Unspecified, videoCodecs);
      }
      audio := a;
    } else {
      video := VideoCodec.Unspecified;
    }

    var audioCodecs := p.audioCodecs(MediaFormat(fmt, audio, video));
    if audio !in audioCodecs {
      audio := PriorityPick(AudioPriorityList, AudioCodec.Unspecified, audioCodecs);
    }
    r := MediaFormat(fmt, audio, video);
  }

  // ---------------------------------------------------------------------------
  // What resolveForEncoding promises.

  /**
    A file format is kept if the platform supports it and, when video is required, it offers
    at least one video codec.
  */
  lemma ResolveKeepsSupportedFormat(f: MediaFormat, flags: ResolveFlags, p: Platform)
    requires f.fmt != UnspecifiedFormat && f.fmt in p.fileFormats(Default)
    requires flags == RequiresVideo ==> p.videoCodecs(f) != {}
    ensures Resolve(f, flags, p).fmt == f.fmt
  {
  }

  /**
    The result is the default format exactly when the requested file format does not
    survive the reset (unsupported, or offering no video codec when video is required) and
    every file-format fallback query comes back empty.
  */
  lemma ResolveGivesUpToDefault(f: MediaFormat, flags: ResolveFlags, p: Platform)
    ensures Resolve(f, flags, p) == Default <==> ChooseFileFormat(ResetUnsupported(f, flags, p), flags, p) == UnspecifiedFormat
    ensures var tried := FileFormatFallbacks(ResetUnsupported(f, flags, p), flags, p);
      Resolve(f, flags, p) == Default <==>
        && (f.fmt == UnspecifiedFormat || f.fmt !in p.fileFormats(Default) || (flags == RequiresVideo && p.videoCodecs(f) == {}))
        && forall i :: 0 <= i < |tried| ==> tried[i] == UnspecifiedFormat
  {
  }

  /**
    With video required, a video codec that survived the reset and that the resolved file
    format supports (asked without an audio codec) is kept, and the resolved codec is one
    the format supports unless it supports none of the listed codecs. The audio codec
    cleared for that query is restored: the audio step starts from the codec the reset
    left, not from Unspecified.
  */
  lemma ResolveVideoCodec(f: MediaFormat, p: Platform)
    requires Resolve(f, RequiresVideo, p).fmt != UnspecifiedFormat
    ensures var r := Resolve(f, RequiresVideo, p);
      var m := ResetUnsupported(f, RequiresVideo, p);
      var codecs := p.videoCodecs(MediaFormat(r.fmt, AudioCodec.Unspecified, m.video));
      && (m.video in codecs ==> r.video == m.video)
      && (r.video in codecs || forall i :: 0 <= i < |VideoPriorityListAsWritten| ==> VideoPriorityListAsWritten[i] !in codecs)
      && (m.video !in codecs ==> IsFirstSupported(VideoPriorityList, VideoCodec.Unspecified, codecs, r.video))
      && r.audio == ChooseAudioCodec(r.fmt, m.audio, r.video, p)
  {
  }

  /**
    The audio codec is kept when the resolved format supports it; otherwise it is a listed
    codec the format supports, or Unspecified exactly when the format supports none of them.
  */
  lemma ResolveAudioCodec(f: MediaFormat, flags: ResolveFlags, p: Platform)
    requires Resolve(f, flags, p).fmt != UnspecifiedFormat
    ensures var r := Resolve(f, flags, p);
      var a := ResetUnsupported(f, flags, p).audio;
      var codecs := p.audioCodecs(MediaFormat(r.fmt, a, r.video));
      && (a in codecs ==> r.audio == a)
      && (r.audio in codecs || r.audio == AudioCodec.Unspecified)
      && (a !in codecs && r.audio != AudioCodec.Unspecified ==> r.audio in AudioPriorityList)
      && (a !in codecs ==> IsFirstSupported(AudioPriorityList, AudioCodec.Unspecified, codecs, r.audio))
      && (a !in codecs ==>
            (r.audio == AudioCodec.Unspecified <==> forall i :: 0 <= i < |AudioPriorityList| - 1 ==> AudioPriorityList[i] !in codecs))
  {
  }
}
