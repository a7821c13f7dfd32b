/**
  The GStreamer helper tables and conversions: audio sample-format names, the two-way
  table between Qt pixel formats and GStreamer video formats, reading formats and sizes out
  of caps structures, building audio caps, and stamping video frames with buffer times.

  A caps structure is a record of optional fields: a field that is absent, or that holds a
  value of another type, is None. A sample or caps object is represented by its first
  structure (None when there are no caps).
*/
module GstUtils {
  import opened Wrappers

  /** Which branch of the byte-order conditionals in the tables applies. */
  datatype ByteOrder = LittleEndian | BigEndian

  // ---------------------------------------------------------------------------
  // Audio sample formats

  /** QAudioFormat::SampleFormat: Unknown, UInt8, Int16, Int32, Float (NSampleFormats is 5). */
  const NSampleFormats: int := 5
  newtype SampleFormat = i: int | 0 <= i < 5
  const Unknown: SampleFormat := 0
  const UInt8: SampleFormat := 1
  const Int16: SampleFormat := 2
  const Int32: SampleFormat := 3
  const Float: SampleFormat := 4

  /** audioSampleFormatNames: slot 0 (Unknown) is a null pointer. */
  function AudioSampleFormatNames(order: ByteOrder): (names: seq<Option<string>>)
    ensures |names| == NSampleFormats
  {
    if order == LittleEndian then [None, Some("U8"), Some("S16LE"), Some("S32LE"), Some("F32LE")]
    else [None, Some("U8"), Some("S16BE"), Some("S32BE"), Some("F32BE")]
  }

  /** The strcmp loop of gstSampleFormatToSampleFormat, from slot i on. */
  function FindSampleFormat(order: ByteOrder, name: string, i: int): (r: SampleFormat)
    requires 1 <= i <= NSampleFormats
    ensures r != Unknown ==> i <= r as int && AudioSampleFormatNames(order)[r] == Some(name)
    ensures r != Unknown ==> forall j :: i <= j < r as int ==> AudioSampleFormatNames(order)[j] != Some(name)
    ensures r == Unknown <==> forall j :: i <= j < NSampleFormats ==> AudioSampleFormatNames(order)[j] != Some(name)
    decreases NSampleFormats - i
  {
    if i == NSampleFormats then Unknown
    else if AudioSampleFormatNames(order)[i] == Some(name) then i as SampleFormat
    else FindSampleFormat(order, name, i + 1)
  }

  /**
    gstSampleFormatToSampleFormat: a null or unrecognised name gives Unknown, a recognised
    one the index of its slot.
  */
  function GstSampleFormatToSampleFormat(order: ByteOrder, fmt: Option<string>): (r: SampleFormat)
    ensures r != Unknown ==> fmt.Some? && AudioSampleFormatNames(order)[r] == fmt
    ensures r == Unknown <==> fmt.None? || forall j :: 1 <= j < NSampleFormats ==> AudioSampleFormatNames(order)[j] != fmt
  {
    if fmt.None? then Unknown else FindSampleFormat(order, fmt.value, 1)
  }

  /** Every known format's name maps back to that format. */
  lemma SampleFormatNameRoundTrip(order: ByteOrder, s: SampleFormat)
    requires s != Unknown
    ensures GstSampleFormatToSampleFormat(order, AudioSampleFormatNames(order)[s]) == s
  {
    var names := AudioSampleFormatNames(order);
    assert Distinct(names);
    var r := GstSampleFormatToSampleFormat(order, names[s]);
    assert r != Unknown;
  }

  /** A GLib value: a string (possibly null), an integer, a list, or something else. */
  datatype GValue = GString(s: Option<string>) | GInt(i: int) | GList(items: seq<GValue>) | GOther

  /** QGValue::toString: the string a string value holds, null for every other value. */
  function ToString(v: GValue): Option<string>
  {
    if v.GString? then v.s else None
  }

  /** The recognised sample formats among list items, in order, unknown ones left out. */
  function KnownFormats(order: ByteOrder, items: seq<GValue>): (fs: seq<SampleFormat>)
    ensures |fs| <= |items|
    ensures forall k :: 0 <= k < |fs| ==> fs[k] != Unknown
  {
    if items == [] then []
    else
      var fmt := GstSampleFormatToSampleFormat(order, ToString(items[|items| - 1]));
      KnownFormats(order, items[..|items| - 1]) + (if fmt == Unknown then [] else [fmt])
  }

  /** The names of known formats, as a list value would carry them. */
  function NameValues(order: ByteOrder, fs: seq<SampleFormat>): seq<GValue>
  {
    seq(|fs|, k requires 0 <= k < |fs| => GString(AudioSampleFormatNames(order)[fs[k]]))
  }

  /** A list of the names of known formats reads back as exactly those formats. */
  lemma {:induction false} KnownFormatsOfNames(order: ByteOrder, fs: seq<SampleFormat>)
    requires forall k :: 0 <= k < |fs| ==> fs[k] != Unknown
    ensures KnownFormats(order, NameValues(order, fs)) == fs
  {
    if fs != [] {
      var n := |fs| - 1;
      KnownFormatsOfNames(order, fs[..n]);
      assert NameValues(order, fs)[..n] == NameValues(order, fs[..n]);
      SampleFormatNameRoundTrip(order, fs[n]);
      assert fs[..n] + [fs[n]] == fs;
    }
  }

  /**
    QGValue::getSampleFormats: empty for a value that is not a list; otherwise the
    recognised formats of the list, in order, skipping unknown names.
  */
  method GetSampleFormats(order: ByteOrder, value: GValue) returns (formats: seq<SampleFormat>)
    ensures !value.GList? ==> formats == []
    ensures value.GList? ==> formats == KnownFormats(order, value.items)
    ensures forall k :: 0 <= k < |formats| ==> formats[k] != Unknown
  {
    if !value.GList? {
      return [];
    }
    formats := [];
    var items := value.items;
    var f := 0;
    while f < |items|
      invariant 0 <= f <= |items|
      invariant formats == KnownFormats(order, items[..f])
    {
      var fmt := GstSampleFormatToSampleFormat(order, ToString(items[f]));
      assert items[..f + 1][..f] == items[..f];
      if fmt != Unknown {
        formats := formats + [fmt];
      }
      f := f + 1;
    }
    assert items[..f] == items;
  }

  // ---------------------------------------------------------------------------
  // Pixel formats and GStreamer video formats

  /** QVideoSurfaceFormat::PixelFormat; Unlisted stands for any enumerator the table omits. */
  datatype PixelFormat =
    | Invalid | YUV420P | YUV422P | YV12 | UYVY | YUYV | NV12 | NV21 | AYUV444 | Y8
    | RGB32 | BGR32 | ARGB32 | ABGR32 | BGRA32 | RGB555 | BGR555 | Y16 | P010 | RGB565
    | Unlisted(code: nat)

  /** GstVideoFormat; OtherGstFormat stands for any value the table omits. */
  datatype GstVideoFormat =
    | GstUnknown | I420 | Y42B | GstYV12 | GstUYVY | YUY2 | GstNV12 | GstNV21 | AYUV | GRAY8
    | BGRx | RGBx | BGRA | RGBA | ARGB | BGR15 | RGB15 | GRAY16_LE | P010_10LE
    | xRGB | xBGR | ABGR | GRAY16_BE | P010_10BE | RGB16
    | OtherGstFormat(code: nat)

  datatype VideoFormat = VideoFormat(pixelFormat: PixelFormat, gstFormat: GstVideoFormat)

  /** qt_videoFormatLookup. */
  function VideoFormatLookup(order: ByteOrder): (table: seq<VideoFormat>)
    ensures |table| == 19
  {
    [ VideoFormat(YUV420P, I420), VideoFormat(YUV422P, Y42B), VideoFormat(YV12, GstYV12),
      VideoFormat(UYVY, GstUYVY), VideoFormat(YUYV, YUY2), VideoFormat(NV12, GstNV12),
      VideoFormat(NV21, GstNV21), VideoFormat(AYUV444, AYUV), VideoFormat(Y8, GRAY8) ]
    + (if order == LittleEndian then
        [ VideoFormat(RGB32, BGRx), VideoFormat(BGR32, RGBx), VideoFormat(ARGB32, BGRA),
          VideoFormat(ABGR32, RGBA), VideoFormat(BGRA32, ARGB), VideoFormat(RGB555, BGR15),
          VideoFormat(BGR555, RGB15), VideoFormat(Y16, GRAY16_LE), VideoFormat(P010, P010_10LE) ]
      else
        [ VideoFormat(RGB32, xRGB), VideoFormat(BGR32, xBGR), VideoFormat(ARGB32, ARGB),
          VideoFormat(ABGR32, ABGR), VideoFormat(BGRA32, BGRA), VideoFormat(RGB555, RGB15),
          VideoFormat(BGR555, BGR15), VideoFormat(Y16, GRAY16_BE), VideoFormat(P010, P010_10BE) ])
    + [ VideoFormat(RGB565, RGB16) ]
  }

  /** Neither column of the table repeats a value. */
  lemma LookupColumnsDistinct(order: ByteOrder)
    ensures var t := VideoFormatLookup(order);
      forall i, j :: 0 <= i < j < |t| ==> t[i].pixelFormat != t[j].pixelFormat && t[i].gstFormat != t[j].gstFormat
  {
  }

  /** The table never maps to an invalid pixel format. */
  lemma LookupHasNoInvalid(order: ByteOrder)
    ensures forall j :: 0 <= j < 19 ==> VideoFormatLookup(order)[j].pixelFormat != Invalid
  {
  }

  /** indexOfVideoFormat(PixelFormat), from slot i on. */
  function IndexOfPixelFormatFrom(order: ByteOrder, format: PixelFormat, i: nat): (r: int)
    requires i <= 19
    ensures r == -1 || i <= r < 19
    ensures r >= 0 ==> VideoFormatLookup(order)[r].pixelFormat == format
    ensures r >= 0 ==> forall j :: i <= j < r ==> VideoFormatLookup(order)[j].pixelFormat != format
    ensures r == -1 <==> forall j :: i <= j < 19 ==> VideoFormatLookup(order)[j].pixelFormat != format
    decreases 19 - i
  {
    if i == 19 then -1
    else if VideoFormatLookup(order)[i].pixelFormat == format then i
    else IndexOfPixelFormatFrom(order, format, i + 1)
  }

  /** indexOfVideoFormat(GstVideoFormat), from slot i on. */
  function IndexOfGstFormatFrom(order: ByteOrder, format: GstVideoFormat, i: nat): (r: int)
    requires i <= 19
    ensures r == -1 || i <= r < 19
    ensures r >= 0 ==> VideoFormatLookup(order)[r].gstFormat == format
    ensures r >= 0 ==> forall j :: i <= j < r ==> VideoFormatLookup(order)[j].gstFormat != format
    ensures r == -1 <==> forall j :: i <= j < 19 ==> VideoFormatLookup(order)[j].gstFormat != format
    decreases 19 - i
  {
    if i == 19 then -1
    else if VideoFormatLookup(order)[i].gstFormat == format then i
    else IndexOfGstFormatFrom(order, format, i + 1)
  }

  /** The first table index whose pixel format matches, or -1 when no entry does. */
  function IndexOfPixelFormat(order: ByteOrder, format: PixelFormat): (r: int)
    ensures r == -1 || 0 <= r < 19
    ensures r >= 0 ==> VideoFormatLookup(order)[r].pixelFormat == format
    ensures r == -1 <==> forall j :: 0 <= j < 19 ==> VideoFormatLookup(order)[j].pixelFormat != format
  {
    IndexOfPixelFormatFrom(order, format, 0)
  }

  /** The first table index whose GStreamer format matches, or -1 when no entry does. */
  function IndexOfGstFormat(order: ByteOrder, format: GstVideoFormat): (r: int)
    ensures r == -1 || 0 <= r < 19
    ensures r >= 0 ==> VideoFormatLookup(order)[r].gstFormat == format
    ensures r == -1 <==> forall j :: 0 <= j < 19 ==> VideoFormatLookup(order)[j].gstFormat != format
  {
    IndexOfGstFormatFrom(order, format, 0)
  }

  /** Looking up a table entry by either column finds that very entry. */
  lemma LookupFindsEntry(order: ByteOrder, i: nat)
    requires i < 19
    ensures IndexOfPixelFormat(order, VideoFormatLookup(order)[i].pixelFormat) == i
    ensures IndexOfGstFormat(order, VideoFormatLookup(order)[i].gstFormat) == i
  {
    LookupColumnsDistinct(order);
  }

  /** pixel -> gst -> pixel gives back every pixel format the table lists. */
  lemma PixelGstPixelRoundTrip(order: ByteOrder, format: PixelFormat)
    requires IndexOfPixelFormat(order, format) != -1
    ensures var g := VideoFormatLookup(order)[IndexOfPixelFormat(order, format)].gstFormat;
      IndexOfGstFormat(order, g) != -1 && VideoFormatLookup(order)[IndexOfGstFormat(order, g)].pixelFormat == format
  {
    LookupFindsEntry(order, IndexOfPixelFormat(order, format));
  }

  /** gst -> pixel -> gst gives back every GStreamer format the table lists. */
  lemma GstPixelGstRoundTrip(order: ByteOrder, format: GstVideoFormat)
    requires IndexOfGstFormat(order, format) != -1
    ensures var pf := VideoFormatLookup(order)[IndexOfGstFormat(order, format)].pixelFormat;
      IndexOfPixelFormat(order, pf) != -1 && VideoFormatLookup(order)[IndexOfPixelFormat(order, pf)].gstFormat == format
  {
    LookupFindsEntry(order, IndexOfGstFormat(order, format));
  }

  // ---------------------------------------------------------------------------
  // Caps structures

  datatype Structure = Structure(
    name: string,
    format: Option<string>,
    rate: Option<int>,
    channels: Option<int>,
    layout: Option<string>,
    width: Option<int>,
    height: Option<int>)

  /**
    QGstStructure::pixelFormat: the table's pixel format for the structure's format string,
    which gst_video_format_from_string (the parameter fromString) parses; Invalid unless the
    structure exists, is video/x-raw and carries a format the table lists.
  */
  function StructurePixelFormat(order: ByteOrder, s: Option<Structure>, fromString: string -> GstVideoFormat): (r: PixelFormat)
    ensures r != Invalid <==>
      s.Some? && s.value.name == "video/x-raw" && s.value.format.Some?
      && IndexOfGstFormat(order, fromString(s.value.format.value)) != -1
    ensures r != Invalid ==> r == VideoFormatLookup(order)[IndexOfGstFormat(order, fromString(s.value.format.value))].pixelFormat
  {
    if s.None? || s.value.name != "video/x-raw" || s.value.format.None? then Invalid
    else
      var index := IndexOfGstFormat(order, fromString(s.value.format.value));
      LookupHasNoInvalid(order);
      if index == -1 then Invalid else VideoFormatLookup(order)[index].pixelFormat
  }

  datatype Size = Size(width: int, height: int)

  /** A default-constructed QSize, whose width and height are both -1. */
  const InvalidSize := Size(-1, -1)

  /** QGstStructure::resolution: width and height only when both are present. */
  function Resolution(s: Option<Structure>): Size
  {
    if s.Some? && s.value.width.Some? && s.value.height.Some? then Size(s.value.width.value, s.value.height.value)
    else InvalidSize
  }

  /** QSize::isValid: neither dimension is negative. */
  predicate IsValidSize(size: Size)
  {
    size.width >= 0 && size.height >= 0
  }

  /**
    The size read from a structure is valid exactly when the structure carries both a width
    and a height and neither is negative; a missing structure or a missing field never
    yields a usable size.
  */
  lemma ResolutionValidIff(s: Option<Structure>)
    ensures IsValidSize(Resolution(s)) <==>
      s.Some? && s.value.width.Some? && s.value.height.Some? && s.value.width.value >= 0 && s.value.height.value >= 0
    ensures IsValidSize(Resolution(s)) ==> Resolution(s) == Size(s.value.width.value, s.value.height.value)
  {
  }

  // ---------------------------------------------------------------------------
  // Audio caps

  datatype AudioFormat = AudioFormat(sampleRate: int, channelCount: int, sampleFormat: SampleFormat)

  /** A default-constructed QAudioFormat. */
  const EmptyAudioFormat := AudioFormat(0, 0, Unknown)

  /** QAudioFormat::isValid. */
  predicate IsValidAudioFormat(f: AudioFormat)
  {
    f.sampleRate > 0 && f.channelCount > 0 && f.sampleFormat != Unknown
  }

  /**
    QGstUtils::audioFormatForSample: empty unless the caps exist, are audio/x-raw, carry a
    rate and a channel count, and name a known sample format; otherwise those three values.
  */
  function AudioFormatForSample(order: ByteOrder, caps: Option<Structure>): (f: AudioFormat)
    ensures f != EmptyAudioFormat ==> caps.Some? && caps.value.name == "audio/x-raw"
    ensures f == EmptyAudioFormat || f.sampleFormat != Unknown
    ensures (caps.Some? && caps.value.name == "audio/x-raw" && caps.value.rate.Some? && caps.value.channels.Some?
             && GstSampleFormatToSampleFormat(order, caps.value.format) != Unknown)
        ==> f == AudioFormat(caps.value.rate.value, caps.value.channels.value, GstSampleFormatToSampleFormat(order, caps.value.format))
    ensures !(caps.Some? && caps.value.name == "audio/x-raw" && caps.value.rate.Some? && caps.value.channels.Some?
             && GstSampleFormatToSampleFormat(order, caps.value.format) != Unknown)
        ==> f == EmptyAudioFormat
  {
    if caps.None? then EmptyAudioFormat
    else
      var s := caps.value;
      if s.name != "audio/x-raw" then EmptyAudioFormat
      else
        var fmt := GstSampleFormatToSampleFormat(order, s.format);
        if s.rate.None? || s.channels.None? || fmt == Unknown then EmptyAudioFormat
        else AudioFormat(s.rate.value, s.channels.value, fmt)
  }

  /**
    QGstUtils::capsForAudioFormat: null for an invalid format; otherwise interleaved
    audio/x-raw caps with the format's name, rate and channel count.
  */
  function CapsForAudioFormat(order: ByteOrder, f: AudioFormat): (caps: Option<Structure>)
    ensures caps.None? <==> !IsValidAudioFormat(f)
    ensures caps.Some? ==>
      && caps.value.name == "audio/x-raw"
      && caps.value.rate == Some(f.sampleRate)
      && caps.value.channels == Some(f.channelCount)
      && caps.value.layout == Some("interleaved")
  {
    if !IsValidAudioFormat(f) then None
    else Some(Structure("audio/x-raw", AudioSampleFormatNames(order)[f.sampleFormat],
                        Some(f.sampleRate), Some(f.channelCount), Some("interleaved"), None, None))
  }

  /** Caps built for a valid audio format read back as that format. */
  lemma AudioCapsRoundTrip(order: ByteOrder, f: AudioFormat)
    requires IsValidAudioFormat(f)
    ensures AudioFormatForSample(order, CapsForAudioFormat(order, f)) == f
  {
    SampleFormatNameRoundTrip(order, f.sampleFormat);
  }

  // ---------------------------------------------------------------------------
  // Buffer timestamps

  newtype uint64 = x: int | 0 <= x < 0x1_0000_0000_0000_0000

  /** GST_CLOCK_TIME_NONE, the all-ones clock time. */
  const ClockTimeNone: uint64 := 0xFFFF_FFFF_FFFF_FFFF

  /** Storing a guint64 clock time into a qint64 (two's complement). */
  function AsInt64(x: uint64): (r: int)
    ensures -0x8000_0000_0000_0000 <= r < 0x8000_0000_0000_0000
    ensures r >= 0 <==> x < 0x8000_0000_0000_0000
    ensures r >= 0 ==> r == x as int
    ensures x == ClockTimeNone ==> r == -1
  {
    if x < 0x8000_0000_0000_0000 then x as int else x as int - 0x1_0000_0000_0000_0000
  }

  /** Nanoseconds to microseconds, rounding down (a non-negative division by 1000). */
  function NsToUs(ns: int): (us: int)
    requires ns >= 0
    ensures us >= 0 && us * 1000 <= ns < us * 1000 + 1000
  {
    ns / 1000
  }

  /** The part of a GstBuffer the frame stamping reads. */
  datatype GstBuffer = GstBuffer(timestamp: uint64, duration: uint64)

  /** The start and end times (microseconds) of a QVideoFrame. */
  class VideoFrame {
    var startTime: int
    var endTime: int

    constructor (startTime: int, endTime: int)
      ensures this.startTime == startTime && this.endTime == endTime
    {
      this.startTime := startTime;
      this.endTime := endTime;
    }
  }

  /**
    QGstUtils::setFrameTimeStamps: a non-negative start time sets the frame's start, and a
    non-negative duration then also its end; a negative start (GST_CLOCK_TIME_NONE among
    them) leaves the frame untouched.
  */
  method SetFrameTimeStamps(frame: VideoFrame, buffer: GstBuffer)
    modifies frame
    ensures var start := AsInt64(buffer.timestamp);
      frame.startTime == (if start >= 0 then NsToUs(start) else old(frame.startTime))
    ensures var start, duration := AsInt64(buffer.timestamp), AsInt64(buffer.duration);
      frame.endTime == (if start >= 0 && duration >= 0 then NsToUs(start + duration) else old(frame.endTime))
  {
    var startTime := AsInt64(buffer.timestamp);
    if startTime >= 0 {
      frame.startTime := NsToUs(startTime);
      var duration := AsInt64(buffer.duration);
      if duration >= 0 {
        frame.endTime := NsToUs(startTime + duration);
      }
    }
  }
}
