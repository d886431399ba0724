/** The values the importer passes around: file contents, the metadata record, the decoded EXIF
    tags, the parsed ffprobe report, and the outside capabilities (hashing, decoding, probing,
    date parsing) as an environment of functions. */
module Records {
  import opened Wrappers
  import opened Times
  import opened Paths

  type Bytes = seq<bv8>

  /** An unsigned 64-bit digest, as `xxhash.Sum64` returns. */
  newtype U64 = x: int | 0 <= x < 0x1_0000_0000_0000_0000

  /** Go's `int` on a 64-bit platform. */
  newtype Int64 = x: int | -0x8000_0000_0000_0000 <= x < 0x8000_0000_0000_0000

  /** A regular file: its bytes and its modification time. */
  datatype FileEntry = FileEntry(content: Bytes, modTime: Time)

  /** `MediaMetadata`; an empty string means "not found". */
  datatype MediaMetadata = MediaMetadata(
    dateTime: Time,
    location: string,
    cameraModel: string,
    cameraMake: string,
    cameraType: string,
    fileType: string,
    resolution: string)

  /** `MediaMetadata{FileType: fileType}`. */
  function BlankMetadata(fileType: string): (m: MediaMetadata)
    ensures IsZero(m.dateTime) && m.fileType == fileType
    ensures m.location == m.cameraModel == m.cameraMake == m.cameraType == m.resolution == ""
  {
    MediaMetadata(ZeroTime, "", "", "", "", fileType, "")
  }

  /** One decoded EXIF tag: its value as a string and as an integer, each `None` when the tag
      does not convert. */
  datatype ExifField = ExifField(stringVal: Option<string>, intVal: Option<Int64>)

  /** What `exif.Decode` returned: the tags it found by name, and the GPS position already
      formatted as "<lat>,<long>" when `LatLong` succeeds. */
  datatype Exif = Exif(fields: map<string, ExifField>, latLong: Option<string>)

  /** One entry of ffprobe's `streams` array. */
  datatype Stream = Stream(codecType: string, width: Int64, height: Int64)

  /** ffprobe's `format.tags`; a missing tag is "". */
  datatype FormatTags = FormatTags(
    creationTime: string,
    software: string,
    location: string,
    locationEng: string,
    androidVersion: string,
    androidCaptureFps: string,
    appleMake: string,
    appleModel: string,
    appleLocationDate: string,
    appleLocationIso6709: string)

  /** `FFProbeOutput`, after JSON decoding. */
  datatype ProbeOutput = ProbeOutput(streams: seq<Stream>, tags: FormatTags)

  /** The outside world, as functions of a file's bytes:
      - `hash`: the xxhash digest;
      - `decodeExif`: `exif.Decode`, `None` when it returns no tags at all;
      - `decodeConfig`: `image.DecodeConfig`'s width and height, `None` on error;
      - `probe`: ffprobe's report, `None` when ffprobe fails or its JSON does not decode;
      - `parseTime`: `time.Parse(layout, value)`. */
  datatype Env = Env(
    hash: Bytes -> U64,
    decodeExif: Bytes -> Option<Exif>,
    decodeConfig: Bytes -> Option<(Int64, Int64)>,
    probe: Bytes -> Option<ProbeOutput>,
    parseTime: Parser)
}
