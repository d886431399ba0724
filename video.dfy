/** Metadata of videos (`getVideoMetadata`, cmd/shared.go), computed from ffprobe's report: the
    first video stream's size, the creation date with its fallbacks, the location tag precedence
    and the camera precedence (Apple, then Android, then the `software` tag). */
module VideoMeta {
  import opened Wrappers
  import opened Text
  import opened Times
  import opened Records
  import opened Resolution

  /** Go's `time.RFC3339Nano`. */
  const Rfc3339Nano: string := "2006-01-02T15:04:05.999999999Z07:00"

  /** The layouts tried on the creation date, in order. */
  const VideoDateFormats: seq<string> := [
    "2006-01-02T15:04:05.000000Z",
    "2006-01-02T15:04:05Z",
    "2006-01-02 15:04:05",
    Rfc3339Nano,
    "2006-01-02T15:04:05.999999999Z07:00"
  ]

  /** The size of a stream, if it is a video stream. */
  function StreamResolution(st: Stream): Option<string> {
    if st.codecType == "video" then Some(FormatResolution(st.width, st.height)) else None
  }

  /** The resolution of the first video stream, "" when there is none. */
  function VideoResolution(streams: seq<Stream>): (r: string)
    ensures r == "" <==> forall i :: 0 <= i < |streams| ==> streams[i].codecType != "video"
    ensures r != "" ==>
      exists i :: 0 <= i < |streams| && streams[i].codecType == "video" &&
        r == FormatResolution(streams[i].width, streams[i].height) &&
        forall j :: 0 <= j < i ==> streams[j].codecType != "video"
  {
    FirstSome(streams, StreamResolution).GetOr("")
  }

  /** The date text: `creation_time`, or the Apple location date when that is empty. */
  function CreationTimeTag(tags: FormatTags): string {
    if tags.creationTime == "" then tags.appleLocationDate else tags.creationTime
  }

  /** The video's date: the first format that parses the date text, unless there is no text, no
      format parses it or it is the zero time; then the file's modification time. */
  function VideoDateTime(tags: FormatTags, parse: Parser, modTime: Time): (t: Time)
    ensures var text := CreationTimeTag(tags);
      var p := if text == "" then None else ParseFirst(parse, VideoDateFormats, text);
      t == if p.Some? && !IsZero(p.value) then p.value else modTime
    ensures !IsZero(t) || IsZero(modTime)
  {
    var parsed := ParsedCreationTime(tags, parse);
    if IsZero(parsed) then modTime else parsed
  }

  /** The date parsed from the date text, the zero time when there is no text or no format
      parses it. */
  function ParsedCreationTime(tags: FormatTags, parse: Parser): Time {
    var text := CreationTimeTag(tags);
    if text == "" then ZeroTime else ParseFirst(parse, VideoDateFormats, text).GetOr(ZeroTime)
  }

  /** The location tag that is used: `location`, then `location-eng`, then the Apple ISO 6709 one. */
  function LocationTag(tags: FormatTags): string {
    if tags.location != "" then tags.location
    else if tags.locationEng != "" then tags.locationEng
    else tags.appleLocationIso6709
  }

  /** The location, with one trailing '/' removed. */
  function VideoLocation(tags: FormatTags): (r: string)
    ensures var l := LocationTag(tags); r == if |l| > 0 && l[|l| - 1] == '/' then l[..|l| - 1] else l
    ensures r == "" ==> LocationTag(tags) == "" || LocationTag(tags) == "/"
  {
    var l := LocationTag(tags);
    if l == "" then "" else TrimSuffix(l, "/")
  }

  /** The camera fields: Apple make and model ("camera"); otherwise an Android version ("phone");
      otherwise a `software` tag, a camera only when it starts with "Canon". */
  function WithVideoCamera(m: MediaMetadata, tags: FormatTags): (r: MediaMetadata)
    ensures r.cameraType == "camera" || r.cameraType == "phone" || r.cameraType == m.cameraType
    ensures r.dateTime == m.dateTime && r.location == m.location && r.resolution == m.resolution
    ensures r.fileType == m.fileType
  {
    if tags.appleMake != "" then
      m.(cameraMake := tags.appleMake, cameraModel := tags.appleModel, cameraType := "camera")
    else if tags.androidVersion != "" then
      var model := "Android " + tags.androidVersion;
      m.(cameraModel := if tags.androidCaptureFps != "" then model + " (FPS: " + tags.androidCaptureFps + ")" else model,
         cameraMake := "Android", cameraType := "phone")
    else if tags.software != "" then
      if HasPrefix(tags.software, "Canon") then
        m.(cameraMake := "Canon", cameraModel := tags.software, cameraType := "camera")
      else m.(cameraModel := tags.software)
    else m
  }

  /** `getVideoMetadata` once ffprobe's report is decoded. */
  function VideoMetadata(p: ProbeOutput, modTime: Time, parse: Parser): (m: MediaMetadata)
    ensures m.fileType == "video"
    ensures m.cameraType == "camera" || m.cameraType == "phone" || m.cameraType == ""
    ensures m.cameraType == "" ==> m.cameraMake == ""
    ensures !IsZero(m.dateTime) || IsZero(modTime)
    ensures m.resolution == VideoResolution(p.streams)
    ensures m.dateTime == VideoDateTime(p.tags, parse, modTime)
    ensures m.location == VideoLocation(p.tags)
    ensures var c := WithVideoCamera(BlankMetadata("video"), p.tags);
      m.cameraMake == c.cameraMake && m.cameraModel == c.cameraModel && m.cameraType == c.cameraType
  {
    var camera := WithVideoCamera(BlankMetadata("video"), p.tags);
    camera.(
      resolution := VideoResolution(p.streams),
      dateTime := VideoDateTime(p.tags, parse, modTime),
      location := VideoLocation(p.tags))
  }

  /** A non-empty `creation_time` hides the Apple location date completely. */
  lemma CreationTimeHidesAppleDate(a: FormatTags, b: FormatTags, parse: Parser, modTime: Time)
    requires a.creationTime != "" && a.creationTime == b.creationTime
    ensures VideoDateTime(a, parse, modTime) == VideoDateTime(b, parse, modTime)
  {
  }

  /** The last date format is `time.RFC3339Nano` again, so it never changes the outcome. */
  lemma LastDateFormatRedundant(parse: Parser, text: string)
    ensures ParseFirst(parse, VideoDateFormats, text) == ParseFirst(parse, VideoDateFormats[..4], text)
  {
    ParseFirstRepeatedLast(parse, VideoDateFormats, text, 3);
  }

  /** The camera precedence: an Apple make decides everything, whatever the Android and software
      tags say. */
  lemma AppleMakeWins(m: MediaMetadata, tags: FormatTags)
    requires tags.appleMake != ""
    ensures var r := WithVideoCamera(m, tags);
      r.cameraMake == tags.appleMake && r.cameraModel == tags.appleModel && r.cameraType == "camera"
  {
  }

  /** An Android recording is a phone whose model names the Android version and, when it is
      tagged, the capture rate. */
  lemma AndroidModel(m: MediaMetadata, tags: FormatTags)
    requires tags.appleMake == "" && tags.androidVersion != ""
    ensures var r := WithVideoCamera(m, tags);
      r.cameraMake == "Android" && r.cameraType == "phone" &&
      HasPrefix(r.cameraModel, "Android " + tags.androidVersion) &&
      (tags.androidCaptureFps == "" <==> r.cameraModel == "Android " + tags.androidVersion)
  {
    var model := "Android " + tags.androidVersion;
    if tags.androidCaptureFps != "" {
      var r := WithVideoCamera(m, tags);
      assert r.cameraModel == model + (" (FPS: " + tags.androidCaptureFps + ")");
      assert r.cameraModel[..|model|] == model;
    }
  }

  /** A `software` tag alone sets only the model, unless it names a Canon camera. */
  lemma SoftwareOnlyModel(m: MediaMetadata, tags: FormatTags)
    requires tags.appleMake == "" && tags.androidVersion == "" && tags.software != ""
    ensures var r := WithVideoCamera(m, tags);
      r.cameraModel == tags.software &&
      (HasPrefix(tags.software, "Canon") ==> r.cameraMake == "Canon" && r.cameraType == "camera") &&
      (!HasPrefix(tags.software, "Canon") ==> r.cameraMake == m.cameraMake && r.cameraType == m.cameraType)
  {
  }

  /** The resolution loop of `getVideoMetadata`: stops at the first video stream. */
  method FirstVideoResolution(streams: seq<Stream>) returns (resolution: string)
    ensures resolution == VideoResolution(streams)
  {
    resolution := "";
    var i := 0;
    while i < |streams|
      invariant i <= |streams|
      invariant forall j :: 0 <= j < i ==> streams[j].codecType != "video"
      invariant resolution == ""
    {
      if streams[i].codecType == "video" {
        FirstSomeAt(streams, StreamResolution, i);
        resolution := FormatResolution(streams[i].width, streams[i].height);
        break;
      }
      i := i + 1;
    }
  }

  /** The date loop of `getVideoMetadata`: the first format that parses the date text. */
  method ParseCreationTime(tags: FormatTags, parse: Parser) returns (t: Time)
    ensures t == ParsedCreationTime(tags, parse)
  {
    t := ZeroTime;
    var creationTime := tags.creationTime;
    if creationTime == "" {
      creationTime := tags.appleLocationDate;
    }
    if creationTime != "" {
      var k := 0;
      while k < |VideoDateFormats|
        invariant k <= |VideoDateFormats|
        invariant forall j :: 0 <= j < k ==> parse(VideoDateFormats[j], creationTime).None?
        invariant t == ZeroTime
      {
        var parsed := parse(VideoDateFormats[k], creationTime);
        if parsed.Some? {
          ParseFirstAt(parse, VideoDateFormats, creationTime, k);
          t := parsed.value;
          break;
        }
        k := k + 1;
      }
    }
  }

  /** `getVideoMetadata`, step by step as the source assigns the fields: `None` is the report
      ffprobe could not produce or that did not decode. */
  method GetVideoMetadata(probe: Option<ProbeOutput>, modTime: Time, parse: Parser) returns (r: Result<MediaMetadata>)
    ensures probe.None? <==> r.Err?
    ensures probe.Some? ==> r == Ok(VideoMetadata(probe.value, modTime, parse))
  {
    var metadata := BlankMetadata("video");
    if probe.None? {
      return Err("ffprobe failed");
    }
    var data := probe.value;

    var resolution := FirstVideoResolution(data.streams);
    metadata := metadata.(resolution := resolution);

    var dateTime := ParseCreationTime(data.tags, parse);
    metadata := metadata.(dateTime := dateTime);
    if IsZero(metadata.dateTime) {
      metadata := metadata.(dateTime := modTime);
    }

    var location := data.tags.location;
    if location == "" {
      location := data.tags.locationEng;
    }
    if location == "" {
      location := data.tags.appleLocationIso6709;
    }
    if location != "" {
      metadata := metadata.(location := TrimSuffix(location, "/"));
    }

    if data.tags.appleMake != "" {
      metadata := metadata.(cameraMake := data.tags.appleMake, cameraModel := data.tags.appleModel, cameraType := "camera");
    } else if data.tags.androidVersion != "" {
      metadata := metadata.(cameraModel := "Android " + data.tags.androidVersion, cameraMake := "Android", cameraType := "phone");
      var fps := data.tags.androidCaptureFps;
      if fps != "" {
        metadata := metadata.(cameraModel := metadata.cameraModel + " (FPS: " + fps + ")");
      }
    } else if data.tags.software != "" {
      if HasPrefix(data.tags.software, "Canon") {
        metadata := metadata.(cameraMake := "Canon", cameraModel := data.tags.software, cameraType := "camera");
      } else {
        metadata := metadata.(cameraModel := data.tags.software);
      }
    }
    r := Ok(metadata);
  }
}
