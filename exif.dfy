/** Metadata of still images (cmd/shared.go): the EXIF date, tag, location and resolution readers,
    and the fallback chain of `getMediaMetadata` for `image` and `image_raw` files. */
module ExifMeta {
  import opened Wrappers
  import opened Times
  import opened Records
  import opened Classify
  import opened Camera
  import opened Resolution

  /** The date tags, most trusted first. */
  const ExifDateTags: seq<string> := ["DateTimeOriginal", "CreateDate", "DateTime", "ModifyDate"]

  /** The layouts `parseExifDate` tries, in order. */
  const ExifLayouts: seq<string> := [
    "2006:01:02 15:04:05",
    "2006:01:02 15:04:05-07:00",
    "2006-01-02 15:04:05",
    "2006-01-02T15:04:05",
    "2006-01-02T15:04:05-07:00"
  ]

  /** `parseExifDate`: the first layout that parses the text wins; `None` when none does. */
  function ParseExifDate(parse: Parser, date: string): (r: Option<Time>)
    ensures r.None? <==> forall i :: 0 <= i < |ExifLayouts| ==> parse(ExifLayouts[i], date).None?
    ensures r.Some? ==>
      exists i :: 0 <= i < |ExifLayouts| && parse(ExifLayouts[i], date) == r &&
        forall j :: 0 <= j < i ==> parse(ExifLayouts[j], date).None?
  {
    ParseFirst(parse, ExifLayouts, date)
  }

  /** `x.Get(tag)` followed by `StringVal()`: `None` when the tag is missing or not a string. */
  function TagString(x: Exif, tag: string): Option<string> {
    if tag in x.fields then x.fields[tag].stringVal else None
  }

  /** The date one tag yields: present, string-valued and parseable. */
  function TagDate(x: Exif, parse: Parser, tag: string): Option<Time> {
    match TagString(x, tag)
    case None => None
    case Some(s) => ParseExifDate(parse, s)
  }

  /** `getExifDateTime`: the date of the first tag, in `ExifDateTags` order, that yields one;
      `None` (Go's error with the zero time) only when no tag does. */
  function GetExifDateTime(x: Exif, parse: Parser): (r: Option<Time>)
    ensures r.None? <==> forall i :: 0 <= i < |ExifDateTags| ==> TagDate(x, parse, ExifDateTags[i]).None?
    ensures r.Some? ==>
      exists i :: 0 <= i < |ExifDateTags| && TagDate(x, parse, ExifDateTags[i]) == r &&
        forall j :: 0 <= j < i ==> TagDate(x, parse, ExifDateTags[j]).None?
  {
    FirstSome(ExifDateTags, (tag: string) => TagDate(x, parse, tag))
  }

  /** A usable DateTimeOriginal decides the date, whatever the other tags hold. */
  lemma DateTimeOriginalWins(x: Exif, parse: Parser)
    requires TagDate(x, parse, "DateTimeOriginal").Some?
    ensures GetExifDateTime(x, parse) == TagDate(x, parse, "DateTimeOriginal")
  {
    assert ExifDateTags[0] == "DateTimeOriginal";
    var r := GetExifDateTime(x, parse);
    var i :| 0 <= i < |ExifDateTags| && TagDate(x, parse, ExifDateTags[i]) == r &&
      forall j :: 0 <= j < i ==> TagDate(x, parse, ExifDateTags[j]).None?;
    assert i == 0;
  }

  /** Once the `i`-th tag yields a date, the tags after it are never consulted: two EXIF blocks
      that agree on the tags up to it get the same date. */
  lemma LaterTagsNotConsulted(x: Exif, y: Exif, parse: Parser, i: nat)
    requires i < |ExifDateTags| && TagDate(x, parse, ExifDateTags[i]).Some?
    requires forall j :: 0 <= j <= i ==> TagDate(x, parse, ExifDateTags[j]) == TagDate(y, parse, ExifDateTags[j])
    ensures GetExifDateTime(x, parse) == GetExifDateTime(y, parse)
  {
    FirstSomeAgree(ExifDateTags, (tag: string) => TagDate(x, parse, tag), (tag: string) => TagDate(y, parse, tag), i);
  }

  /** `getExifTag`: the tag's string value, "" when it has none. */
  function GetExifTag(x: Exif, tag: string): (r: string)
    ensures tag !in x.fields ==> r == ""
    ensures tag in x.fields && x.fields[tag].stringVal.Some? ==> r == x.fields[tag].stringVal.value
  {
    TagString(x, tag).GetOr("")
  }

  /** `getExifLocation`: the formatted GPS position, "" when there is none. */
  function GetExifLocation(x: Exif): (r: string)
    ensures x.latLong.None? ==> r == ""
    ensures x.latLong.Some? ==> r == x.latLong.value
  {
    x.latLong.GetOr("")
  }

  /** `getExifResolution`: `None` exactly when a pixel-dimension tag is missing; a present tag
      that is not an integer counts as 0. */
  function GetExifResolution(x: Exif): (r: Option<string>)
    ensures r.None? <==> "PixelXDimension" !in x.fields || "PixelYDimension" !in x.fields
    ensures r.Some? ==>
      r.value == FormatResolution(x.fields["PixelXDimension"].intVal.GetOr(0), x.fields["PixelYDimension"].intVal.GetOr(0))
  {
    if "PixelXDimension" !in x.fields || "PixelYDimension" !in x.fields then None
    else Some(FormatResolution(x.fields["PixelXDimension"].intVal.GetOr(0), x.fields["PixelYDimension"].intVal.GetOr(0)))
  }

  /** `getImageResolution`: the width and height from the image header, written so that they read
      back; `None` when the header does not decode. */
  function HeaderResolution(env: Env, content: Bytes): (r: Option<string>)
    ensures r.None? <==> env.decodeConfig(content).None?
    ensures r.Some? ==> ParseResolution(r.value) == env.decodeConfig(content)
  {
    match env.decodeConfig(content)
    case None => None
    case Some((w, h)) =>
      ParseFormatted(w, h, "");
      assert FormatResolution(w, h) + "" == FormatResolution(w, h);
      Some(FormatResolution(w, h))
  }

  /** The EXIF fields of the metadata, filled only when EXIF decoding returned something. */
  function WithExif(m: MediaMetadata, x: Option<Exif>, parse: Parser): MediaMetadata {
    match x
    case None => m
    case Some(e) =>
      var model := GetExifTag(e, "Model");
      var make := GetExifTag(e, "Make");
      m.(dateTime := GetExifDateTime(e, parse).GetOr(ZeroTime),
         location := GetExifLocation(e),
         cameraModel := model,
         cameraMake := make,
         cameraType := DetermineCameraType(model, make))
  }

  /** The resolution before the default: the header, then EXIF, for `image`; EXIF only for
      `image_raw`; "" when every source failed. */
  function ImageResolution(kind: MediaType, env: Env, content: Bytes, x: Option<Exif>): string
    requires kind != Video
  {
    var fromExif := if x.Some? then GetExifResolution(x.value).GetOr("") else "";
    if kind == Image then
      match HeaderResolution(env, content)
      case Some(r) => r
      case None => fromExif
    else fromExif
  }

  /** `getMediaMetadata` for an image or raw image whose file holds `entry`. */
  function ImageMetadata(kind: MediaType, entry: FileEntry, env: Env): (m: MediaMetadata)
    requires kind != Video
    ensures m.fileType == kind.Name() && m.resolution != ""
    ensures kind == Image && env.decodeConfig(entry.content).Some? ==>
      m.resolution == FormatResolution(env.decodeConfig(entry.content).value.0, env.decodeConfig(entry.content).value.1)
    ensures kind == Image && env.decodeConfig(entry.content).None? ==>
      m.resolution == if env.decodeExif(entry.content).Some? && GetExifResolution(env.decodeExif(entry.content).value).Some?
                      then GetExifResolution(env.decodeExif(entry.content).value).value else "unknown"
    ensures kind == ImageRaw ==>
      m.resolution == if env.decodeExif(entry.content).Some? && GetExifResolution(env.decodeExif(entry.content).value).Some?
                      then GetExifResolution(env.decodeExif(entry.content).value).value else "unknown"
    ensures env.decodeExif(entry.content).None? ==>
      m.location == m.cameraModel == m.cameraMake == m.cameraType == ""
    ensures env.decodeExif(entry.content).Some? ==>
      m.cameraModel == GetExifTag(env.decodeExif(entry.content).value, "Model") &&
      m.cameraMake == GetExifTag(env.decodeExif(entry.content).value, "Make") &&
      m.location == GetExifLocation(env.decodeExif(entry.content).value) &&
      m.cameraType == DetermineCameraType(m.cameraModel, m.cameraMake)
    ensures !IsZero(m.dateTime) || IsZero(entry.modTime)
  {
    var x := env.decodeExif(entry.content);
    var m := WithExif(BlankMetadata(kind.Name()), x, env.parseTime);
    var res := ImageResolution(kind, env, entry.content, x);
    var m := m.(resolution := if res == "" then "unknown" else res);
    if IsZero(m.dateTime) then m.(dateTime := entry.modTime) else m
  }

  /** The date of an image: its first usable EXIF date unless that is the zero time, otherwise the
      file's modification time. */
  lemma ImageDate(kind: MediaType, entry: FileEntry, env: Env)
    requires kind != Video
    ensures var x := env.decodeExif(entry.content);
      var exifDate := if x.Some? then GetExifDateTime(x.value, env.parseTime).GetOr(ZeroTime) else ZeroTime;
      ImageMetadata(kind, entry, env).dateTime == if IsZero(exifDate) then entry.modTime else exifDate
  {
  }

  /** The resolution of an image either reads back as a width and height, or is "unknown", which
      does not. */
  lemma ImageResolutionParses(kind: MediaType, entry: FileEntry, env: Env)
    requires kind != Video
    ensures var r := ImageMetadata(kind, entry, env).resolution;
      ParseResolution(r).Some? || r == "unknown"
  {
    var x := env.decodeExif(entry.content);
    var r := ImageMetadata(kind, entry, env).resolution;
    if kind == Image && env.decodeConfig(entry.content).Some? {
      var (w, h) := env.decodeConfig(entry.content).value;
      ParseFormatted(w, h, "");
      assert FormatResolution(w, h) + "" == FormatResolution(w, h);
    } else if x.Some? && GetExifResolution(x.value).Some? {
      var fields := x.value.fields;
      var w, h := fields["PixelXDimension"].intVal.GetOr(0), fields["PixelYDimension"].intVal.GetOr(0);
      ParseFormatted(w, h, "");
      assert FormatResolution(w, h) + "" == FormatResolution(w, h);
    }
  }
}
