/** `getMediaMetadata` (cmd/shared.go): opens the file, classifies it, and fills the metadata from
    EXIF and the image header for images, or from ffprobe for videos. */
module Metadata {
  import opened Wrappers
  import opened Times
  import opened Paths
  import opened Records
  import opened Classify
  import opened Camera
  import opened ExifMeta
  import opened VideoMeta
  import opened Store

  /** What `getMediaMetadata` returns for `path`. */
  function MediaMetadataOf(files: map<Path, FileEntry>, env: Env, path: Path): (r: Result<MediaMetadata>)
    ensures path !in files || IsMediaFile(path).None? ==> r.Err?
    ensures r.Ok? ==> r.value.fileType == IsMediaFile(path).value.Name()
    ensures r.Ok? && IsMediaFile(path) != Some(Video) ==> r.value.resolution != ""
  {
    if path !in files then Err("failed to open file")
    else
      match IsMediaFile(path)
      case None => Err("not a supported media file")
      case Some(kind) =>
        if kind == Video then
          match env.probe(files[path].content)
          case None => Err("failed to extract video metadata")
          case Some(p) => Ok(VideoMetadata(p, files[path].modTime, env.parseTime))
        else Ok(ImageMetadata(kind, files[path], env))
  }

  /** Images always get their metadata; a video only when ffprobe reports on it. */
  lemma MetadataErrors(files: map<Path, FileEntry>, env: Env, path: Path)
    ensures MediaMetadataOf(files, env, path).Err? <==>
      path !in files || IsMediaFile(path).None? ||
      (IsMediaFile(path) == Some(Video) && env.probe(files[path].content).None?)
  {
  }

  /** The metadata depends on the file only through its own entry. */
  lemma MetadataOfOwnEntry(files: map<Path, FileEntry>, other: map<Path, FileEntry>, env: Env, path: Path)
    requires path in files && path in other && files[path] == other[path]
    ensures MediaMetadataOf(files, env, path) == MediaMetadataOf(other, env, path)
  {
  }

  /** `getMediaMetadata`, step by step as the source assigns the fields. */
  method GetMediaMetadata(fs: FileSystem, env: Env, path: Path) returns (r: Result<MediaMetadata>)
    ensures r == MediaMetadataOf(fs.files, env, path)
  {
    if path !in fs.files {
      return Err("failed to open file");
    }
    var file := fs.files[path];
    var fileType := IsMediaFile(path);
    if fileType.None? {
      return Err("not a supported media file");
    }
    var kind := fileType.value;
    var metadata := BlankMetadata(kind.Name());

    if kind == Image || kind == ImageRaw {
      var x := env.decodeExif(file.content);
      if x.Some? {
        var dateTime := GetExifDateTime(x.value, env.parseTime);
        metadata := metadata.(dateTime := dateTime.GetOr(ZeroTime));
        metadata := metadata.(location := GetExifLocation(x.value));
        metadata := metadata.(cameraModel := GetExifTag(x.value, "Model"));
        metadata := metadata.(cameraMake := GetExifTag(x.value, "Make"));
        metadata := metadata.(cameraType := DetermineCameraType(metadata.cameraModel, metadata.cameraMake));
      }
      assert metadata == WithExif(BlankMetadata(kind.Name()), x, env.parseTime);

      if kind == Image {
        var header := HeaderResolution(env, file.content);
        metadata := metadata.(resolution := header.GetOr(""));
        if header.None? && x.Some? {
          metadata := metadata.(resolution := GetExifResolution(x.value).GetOr(""));
        }
      } else if x.Some? {
        metadata := metadata.(resolution := GetExifResolution(x.value).GetOr(""));
      }
      assert metadata.resolution == ImageResolution(kind, env, file.content, x);

      if metadata.resolution == "" {
        metadata := metadata.(resolution := "unknown");
      }
      if IsZero(metadata.dateTime) {
        metadata := metadata.(dateTime := file.modTime);
      }
      r := Ok(metadata);
    } else {
      var video := GetVideoMetadata(env.probe(file.content), file.modTime, env.parseTime);
      if video.Err? {
        return Err("failed to extract video metadata");
      }
      r := Ok(video.value);
    }
  }
}
