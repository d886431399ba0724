/** Media classification by file extension: `isMediaFile` (cmd/shared.go), which lower-cases the
    extension and sorts it into image, raw image or video, and `isImageFile` (cmd/list.go), which
    matches the extension as written against the standard image extensions. */
module Classify {
  import opened Wrappers
  import opened Text
  import opened Paths

  datatype MediaType = Image | ImageRaw | Video {
    /** The `fileType` string stored in the metadata and used as the top destination folder. */
    function Name(): string {
      match this
      case Image => "image"
      case ImageRaw => "image_raw"
      case Video => "video"
    }
  }

  const ImageExtensions: set<string> := {".jpg", ".jpeg", ".png", ".tiff", ".tif"}

  const RawExtensions: set<string> :=
    {".cr2", ".crw", ".cr3", ".dng", ".nef", ".arw", ".x3f", ".orf", ".rw2", ".raf", ".pef", ".srw", ".raw"}

  const VideoExtensions: set<string> :=
    {".mp4", ".mpg", ".mpeg", ".mov", ".avi", ".mkv", ".flv", ".3gp", ".wmv", ".mts", ".m2ts", ".ts",
     ".webm", ".asf", ".m4v"}

  /** The extensions `isImageFile` accepts, a table of its own in cmd/list.go. */
  const ListedImageExtensions: set<string> := {".jpg", ".jpeg", ".png", ".tiff", ".tif"}

  /** No extension belongs to two media types. */
  lemma ExtensionTablesDisjoint()
    ensures ImageExtensions !! RawExtensions
    ensures ImageExtensions !! VideoExtensions
    ensures RawExtensions !! VideoExtensions
  {
    ImageNotRaw();
    ImageNotVideo();
    RawNotVideo();
  }

  lemma ImageNotRaw()
    ensures ImageExtensions !! RawExtensions
  {
  }

  lemma ImageNotVideo()
    ensures ImageExtensions !! VideoExtensions
  {
  }

  lemma RawNotVideo()
    ensures RawExtensions !! VideoExtensions
  {
  }

  /** `isMediaFile`: the media type of the lower-cased extension, `None` for anything else. Because
      the three tables are disjoint, each type is returned exactly when its table holds the
      extension. */
  function IsMediaFile(path: Path): (r: Option<MediaType>)
    ensures r == Some(Image) <==> ToLower(Ext(path)) in ImageExtensions
    ensures r == Some(ImageRaw) <==> ToLower(Ext(path)) in RawExtensions
    ensures r == Some(Video) <==> ToLower(Ext(path)) in VideoExtensions
    ensures r.None? <==> ToLower(Ext(path)) !in ImageExtensions + RawExtensions + VideoExtensions
  {
    ExtensionTablesDisjoint();
    var ext := ToLower(Ext(path));
    if ext in ImageExtensions then Some(Image)
    else if ext in RawExtensions then Some(ImageRaw)
    else if ext in VideoExtensions then Some(Video)
    else None
  }

  /** `isImageFile`: the extension exactly as written, without lower-casing, so an accepted
      extension holds no upper-case letter. */
  predicate IsImageFile(path: Path): (b: bool)
    ensures b ==> Ext(path) != "" && forall i :: 0 <= i < |Ext(path)| ==> !IsUpper(Ext(path)[i])
  {
    var ext := Ext(path);
    if ext in ListedImageExtensions then ListedExtensionLower(ext); true else false
  }

  /** The listed image extensions are written in lower case. */
  lemma ListedExtensionLower(ext: string)
    requires ext in ListedImageExtensions
    ensures ext != "" && forall i :: 0 <= i < |ext| ==> !IsUpper(ext[i])
  {
  }

  /** Every path `isImageFile` accepts, `isMediaFile` classifies as an image. */
  lemma ListedImageIsMediaImage(path: Path)
    requires IsImageFile(path)
    ensures IsMediaFile(path) == Some(Image)
  {
    ToLowerOfLower(Ext(path));
  }

  /** `isImageFile` is case-sensitive where `isMediaFile` is not. */
  lemma UpperCaseExtension()
    ensures !IsImageFile("a.JPG")
    ensures IsMediaFile("a.JPG") == Some(Image)
  {
    ExtOfDottedSuffix("a", "JPG");
    assert "a" + "." + "JPG" == "a.JPG";
    assert ToLower(".JPG") == ".jpg";
  }

  /** Only the final extension counts. */
  lemma OnlyFinalExtension()
    ensures Ext("a.jpg.bak") == ".bak"
    ensures !IsImageFile("a.jpg.bak") && IsMediaFile("a.jpg.bak").None?
  {
    ExtOfDottedSuffix("a.jpg", "bak");
    assert "a.jpg" + "." + "bak" == "a.jpg.bak";
    BakIsNoMedia();
  }

  lemma BakIsNoMedia()
    ensures ToLower(".bak") == ".bak"
    ensures ".bak" !in ListedImageExtensions
    ensures ".bak" !in ImageExtensions + RawExtensions + VideoExtensions
  {
    assert ToLower(".bak") == ".bak";
  }

  /** A name without '.' (such as "jpg") has no extension. */
  lemma NoDotNoExtension(name: string)
    requires NoDotOrSlash(name)
    ensures Ext(name) == "" && !IsImageFile(name)
  {
    ExtStaysEmpty("", name);
    assert "" + name == name;
  }

  /** A dot in a directory name gives the file no extension: "photo.d/jpg" has none. */
  lemma DirectoryDotIgnored(dir: string, name: string)
    requires dir == [] || dir[|dir| - 1] == '/'
    requires NoDotOrSlash(name)
    ensures Ext(dir + name) == "" && !IsImageFile(dir + name)
  {
    NoDotNoExtension(name);
    ExtAfterDir(dir, name);
  }
}
