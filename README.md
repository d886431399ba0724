# picmover import core, modelled in Dafny

picmover files photos and videos into an archive laid out as
`<dest>/<type>/<YYYY>/<MM>/<name>`. A SQLite table `media` indexes the archive by content hash,
and that table is what deduplicates imports. This project models the per-file import decision
of `picmover import` and the pure helpers it relies on:

- the extension classifiers `isMediaFile` and `isImageFile`;
- the camera-type classifier;
- the ordered fallback chains that fill a `MediaMetadata` for images (EXIF) and videos (ffprobe);
- path planning and collision renaming;
- the `%dx%d` resolution parser and the size filter;
- the duplicate check, the copy, the insert, and the import counters;
- the `update-metadata` refresh loop with its comparator, counters and dry-run mode.

It also proves properties of that model.

The outside world is a parameter. The file system is a class holding a
`map<Path, FileEntry>` (bytes and a modification time). The index is a class holding
`map<id, MediaRecord>` with a next id. Both are changed in place by methods with `modifies`
clauses. The content hash, EXIF decoding, `image.DecodeConfig`, the ffprobe report and
`time.Parse` are functions held in an `Env` value. Database and copy failures that the state
cannot predict are boolean or per-row fault parameters.

Modules, one per file:

- `Wrappers`: Option/Result and the first-match search.
- `Text`: the ASCII `strings` helpers and decimal formatting.
- `Paths`: `filepath.Ext/Split/Base/Join`.
- `Times`: the time value, first-layout parsing and year/month formatting.
- `Records`: the value types.
- `Classify`: `isMediaFile` and `isImageFile`.
- `Camera`: `determineCameraType`.
- `Resolution`: `%dx%d` writing and `fmt.Sscanf` reading.
- `ExifMeta`: the image metadata.
- `VideoMeta`: the video metadata.
- `Metadata`: `getMediaMetadata`.
- `Store`: the file system and the media index.
- `Planner`: `generateNewPath` and `generateUniqueFilename`.
- `Importer`: `processAndMoveMedia`, `updateStats` and `processFile`.
- `Refresh`: `compareMetadata` and `updateDatabaseMetadata`.

Behaviour of the code that the model follows:

- A file is checked in this order: classification, metadata, size filter, hash, index lookup. Metadata is read and the size filter applied before the file is hashed.
- Files are always copied, never moved. There is no rename and no cross-device fallback.
- The copy comes before the insert. A failed insert leaves the copy in place and reports `error` with the new path.
- `skipped_not_in_db` (an identical file already sits at the planned path) does not add the hash to the index.
- An Android video's model is `Android <version>`, followed by ` (FPS: <rate>)` when a capture rate is tagged.
- A file whose hash is already indexed reports `skipped_in_db`.
- A non-media path raises no counter in `processFile`.
- Go's `time.RFC3339Nano` equals the fifth video date layout, so the fifth attempt never changes the result (`VideoMeta.LastDateFormatRedundant`).

## Model

| member | source | states |
|---|---|---|
| Wrappers.FirstSome | cmd/shared.go:158-169 | The result is `None` exactly when every entry fails; otherwise it is the result of the first entry that succeeds, and every earlier entry failed |
| Wrappers.FirstSomeAt | cmd/shared.go:158-169 | An entry that succeeds after entries that all fail decides the search |
| Wrappers.FirstSomeAgree | cmd/shared.go:158-169 | Two searches that agree up to and including the first success give the same result; later entries are never consulted |
| Text.LowerChar | cmd/shared.go:216-217 | The result is never an upper-case ASCII letter; upper-case letters move down by 32 and every other character is kept |
| Text.ToLower | cmd/shared.go:216-217 | Same length as the input, with each character lower-cased in place |
| Text.ToLowerOfLower | cmd/shared.go:216-217 | Lower-casing a string without upper-case letters changes nothing |
| Text.HasPrefix | cmd/shared.go:259 | The text starts with the prefix exactly when it is at least as long and agrees with the prefix at every position of it |
| Text.NotPrefixAtFirst | cmd/shared.go:259 | A text whose first character differs from the prefix's does not start with that prefix |
| Text.Contains | cmd/shared.go:239 | The empty word occurs in every text, and a word that occurs is no longer than the text |
| Text.ContainsIff | cmd/shared.go:239 | `strings.Contains` holds exactly when some window of the text spells the word |
| Text.NotContainsLonger | cmd/shared.go:239 | A word longer than the text never occurs in it |
| Text.MissingCharNotContained | cmd/shared.go:246 | A word with a character the text lacks never occurs in it |
| Text.TrimSuffix | cmd/shared.go:408 | When the suffix is present, result + suffix is the input; otherwise the input is returned unchanged |
| Text.NatToString | cmd/shared.go:153 | The decimal form is a non-empty run of digits, with at least two digits from 10 up |
| Text.NatToStringRoundTrip | cmd/shared.go:153 | Reading the decimal form back gives the number |
| Text.NatToStringInjective | cmd/import.go:349 | Different numbers have different decimal forms |
| Text.IntToString | cmd/shared.go:153 | `%d`: a negative number is '-' followed by its magnitude's digits, and any other number is its digits |
| Text.ZeroPad | cmd/import.go:407 | The text is left-padded with '0' to the width and kept as the suffix |
| Paths.Ext | cmd/shared.go:267 | The extension is a suffix of the path; when not empty, it is a '.' followed by characters other than '.' and '/' |
| Paths.ExtSnoc | cmd/shared.go:267 | The extension after one more character: "" after '/', "." after '.', and otherwise the old extension extended, if there was one |
| Paths.ExtAfterDir | cmd/list.go:62 | A directory part in front of a file name does not change the name's extension |
| Paths.ExtStaysEmpty | cmd/import.go:338 | Appending characters other than '.' and '/' to a path without an extension adds none |
| Paths.ExtOfDottedSuffix | cmd/import.go:338 | A path ending in '.' and then characters other than '.' and '/' has exactly that extension |
| Paths.NoExtMeansNoDot | cmd/import.go:338 | A file name without '/' and without an extension contains no '.' |
| Paths.FileStart | cmd/import.go:337 | The final element starts right after the last '/' (or at 0) and contains no '/' |
| Paths.Dir | cmd/import.go:337 | The directory part of `filepath.Split` is empty or ends in '/' |
| Paths.File | cmd/import.go:337 | The final element contains no '/', and the directory followed by the element is the path |
| Paths.TrimTrailingSlashes | cmd/import.go:406 | The result is a prefix of the path that does not end in '/' |
| Paths.Base | cmd/import.go:406 | `filepath.Base` never returns the empty string |
| Paths.BaseOfFile | cmd/import.go:406 | For a path that does not end in '/', the base name is its final element and contains no '/' |
| Paths.Join | cmd/import.go:407 | An empty element is skipped, a leading "." is dropped as `Clean` drops it, and otherwise exactly one '/' separates the two elements |
| Paths.JoinKeepsEnds | cmd/import.go:407 | The first element, unless it is "" or ".", stays in front of the join, and the second element stays at its end |
| Times.ParseFirst | cmd/shared.go:304-308 | Fails exactly when every layout fails; otherwise gives the parse of the first layout that succeeds |
| Times.ParseFirstAt | cmd/shared.go:304-308 | A layout that parses, after layouts that all fail, decides the result |
| Times.ParseFirstRepeatedLast | cmd/shared.go:375-381 | A last layout that repeats an earlier one never changes the result |
| Times.ZeroPadValue | cmd/import.go:407 | Zero-padding a number's digits keeps a run of digits that reads back as the number |
| Times.FormatYear | cmd/import.go:407 | `Format("2006")` writes a non-negative year with at least four characters, and a negative year with a leading '-' |
| Times.FormatMonth | cmd/import.go:407 | `Format("01")` writes the month with at least two characters |
| Times.FormatYearFourDigits | cmd/import.go:407 | `Format("2006")` writes a year from 0 to 9999 as exactly four digits that read back as the year |
| Times.FormatMonthTwoDigits | cmd/import.go:407 | `Format("01")` writes the month as exactly two digits that read back as the month |
| Records.BlankMetadata | cmd/shared.go:55-57 | A fresh record carries only the file type: a zero date and empty strings elsewhere |
| Classify.ExtensionTablesDisjoint | cmd/shared.go:268-277 | No extension is in two of the image, raw and video tables, so the classification is a function |
| Classify.IsMediaFile | cmd/shared.go:266-278 | Image, raw or video exactly when the lower-cased extension is in that table, and none exactly when it is in no table |
| Classify.IsImageFile | cmd/list.go:61-69 | Accepts the extension exactly as written against the five listed ones, so an accepted extension is non-empty and holds no upper-case letter |
| Classify.ListedImageIsMediaImage | cmd/list.go:61-69 | Every path `isImageFile` accepts, `isMediaFile` classifies as an image |
| Classify.UpperCaseExtension | cmd/list.go:62-65 | "a.JPG" is rejected by the case-sensitive `isImageFile` but is an image to `isMediaFile` |
| Classify.OnlyFinalExtension | cmd/list.go:62-67 | Only the last extension counts: "a.jpg.bak" has extension ".bak" and is neither an image nor media |
| Classify.NoDotNoExtension | cmd/list.go:62-67 | A name without '.' has no extension and is not an image |
| Classify.DirectoryDotIgnored | cmd/list.go:62-67 | A '.' in a directory name gives the file no extension: such a path is not an image |
| Camera.DetermineCameraType | cmd/shared.go:215-265 | The result is always "phone", "camera" or "unknown"; "camera" needs a camera maker in the lower-cased make, and "unknown" means the model pattern did not match |
| Camera.CameraTypePrecedence | cmd/shared.go:237-264 | A phone maker or keyword wins; without one, a camera maker gives "camera"; "unknown" holds exactly when no table and not the model pattern matched |
| Camera.SonyIsPhone | cmd/shared.go:220-242 | A make mentioning "sony", which is in both maker tables, always gives "phone" |
| Camera.EmptyMakeMatchesNothing | cmd/shared.go:220-235 | The empty make matches no entry of the three tables |
| Camera.NothingKnownIsUnknown | cmd/shared.go:237-264 | An empty make and an empty model give "unknown" |
| Camera.ModelPatternIsCaseSensitive | cmd/shared.go:259-261 | A model starting "SM-" matches the prefix pattern, but its lower-cased form does not |
| Camera.PatternAloneIsPhone | cmd/shared.go:244-261 | Without a make, a model that matches the pattern and holds no phone keyword is still a phone |
| Camera.NoKeywordIn | cmd/shared.go:226-229 | A text without the letters a, i, p, r, x, h or a space contains no phone keyword |
| Resolution.SkipSpace | cmd/import.go:329 | A successful skip stops inside the text, at or after the start |
| Resolution.SkipSpaceSpec | cmd/import.go:329 | The skip stops at the first character that is not space, having passed only spaces that are not newlines, and fails exactly when a newline comes first |
| Resolution.DigitRunEnd | cmd/import.go:329 | The end of the maximal run of decimal digits at a position |
| Resolution.ScanInt | cmd/import.go:329 | A successful `%d` consumes at least one character and ends inside the text |
| Resolution.ScanNumber | cmd/import.go:329 | A number, once read, consumes at least one character and ends inside the text |
| Resolution.ScanMagnitude | cmd/import.go:329 | A run of digits, once read, is non-empty and ends inside the text |
| Resolution.ScanWrittenInt | cmd/import.go:329 | `%d` reads back the value of any 64-bit integer written as `%d` that is not followed by a digit, and stops right after it |
| Resolution.ParseResolution | cmd/import.go:327-334 | A successful parse means the text has an 'x' after its first character |
| Resolution.ParseFormatted | cmd/import.go:327-334 | Round trip: parsing what `FormatResolution` (the `%dx%d` of cmd/shared.go:119, 153 and 212) wrote, whatever non-digit text follows, gives the width and height back |
| Resolution.UnknownDoesNotParse | cmd/import.go:327-334 | The default resolution "unknown" does not parse |
| ExifMeta.ParseExifDate | cmd/shared.go:295-311 | Fails exactly when all five layouts fail; otherwise gives the first layout's successful parse |
| ExifMeta.GetExifDateTime | cmd/shared.go:157-173 | Fails exactly when no date tag is present, string-valued and parseable; otherwise gives the date of the first such tag in the order DateTimeOriginal, CreateDate, DateTime, ModifyDate |
| ExifMeta.DateTimeOriginalWins | cmd/shared.go:158-166 | A usable DateTimeOriginal decides the date, whatever the other tags hold |
| ExifMeta.LaterTagsNotConsulted | cmd/shared.go:158-168 | Once a tag yields a date, the tags after it are never consulted |
| ExifMeta.GetExifTag | cmd/shared.go:185-195 | A missing tag gives ""; a string-valued tag gives its value |
| ExifMeta.GetExifLocation | cmd/shared.go:178-184 | The formatted GPS position when EXIF has one, "" otherwise |
| ExifMeta.HeaderResolution | cmd/shared.go:141-154 | `None` exactly when the image header does not decode; otherwise a resolution that parses back to the header's width and height |
| ExifMeta.GetExifResolution | cmd/shared.go:198-213 | Fails exactly when either pixel-dimension tag is missing; otherwise gives `%dx%d` of the two values, where a value that is not an integer counts as 0 |
| ExifMeta.ImageMetadata | cmd/shared.go:55-128 | The file type is the kind's name, and the resolution is never empty. An `image` whose header decodes gets the header's size; an `image` whose header does not decode, and a raw image, get the EXIF size, or "unknown" when EXIF or a dimension tag is missing. Without EXIF, location, model, make and camera type stay empty; with EXIF, model and make are the EXIF tags, location is the EXIF position and the camera type is `determineCameraType` of the model and make. The date is zero only when the modification time is |
| ExifMeta.ImageDate | cmd/shared.go:122-128 | The date is the first usable EXIF date unless that is the zero time, otherwise the file's modification time |
| ExifMeta.ImageResolutionParses | cmd/shared.go:91-120 | An image's resolution either parses as width and height or is "unknown" |
| VideoMeta.VideoResolution | cmd/shared.go:360-366 | "" exactly when no stream is a video stream; otherwise `%dx%d` of the first video stream |
| VideoMeta.VideoDateTime | cmd/shared.go:368-397 | The date text is `creation_time`, or the Apple location date when that is empty; the date is the parse by the first of the five formats that succeeds, and the modification time when there is no text, no format parses or the parse is the zero time |
| VideoMeta.VideoLocation | cmd/shared.go:399-409 | The location is the first non-empty of `location`, `location-eng` and the Apple ISO 6709 tag, with one trailing '/' removed when there is one |
| VideoMeta.WithVideoCamera | cmd/shared.go:411-431 | Only the camera fields change; the type becomes "camera" or "phone" or stays as it was |
| VideoMeta.VideoMetadata | cmd/shared.go:338-434 | File type "video"; the resolution, date and location are those of `VideoResolution`, `VideoDateTime` and `VideoLocation`, and the camera fields those of `WithVideoCamera`; camera type "camera", "phone" or "", and an empty type has an empty make |
| VideoMeta.CreationTimeHidesAppleDate | cmd/shared.go:369-372 | A non-empty `creation_time` hides the Apple location date completely |
| VideoMeta.LastDateFormatRedundant | cmd/shared.go:375-381 | The fifth date format repeats `time.RFC3339Nano` and never changes the result |
| VideoMeta.AppleMakeWins | cmd/shared.go:412-415 | An Apple make sets make and model from the Apple tags and type "camera", whatever else is tagged |
| VideoMeta.AndroidModel | cmd/shared.go:416-422 | Without an Apple make, an Android version gives make "Android", type "phone", and a model "Android <version>" that gains an FPS suffix exactly when a capture rate is tagged |
| VideoMeta.SoftwareOnlyModel | cmd/shared.go:423-431 | A software tag alone sets the model; it sets make "Canon" and type "camera" only when it starts with "Canon" |
| VideoMeta.FirstVideoResolution | cmd/shared.go:361-366 | The loop that stops at the first video stream computes `VideoResolution` |
| VideoMeta.ParseCreationTime | cmd/shared.go:368-388 | The loop over the date formats computes the first successful parse of the chosen date text |
| VideoMeta.GetVideoMetadata | cmd/shared.go:338-434 | Fails exactly when there is no ffprobe report; otherwise gives `VideoMetadata` of the report |
| Metadata.MediaMetadataOf | cmd/shared.go:43-138 | A missing file or a non-media path is an error; the file type is the classification's name; an image or raw image always has a non-empty resolution |
| Metadata.MetadataErrors | cmd/shared.go:43-134 | An error exactly for a missing file, a non-media path, or a video without an ffprobe report |
| Metadata.MetadataOfOwnEntry | cmd/shared.go:43-60 | The metadata depends on the file system only through the file's own entry |
| Metadata.GetMediaMetadata | cmd/shared.go:43-138 | The step-by-step field assignments compute `MediaMetadataOf` |
| Store.FileSystem.CopyFile | cmd/import.go:411-461 | Succeeds exactly when the source exists and the copy does not fail; the destination then holds the source's bytes and modification time, and nothing else changes |
| Store.Refreshed | cmd/updatemetadata.go:137-143 | Hash, paths and file type are kept; the other six metadata columns become the new values |
| Store.MediaIndex.constructor | cmd/import.go:360-373 | A new table is empty, its first id is 1, and it is valid |
| Store.MediaIndex.CheckDuplicate | cmd/import.go:391-401 | Without a query error, a duplicate is reported exactly when some row has the hash, together with that row's `new_path`; a query error is never a duplicate |
| Store.MediaIndex.StoreInDb | cmd/import.go:383-389 | The insert succeeds exactly when it does not fail and the hash is new (UNIQUE); it adds one row under the next id, and on failure nothing changes; hashes stay unique |
| Store.MediaIndex.UpdateMediaRecord | cmd/updatemetadata.go:137-143 | A successful update rewrites the metadata columns of that id only; an unknown id or a failure changes nothing |
| Planner.GenerateNewPath | cmd/import.go:405-408 | The planned path starts with the destination (unless that is "" or ".", which `Join` drops) and ends with the source's base name |
| Planner.KeepsDestination | cmd/import.go:407 | The destination stays in front through the four joins |
| Planner.JoinKeepsPrefix | cmd/import.go:407 | A prefix other than "" and "." of the first element stays a prefix of the join |
| Planner.PaddedDigitsNoSlash | cmd/import.go:407 | Zero-padded digits are non-empty and contain no '/' |
| Planner.DateFoldersNoSlash | cmd/import.go:407 | The year and month folders are non-empty single path elements |
| Planner.JoinFolder | cmd/import.go:407 | Joining a folder adds one '/' and leaves no trailing '/' |
| Planner.NewPathLayout | cmd/import.go:405-408 | For a destination other than "" and "." without a trailing '/', the planned path is `dest/type/YYYY/MM/base(source)` |
| Planner.NewPathKeepsName | cmd/import.go:405-408 | The planned path keeps the source's file name, and hence its extension |
| Planner.FileStartAfterDir | cmd/import.go:337 | The final element of a directory part followed by a name starts at the name |
| Planner.Stem | cmd/import.go:337-339 | The name followed by the extension is the final element, and the name has no '/' |
| Planner.CandidateShape | cmd/import.go:349 | The n-th alternative is the same directory followed by the single element `name_n.ext` |
| Planner.CandidateIsNotPath | cmd/import.go:349 | Every alternative is longer than the original path, so it differs from it |
| Planner.CandidateInjective | cmd/import.go:349 | Different counters give different alternatives |
| Planner.ExtOfRenamed | cmd/import.go:349 | Appending `_digits` to a name before its extension keeps the extension |
| Planner.RenamedElement | cmd/import.go:349 | The renamed element starts right after the directory and has the original extension |
| Planner.CandidateKeepsDirAndExt | cmd/import.go:336-349 | The alternatives stay in the same directory and keep the extension |
| Planner.LeastFreeUnique | cmd/import.go:336-352 | There is only one least free name |
| Planner.TriedDistinct | cmd/import.go:341-351 | The names tried are pairwise distinct |
| Planner.TriedStep | cmd/import.go:341-351 | Marking the current name as seen leaves every later name unseen |
| Planner.TakenStep | cmd/import.go:343-350 | When the current name is taken, every name tried so far is taken |
| Planner.SeenShrinks | cmd/import.go:343-350 | Each taken name tried shrinks the set of taken names not yet seen, so the loop ends |
| Planner.TriedIsLeastFree | cmd/import.go:343-347 | Stopping at the first free name tried returns the least free name, in the same directory and with the same extension |
| Planner.GenerateUniqueFilename | cmd/import.go:336-352 | Returns the path itself if it is free, else the free `name_n.ext` with the least n ≥ 1; the result does not exist, and keeps the directory and extension |
| Importer.Admit | cmd/import.go:256-285 | A rejection is `error` or `skipped_small`; an admitted file exists, is media, has metadata, and is hashed from its own bytes |
| Importer.Decide | cmd/import.go:256-313 | A duplicate is an indexed hash. An identical file at the planned path has the source's hash, which is not indexed. A copy goes to `generateNewPath`, whose current occupant, if any, has a different hash |
| Importer.Route | cmd/import.go:286-313 | After admission: a working lookup of an indexed hash is `skipped_in_db`; a copy carries the admitted hash and metadata to the planned path |
| Importer.SizeFilter | cmd/import.go:267-280 | `skipped_small` exactly for images under a set minimum whose width and height are both below it; `error` exactly for such images whose resolution does not parse |
| Importer.SizeFilterOnlyImages | cmd/import.go:267-280 | Raw images, videos, and every file when no minimum is set pass exactly when the metadata is read |
| Importer.UnknownResolutionIsError | cmd/import.go:268-272 | Under a minimum, an image with resolution "unknown" is an error, never a small file |
| Importer.RejectedBeforeLookup | cmd/import.go:256-285 | A file rejected before hashing is rejected with the same status whatever the index holds and whether or not the lookup fails |
| Importer.AdmitOwnEntry | cmd/import.go:256-285 | Admission depends on the file system only through the file's own entry |
| Importer.IndexedIsInIndex | cmd/import.go:286-297 | An admitted file whose hash is indexed is skipped as a duplicate |
| Importer.PlaceIsAdmitted | cmd/import.go:256-300 | A file heading for a copy was admitted, with the same hash and metadata |
| Importer.ReimportIsInIndex | cmd/import.go:286-297 | Importing a copied file again, bytes unchanged and its hash stored, reports it as in the index |
| Importer.AdmitFile | cmd/import.go:256-285 | The first steps, written out, compute `Admit` |
| Importer.ResolveCollision | cmd/import.go:302-313 | Reports identical exactly when the planned path exists with the same hash; otherwise returns the least free name for the planned path |
| Importer.CopyAndStore | cmd/import.go:315-323 | A failed copy changes nothing. A failed insert keeps the copy and reports `error` with the new path. Otherwise the file is copied and one row is added |
| Importer.MoveIntoArchive | cmd/import.go:300-323 | An identical file at the planned path is `skipped_not_in_db` and changes nothing; otherwise the copy goes to a path not present before, then as `CopyAndStore` says |
| Importer.ProcessAndMoveMedia | cmd/import.go:256-324 | Every outcome but a copy leaves files and index unchanged with the matching status. A copy writes only to a previously absent path. Success adds exactly one row, for the hash and new path. The index keeps one row per hash and the source stays in place |
| Importer.Counted | cmd/import.go:216-240 | Exactly the counter of a known status goes up by one and the other four stay, so the total rises by one; an unknown status changes nothing |
| Importer.ImportStats.constructor | cmd/import.go:77-83 | All five counters start at zero |
| Importer.ImportStats.UpdateStats | cmd/import.go:216-240 | The counters become `Counted` of the old counters and the status |
| Importer.ProcessFile | cmd/import.go:242-253 | A non-media path changes no file, row or counter. A media path changes the files and the index exactly as `ProcessAndMoveMedia` states, reports that call's status, and raises exactly that status's counter, so the total rises by one |
| Refresh.Changes | cmd/updatemetadata.go:113-134 | Exactly the listed fields that differ, keeping their order, and no more entries than fields |
| Refresh.CompareMetadata | cmd/updatemetadata.go:113-134 | Exactly the differing fields among the six, at most six entries, in the fixed report order |
| Refresh.CompareEmptyIff | cmd/updatemetadata.go:113-134 | No changes exactly when date (by instant), location, model, make, camera type and resolution all agree |
| Refresh.CompareSelf | cmd/updatemetadata.go:113-134 | Metadata compared with itself shows no change |
| Refresh.CompareIgnoresFileType | cmd/updatemetadata.go:113-134 | The file type plays no part in the comparison |
| Refresh.ChangesIgnoreFileType | cmd/updatemetadata.go:113-134 | The same holds for any list of fields |
| Refresh.SameInstantNoDateChange | cmd/updatemetadata.go:115-117 | Two dates at the same instant are no date change, whatever their zone |
| Refresh.Outcome | cmd/updatemetadata.go:59-103 | A scan error or missing file is an error. No change means unchanged. An update carries the freshly read metadata, which differs from the stored one |
| Refresh.Counts.Add | cmd/updatemetadata.go:57 | One row adds exactly one to the counters' total |
| Refresh.Outcomes | cmd/updatemetadata.go:59-103 | One outcome per returned row, in order |
| Refresh.TallyTotal | cmd/updatemetadata.go:57-103 | Each row lands in exactly one counter, so the counters sum to the number of rows |
| Refresh.Written | cmd/updatemetadata.go:88 | An update rewrites the row's metadata and keeps its hash; any other outcome leaves the row as it was |
| Refresh.Applied | cmd/updatemetadata.go:59-103 | A real run keeps the set of row ids |
| Refresh.AppliedUnvisited | cmd/updatemetadata.go:59-103 | A row the loop has not reached is as it was |
| Refresh.AppliedVisited | cmd/updatemetadata.go:59-103 | A visited row holds exactly what its own outcome writes |
| Refresh.AppliedKeepsHashes | cmd/updatemetadata.go:137-143 | A real run keeps every row's hash, so the uniqueness of hashes survives |
| Refresh.RefreshRow | cmd/updatemetadata.go:60-102 | One pass of the loop body yields `Outcome` and writes the row only on a real update |
| Refresh.UpdateDatabaseMetadata | cmd/updatemetadata.go:57-103 | The counters are the tally of the outcomes and sum to the number of rows. A dry run leaves every row unchanged. A real run leaves exactly the rows `Applied` describes |
| Refresh.RealRunWritesSelectedRows | cmd/updatemetadata.go:45-103 | Rows outside the file-type filter stay as they were; every returned row gets the write its outcome calls for |
| Refresh.DryRunOutcomeAlike | cmd/updatemetadata.go:84-99 | Without update failures, a row's outcome is the same in a dry run and a real run |
| Refresh.DryRunCountsAlike | cmd/updatemetadata.go:84-99 | Without update failures, a dry run counts exactly what a real run does, changed rows included |
| Refresh.RefreshIdempotent | cmd/updatemetadata.go:83-101 | A row just rewritten by a real run is unchanged on the next run, as long as its file is |

## Left out

- The directory walk, zip extraction, temporary files, signal handling and cancellation (`cmd/import.go` outside the per-file functions). The model covers one file at a time.
- SQLite itself, schema creation, cobra flags, logging and every printed message. `ImportResult` carries no message text, and the change lines of `update-metadata` are not printed.
- The string-built SQL filter in `update-metadata`. The query is modelled as any order of the selected rows (`Refresh.IsQueryResult`), because the query has no ORDER BY.
- ffprobe invocation and JSON decoding. The decoded report is an input, and a failed run or decode is `None`.
- EXIF decoding, `LatLong` with its `%.6f` float formatting, and `image.DecodeConfig`. These are functions in `Env`; a location is an opaque string.
- The xxhash algorithm. The hash is an uninterpreted function of the bytes.
- The calendar semantics of `time.Parse`. It is an oracle from layout and text to a time. A time is reduced to an instant plus the year and month it prints.
- `filepath.Join` does not fully `Clean` its result here. Only a leading "." element is dropped. A destination holding "..", "./" inside it or a doubled '/' keeps them, where Go would clean them away. '/' is the only separator.
- `strings.ToLower` lower-cases ASCII letters only in this model.
- Errors from reading the file for hashing, from `os.Stat` other than not-exist, and from a directory at the planned path.
- The partial state a copy failing halfway leaves. A failed copy is modelled as no change.
- The round trip of the date through SQLite's DATETIME column. The stored metadata is read back exactly as written.
- The duplicate `getExifDateTime` and `computeXXHash` declared in `cmd/list.go` are not part of this model; the `cmd/shared.go` versions are.
- The rest of `cmd/list.go` and all of `cmd/db.go` are not part of this model.
- Store.MediaIndex.CheckDuplicate: a query error is a fault parameter, not derived from the database's state.
- Refresh.RefreshRow: the row scan error and the update error are per-id fault parameters of the run.
