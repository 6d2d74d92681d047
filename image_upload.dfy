/** The image picker of the editor: a chosen file is accepted only when it is small enough
    and is an image; the remove button clears the value. */
module ImageUpload {
  import opened Wrappers
  import JsStrings
  import GameEditor

  /** What the picker knows of a chosen file: its size in bytes and its MIME type. */
  datatype File = File(size: nat, mimeType: string)

  /** The outcome of a selection. Only `Accepted` goes on to be read and handed to
      `onChange`; the two refusals raise an error notice and change nothing. */
  datatype Verdict = NoFile | TooLarge | WrongType | Accepted(file: File)

  /** The size limit in megabytes when the caller gives none. */
  const DefaultMaxSize: real := 5.0

  const ImagePrefix: string := "image/"

  /** The limit in bytes for a limit of `maxSize` megabytes. */
  function LimitBytes(maxSize: real): real {
    maxSize * 1024.0 * 1024.0
  }

  /** `handleFileSelect`'s guards, in order: no file, then the size, then the type. */
  function CheckSelection(file: Option<File>, maxSize: real): (r: Verdict)
    ensures r == NoFile <==> file.None?
    ensures r == TooLarge <==> file.Some? && file.value.size as real > LimitBytes(maxSize)
    ensures r == WrongType <==>
      file.Some? && file.value.size as real <= LimitBytes(maxSize)
      && !JsStrings.StartsWith(file.value.mimeType, ImagePrefix)
    ensures r.Accepted? <==>
      file.Some? && file.value.size as real <= LimitBytes(maxSize)
      && JsStrings.StartsWith(file.value.mimeType, ImagePrefix)
    ensures r.Accepted? ==> r.file == file.value
  {
    match file
    case None => NoFile
    case Some(f) =>
      if f.size as real > LimitBytes(maxSize) then TooLarge
      else if !JsStrings.StartsWith(f.mimeType, ImagePrefix) then WrongType
      else Accepted(f)
  }

  /** The title of the notice each refusal raises. */
  function NoticeTitle(v: Verdict): (r: Option<string>)
    ensures r.Some? <==> v == TooLarge || v == WrongType
  {
    match v
    case TooLarge => Some("File too large")
    case WrongType => Some("Invalid file type")
    case _ => None
  }

  /** The limit is inclusive: an image of exactly the limit passes and one byte more is
      refused. With the default limit that is 5242880 bytes. */
  lemma LimitIsInclusive(size: nat, mimeType: string, maxSize: real)
    requires size as real == LimitBytes(maxSize)
    requires JsStrings.StartsWith(mimeType, ImagePrefix)
    ensures CheckSelection(Some(File(size, mimeType)), maxSize) == Accepted(File(size, mimeType))
    ensures CheckSelection(Some(File(size + 1, mimeType)), maxSize) == TooLarge
  {
  }

  /** With the default limit, any chosen file is refused as too large exactly when it
      has more than 5242880 bytes, and otherwise accepted exactly when its type starts
      with `image/`. */
  lemma DefaultLimitDecides(f: File)
    ensures CheckSelection(Some(f), DefaultMaxSize)
         == if f.size > 5242880 then TooLarge
            else if JsStrings.StartsWith(f.mimeType, ImagePrefix) then Accepted(f)
            else WrongType
  {
    assert LimitBytes(DefaultMaxSize) == 5242880.0;
  }

  /** The size is checked first: an oversized file is reported as too large whatever its
      type. */
  lemma SizeCheckedBeforeType(f: File, maxSize: real)
    requires f.size as real > LimitBytes(maxSize)
    ensures CheckSelection(Some(f), maxSize) == TooLarge
    ensures forall t :: CheckSelection(Some(File(f.size, t)), maxSize) == TooLarge
  {
  }

  /** Every type of the form `image/…` is accepted, whatever follows the slash, when the
      size fits. */
  lemma ImageSubtypesAccepted(size: nat, subtype: string, maxSize: real)
    requires size as real <= LimitBytes(maxSize)
    ensures CheckSelection(Some(File(size, ImagePrefix + subtype)), maxSize)
         == Accepted(File(size, ImagePrefix + subtype))
  {
    assert (ImagePrefix + subtype)[..|ImagePrefix|] == ImagePrefix;
  }

  /** A type shorter than `image/`, or one that differs from it in one of its first six
      characters, is refused as not an image however small the file. */
  lemma OtherTypesRefused(size: nat, mimeType: string, maxSize: real)
    requires size as real <= LimitBytes(maxSize)
    requires |mimeType| < |ImagePrefix| || exists k :: 0 <= k < |ImagePrefix| && mimeType[k] != ImagePrefix[k]
    ensures CheckSelection(Some(File(size, mimeType)), maxSize) == WrongType
  {
    if |mimeType| >= |ImagePrefix| {
      var k :| 0 <= k < |ImagePrefix| && mimeType[k] != ImagePrefix[k];
      assert mimeType[..|ImagePrefix|][k] == mimeType[k];
    }
  }

  /** `removeImage`: the value handed to `onChange`. */
  function RemoveImage(): (r: Option<string>)
    ensures r.None?
  {
    None
  }

  /** The editor stores a removed image as the empty string. */
  lemma RemovedImageStoredEmpty()
    ensures GameEditor.ImageValue(RemoveImage()) == ""
  {
  }

  /** The picker shows the current image, with its remove button, exactly when the value
      is a non-empty string; otherwise it shows the upload button. */
  predicate ShowsImage(value: Option<string>) {
    value.Some? && value.value != ""
  }

  lemma RemoveHidesImage()
    ensures !ShowsImage(Some(GameEditor.ImageValue(RemoveImage())))
    ensures !ShowsImage(RemoveImage())
  {
  }
}
