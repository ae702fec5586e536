/**
 * Object naming in the claim bucket: where an upload is stored, how image
 * uploads are renamed to `.webp`, and the fixed paths the readers fetch.
 * The object store itself is a parameter: a function from object path to
 * the bytes read or the error raised.
 */
module Minio {
  import opened Wrappers
  import opened Text

  type Bytes = seq<bv8>

  /** `SUPPORTED_IMAGE_FORMATS` (a set in the source; the order here is immaterial). */
  const SupportedImageFormats: seq<string> := [".webp", ".jpg", ".jpeg", ".png", ".bmp", ".tiff"]

  /** `name.lower().endswith(tuple(SUPPORTED_IMAGE_FORMATS))`. */
  predicate IsSupportedImage(name: string) {
    exists ext :: ext in SupportedImageFormats && EndsWith(Lower(name), ext)
  }

  /** The position of the last '.', if any. */
  function LastDot(s: string): (r: Option<nat>)
    ensures r.Some? ==> r.value < |s| && s[r.value] == '.'
    ensures r.Some? ==> forall j :: r.value < j < |s| ==> s[j] != '.'
    ensures r.None? ==> forall j :: 0 <= j < |s| ==> s[j] != '.'
    decreases |s|
  {
    if s == [] then None
    else if s[|s| - 1] == '.' then Some(|s| - 1)
    else LastDot(s[..|s| - 1])
  }

  /** `name.rsplit('.', 1)[0]`: everything before the last '.', or the whole name. */
  function Stem(name: string): string {
    match LastDot(name)
    case None => name
    case Some(k) => name[..k]
  }

  /** The name an upload is stored under: image names get the `.webp` extension. */
  function FinalName(name: string): (r: string)
    ensures IsSupportedImage(name) ==> EndsWith(r, ".webp") && |r| <= |name| + 5
    ensures !IsSupportedImage(name) ==> r == name
  {
    if IsSupportedImage(name) then Stem(name) + ".webp" else name
  }

  /** `f"{claim_id}/{name}"`. */
  function ObjectName(claimId: string, name: string): string {
    claimId + "/" + name
  }

  /** The path `get_image_from_minio` reads. */
  function ImagePath(claimId: string): string {
    claimId + "/image.webp"
  }

  /** The path `get_claim_metadata` reads. */
  function MetadataPath(claimId: string): string {
    claimId + "/metadata.md"
  }

  /** The prefix `list_files_in_minio` lists. */
  function ListPrefix(claimId: string): string {
    claimId + "/"
  }

  /** The error Python raises when `name` is `None` and `name.lower()` is called. */
  const NoneHasNoLower := "'NoneType' object has no attribute 'lower'"

  /** An `UploadFile`: its own file name, its bytes and its declared content type. */
  datatype UploadFile = UploadFile(filename: Option<string>, data: Bytes, contentType: Option<string>)

  /** The arguments of the `put_object` call. */
  datatype PutRequest = PutRequest(objectName: string, data: Bytes, contentType: Option<string>)

  /** `filename or file.filename`: an empty or missing `filename` falls back to the upload's own. */
  function EffectiveName(file: UploadFile, filename: Option<string>): (r: Option<string>)
    ensures filename.Some? && filename.value != "" ==> r == filename
    ensures (filename.None? || filename.value == "") ==> r == file.filename
  {
    if filename.Some? && filename.value != "" then filename else file.filename
  }

  /**
   * `upload_file_to_minio`: decide the name, convert image bytes with the
   * supplied converter, and store the object with the supplied `put`.
   * Every failure is re-raised, so it comes back as the error.
   */
  method UploadFileToMinio(file: UploadFile, claimId: string, filename: Option<string>,
                           convert: (Bytes, string) -> Result<Bytes, string>,
                           put: PutRequest -> Result<(), string>)
    returns (r: Result<PutRequest, string>)
    ensures EffectiveName(file, filename).None? ==> r == Failure(NoneHasNoLower)
    ensures EffectiveName(file, filename).Some? ==>
      var name := EffectiveName(file, filename).value;
      var converted := convert(file.data, name);
      if IsSupportedImage(name) && converted.Failure? then r == Failure(converted.error)
      else
        var request := PutRequest(ObjectName(claimId, FinalName(name)),
                                  if IsSupportedImage(name) then converted.value else file.data,
                                  if EndsWith(FinalName(name), ".webp") then Some("image/webp") else file.contentType);
        r == if put(request).Success? then Success(request) else Failure(put(request).error)
    ensures r.Success? ==>
      var name := EffectiveName(file, filename).value;
      r.value.contentType == if IsSupportedImage(name) then Some("image/webp") else file.contentType
  {
    var nameOpt := EffectiveName(file, filename);
    if nameOpt.None? {
      return Failure(NoneHasNoLower);
    }
    var name := nameOpt.value;
    var fileData := file.data;
    if IsSupportedImage(name) {
      var converted := convert(fileData, name);
      if converted.Failure? {
        return Failure(converted.error);
      }
      fileData := converted.value;
      name := Stem(name) + ".webp";
    }
    var objectName := ObjectName(claimId, name);
    var contentType := if EndsWith(name, ".webp") then Some("image/webp") else file.contentType;
    WebpExactlyWhenRenamed(nameOpt.value);
    var request := PutRequest(objectName, fileData, contentType);
    var stored := put(request);
    if stored.Failure? {
      return Failure(stored.error);
    }
    return Success(request);
  }

  // ---------------------------------------------------------------------
  // The readers
  // ---------------------------------------------------------------------

  /**
   * `get_image_from_minio`: the bytes of the claim's image object, or the
   * error re-raised. There is no `None` result.
   */
  function GetImageFromMinio(claimId: string, fetch: string -> Result<Bytes, string>): Result<Bytes, string> {
    fetch(ImagePath(claimId))
  }

  /** `get_claim_metadata`: the decoded metadata object, or the error re-raised. */
  function GetClaimMetadata(claimId: string, fetchText: string -> Result<string, string>): Result<string, string> {
    fetchText(MetadataPath(claimId))
  }

  /** `list_files_in_minio`: the object names under the claim's prefix, or the error re-raised. */
  function ListFilesInMinio(claimId: string, list: string -> Result<seq<string>, string>): Result<seq<string>, string> {
    list(ListPrefix(claimId))
  }

  // ---------------------------------------------------------------------
  // Properties of the naming rules
  // ---------------------------------------------------------------------

  /** A name ending in one of the extensions loses exactly that extension. */
  lemma StemStripsExtension(name: string, ext: string)
    requires ext in SupportedImageFormats && EndsWith(Lower(name), ext)
    ensures Stem(name) == name[..|name| - |ext|]
  {
    var k := |name| - |ext|;
    var low := Lower(name);
    assert low[k..] == ext;
    assert ext[0] == '.' && forall m :: 0 < m < |ext| ==> ext[m] != '.';
    assert name[k] == '.' by {
      assert low[k] == ext[0];
      LowerCharKeepsClasses(name[k]);
    }
    forall j | k < j < |name| ensures name[j] != '.' {
      assert low[j] == ext[j - k];
      LowerCharKeepsClasses(name[j]);
    }
    var d := LastDot(name);
    if d.None? {
      assert false;
    }
  }

  /** A name carrying a supported extension is stored under that name with the extension replaced by ".webp". */
  lemma FinalNameRenames(name: string, ext: string)
    requires ext in SupportedImageFormats && EndsWith(Lower(name), ext)
    ensures FinalName(name) == name[..|name| - |ext|] + ".webp"
  {
    StemStripsExtension(name, ext);
  }

  /** Lower-casing keeps a lower-case suffix: a name ending in ".webp" is a supported image. */
  lemma WebpNameIsSupported(name: string)
    requires EndsWith(name, ".webp")
    ensures IsSupportedImage(name)
  {
    var low := Lower(name);
    var k := |name| - 5;
    assert low[k..] == ".webp" by {
      assert forall m :: k <= m < |name| ==> !IsUpper(name[m]);
    }
    assert ".webp" in SupportedImageFormats;
  }

  /** The content type is "image/webp" exactly for the names that were renamed. */
  lemma WebpExactlyWhenRenamed(name: string)
    ensures EndsWith(FinalName(name), ".webp") <==> IsSupportedImage(name)
  {
    if !IsSupportedImage(name) && EndsWith(name, ".webp") {
      WebpNameIsSupported(name);
    }
  }

  /** Every stored object lies under the claim's listing prefix. */
  lemma ObjectUnderPrefix(claimId: string, name: string)
    ensures ObjectName(claimId, name)[..|ListPrefix(claimId)|] == ListPrefix(claimId)
    ensures ImagePath(claimId)[..|ListPrefix(claimId)|] == ListPrefix(claimId)
    ensures MetadataPath(claimId)[..|ListPrefix(claimId)|] == ListPrefix(claimId)
  {
  }

  lemma ExtensionsAreLowercase(ext: string)
    requires ext in SupportedImageFormats
    ensures forall c :: c in ext ==> !IsUpper(c)
  {
  }

  /** "image" followed by a supported extension is already lower case. */
  lemma ImageNameIsLowercase(ext: string)
    requires ext in SupportedImageFormats
    ensures Lower("image" + ext) == "image" + ext
  {
    var name := "image" + ext;
    ExtensionsAreLowercase(ext);
    assert forall c :: c in name ==> c in "image" || c in ext;
    LowerOfLowercase(name);
  }

  /** Each supported extension is a '.' followed by no other '.'. */
  lemma ExtensionShape(ext: string)
    requires ext in SupportedImageFormats
    ensures |ext| > 0 && ext[0] == '.' && forall m :: 0 < m < |ext| ==> ext[m] != '.'
  {
  }

  /** The stem of `base + ext` is `base` when `ext` is a '.' followed by no other '.'. */
  lemma StemOfDotted(base: string, ext: string)
    requires |ext| > 0 && ext[0] == '.' && forall m :: 0 < m < |ext| ==> ext[m] != '.'
    ensures Stem(base + ext) == base
  {
    var name := base + ext;
    assert name[|base|] == '.';
    assert forall j :: |base| < j < |name| ==> name[j] == ext[j - |base|];
    assert name[..|base|] == base;
  }

  /** "image" with any supported extension is stored as "image.webp". */
  lemma ImageNameFinal(ext: string)
    requires ext in SupportedImageFormats
    ensures FinalName("image" + ext) == "image.webp"
  {
    var name := "image" + ext;
    ImageNameIsLowercase(ext);
    assert EndsWith(Lower(name), ext) by {
      assert name[|name| - |ext|..] == ext;
    }
    assert IsSupportedImage(name);
    ExtensionShape(ext);
    StemOfDotted("image", ext);
    assert FinalName(name) == "image" + ".webp";
  }

  /** The object "image.webp" of a claim is the path the image reader reads. */
  lemma ImageObjectIsImagePath(claimId: string)
    ensures ObjectName(claimId, "image.webp") == ImagePath(claimId)
  {
    assert "/" + "image.webp" == "/image.webp";
    assert claimId + "/" + "image.webp" == claimId + ("/" + "image.webp");
  }

  /** An upload named "image" with any supported extension lands where the image reader looks. */
  lemma ImageUploadIsReadBack(claimId: string, ext: string)
    requires ext in SupportedImageFormats
    ensures ObjectName(claimId, FinalName("image" + ext)) == ImagePath(claimId)
  {
    ImageNameFinal(ext);
    ImageObjectIsImagePath(claimId);
  }

  /** "metadata.md" is not an image name, so it is stored where the metadata reader looks. */
  lemma MetadataUploadIsReadBack(claimId: string)
    ensures ObjectName(claimId, FinalName("metadata.md")) == MetadataPath(claimId)
  {
    var name := "metadata.md";
    assert Lower(name) == name by {
      assert forall c :: c in name ==> !IsUpper(c);
      LowerOfLowercase(name);
    }
    forall ext | ext in SupportedImageFormats ensures !EndsWith(Lower(name), ext) {
      assert name[|name| - 3..] == ".md";
    }
  }
}
