/**
 * `validateImageFile` of math-tutor/src/services/openai.js: a presence
 * check, a MIME-type allow-list and a size limit, checked in that order.
 */
module ImageValidation {
  import opened Wrappers

  /** The two properties of a browser `File` the validator reads. */
  datatype ImageFile = ImageFile(mimeType: string, size: nat)

  /** `{ valid: true }` or `{ valid: false, error }`. */
  datatype Validation = Valid | Invalid(error: string)

  /** 20 MiB, the upload limit of the vision model. */
  const MAX_SIZE: nat := 20 * 1024 * 1024

  const ALLOWED_TYPES: seq<string> := ["image/png", "image/jpeg", "image/jpg", "image/webp", "image/gif"]

  const NO_FILE := "No file provided"
  const UNSUPPORTED_TYPE := "File type not supported. Please upload PNG, JPG, WEBP, or GIF images."
  const TOO_LARGE := "File too large. Maximum size is 20MB."

  /**
   * `validateImageFile(file)`, a missing (falsy) file being None. Each check
   * reports only when the earlier ones passed, and the file is valid exactly
   * when all three pass; the size limit is inclusive.
   */
  function ValidateImageFile(file: Option<ImageFile>): (r: Validation)
    ensures file.None? ==> r == Invalid(NO_FILE)
    ensures file.Some? && file.value.mimeType !in ALLOWED_TYPES ==> r == Invalid(UNSUPPORTED_TYPE)
    ensures file.Some? && file.value.mimeType in ALLOWED_TYPES && file.value.size > MAX_SIZE ==> r == Invalid(TOO_LARGE)
    ensures r == Valid <==> file.Some? && file.value.mimeType in ALLOWED_TYPES && file.value.size <= 20971520
  {
    if file.None? then Invalid(NO_FILE)
    else if file.value.mimeType !in ALLOWED_TYPES then Invalid(UNSUPPORTED_TYPE)
    else if file.value.size > MAX_SIZE then Invalid(TOO_LARGE)
    else Valid
  }

  /** An oversized file of the wrong type is reported for its type: the type check comes first. */
  lemma TypeCheckedBeforeSize(mimeType: string, size: nat)
    requires mimeType !in ALLOWED_TYPES && size > MAX_SIZE
    ensures ValidateImageFile(Some(ImageFile(mimeType, size))) == Invalid(UNSUPPORTED_TYPE)
  {
  }

  /** Exactly 20 MiB is accepted and one byte more is refused. */
  lemma SizeBoundary(mimeType: string)
    requires mimeType in ALLOWED_TYPES
    ensures ValidateImageFile(Some(ImageFile(mimeType, 20971520))) == Valid
    ensures ValidateImageFile(Some(ImageFile(mimeType, 20971521))) == Invalid(TOO_LARGE)
  {
  }

  /** The allow-list is exactly PNG, JPEG (under both names), WEBP and GIF; SVG, for one, is refused. */
  lemma AllowedTypes()
    ensures forall t :: t in ALLOWED_TYPES <==>
              t == "image/png" || t == "image/jpeg" || t == "image/jpg" || t == "image/webp" || t == "image/gif"
    ensures ValidateImageFile(Some(ImageFile("image/svg+xml", 0))) == Invalid(UNSUPPORTED_TYPE)
  {
    assert "image/svg+xml"[6] != "image/png"[6];
    assert "image/svg+xml"[6] != "image/jpeg"[6];
    assert "image/svg+xml"[6] != "image/jpg"[6];
    assert "image/svg+xml"[6] != "image/webp"[6];
    assert "image/svg+xml"[6] != "image/gif"[6];
  }
}
