/** How the product routes name an uploaded image file and which path they
    record for it: the original name is sanitised, prefixed with the upload
    time, and joined to the upload directory. */
module Uploads {
  import opened Text
  import Paths

  /** The characters the sanitiser keeps: `[a-zA-Z0-9._-]`. */
  predicate IsAllowed(c: char)
  {
    IsLowerAscii(c) || IsUpperAscii(c) || IsDigit(c) || c == '.' || c == '_' || c == '-'
  }

  function SanitiseChar(c: char): char
  {
    if IsAllowed(c) then c else '_'
  }

  /** `originalname.replace(/[^a-zA-Z0-9._-]/g, "_")`. */
  function Sanitise(name: string): (r: string)
    ensures |r| == |name|
    ensures forall k :: 0 <= k < |r| ==> IsAllowed(r[k])
    ensures forall k :: 0 <= k < |r| ==> r[k] == (if IsAllowed(name[k]) then name[k] else '_')
  {
    seq(|name|, k requires 0 <= k < |name| => SanitiseChar(name[k]))
  }

  /** A name that is already clean is left as it is, so sanitising twice is
      the same as sanitising once. */
  lemma SanitiseIdempotent(name: string)
    ensures (forall k :: 0 <= k < |name| ==> IsAllowed(name[k])) ==> Sanitise(name) == name
    ensures Sanitise(Sanitise(name)) == Sanitise(name)
  {
  }

  /** The name a file is stored under: `${Date.now()}_${cleanName}`, with the
      clock reading passed in. */
  function StoredFilename(savedAt: nat, originalName: string): (r: string)
    ensures Paths.IsPlainSegment(r)
  {
    var r := Decimal(savedAt) + "_" + Sanitise(originalName);
    assert r[0] != '.';
    r
  }

  const UploadTop: string := "uploads"
  const UploadSub: string := "products"

  /** The directory images are recorded under: "/uploads/products". */
  const UploadDir: string := "/" + UploadTop + "/" + UploadSub

  /** `path.join("/uploads/products", filename)`. */
  function ImagePath(filename: string): string
  {
    Paths.JoinUnder(UploadDir, filename)
  }

  /** The recorded path of every stored upload is the upload directory, a
      slash and the stored name, with nothing normalised away. */
  lemma ImagePathOfStoredFile(savedAt: nat, originalName: string)
    ensures ImagePath(StoredFilename(savedAt, originalName))
         == "/uploads/products/" + StoredFilename(savedAt, originalName)
  {
    var f := StoredFilename(savedAt, originalName);
    Paths.JoinPlain(UploadTop, UploadSub, f);
  }
}
