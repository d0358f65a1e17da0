/** The upload gatekeeper `save_file`: it cleans the client's file name,
    keeps only its extension, stores the bytes under a fresh uuid4 name in
    the destination directory and returns the public "/static/..." path.

    werkzeug's `secure_filename`, `uuid.uuid4()` and the disk write are
    foreign; their outcomes travel with the upload as `FileUpload`. */
module Uploads {
  import opened Common

  /** An uploaded file part. `secureName` is `secure_filename(filename or '')`,
      `uniqueHex` is the `uuid4().hex` drawn for it, and `saveError` is the
      message of the exception raised by `file_storage.save`, if any. */
  datatype FileUpload = FileUpload(secureName: string, uniqueHex: string, saveError: Option<string>)

  /** Destination directories, relative to the static root. */
  const GovtIdDir: string := "uploads/govt_ids"
  const ProductDir: string := "uploads/products"

  predicate IsSuffix(suffix: string, s: string) {
    |suffix| <= |s| && s[|s| - |suffix|..] == suffix
  }

  /** Index of the last '.' in `s`. */
  function LastDot(s: string): (r: Option<nat>)
    ensures r.Some? ==> r.value < |s| && s[r.value] == '.'
                        && forall j :: r.value < j < |s| ==> s[j] != '.'
    ensures r.None? ==> forall j :: 0 <= j < |s| ==> s[j] != '.'
  {
    if |s| == 0 then None
    else if s[|s| - 1] == '.' then Some(|s| - 1)
    else LastDot(s[..|s| - 1])
  }

  predicate AllDots(s: string) {
    forall j :: 0 <= j < |s| ==> s[j] == '.'
  }

  /** The extension `os.path.splitext` splits off a name without separators:
      from the last dot on, unless everything before that dot is dots too. */
  function Extension(name: string): (ext: string)
    ensures IsSuffix(ext, name)
    ensures ext == [] || (ext[0] == '.' && forall j :: 1 <= j < |ext| ==> ext[j] != '.')
    ensures ext == [] <==> (LastDot(name).None? || AllDots(name[..LastDot(name).value]))
  {
    match LastDot(name)
    case None => []
    case Some(d) => if AllDots(name[..d]) then [] else name[d..]
  }

  /** The stored file's public path: "/static/" + destination + "/" + unique name. */
  function StoredPath(destDir: string, uniqueHex: string, ext: string): string {
    "/static/" + destDir + "/" + uniqueHex + ext
  }

  /** `save_file(file_storage, dest_dir)`: ValueError('Invalid file') when the
      cleaned name is empty, the write's own error when the write fails, and
      otherwise the path of the stored copy. */
  function SaveFile(f: FileUpload, destDir: string): (r: Result<string, string>)
    ensures r.Ok? <==> f.secureName != "" && f.saveError.None?
    ensures f.secureName == "" ==> r == Err("Invalid file")
    ensures f.secureName != "" && f.saveError.Some? ==> r == Err(f.saveError.value)
    ensures r.Ok? ==> IsSuffix(Extension(f.secureName), r.value)
    ensures r.Ok? ==> StartsWith(r.value, "/static/" + destDir + "/")
  {
    if f.secureName == "" then Err("Invalid file")
    else if f.saveError.Some? then Err(f.saveError.value)
    else Ok(StoredPath(destDir, f.uniqueHex, Extension(f.secureName)))
  }

  /** The stored path does not depend on the client's file name beyond its
      extension: two uploads with the same uuid and extension are stored at
      the same path whatever their names. */
  lemma OnlyExtensionKept(f: FileUpload, g: FileUpload, destDir: string)
    requires SaveFile(f, destDir).Ok? && SaveFile(g, destDir).Ok?
    requires f.uniqueHex == g.uniqueHex && Extension(f.secureName) == Extension(g.secureName)
    ensures SaveFile(f, destDir) == SaveFile(g, destDir)
  {
  }

  /** Two uploads that drew different uuids (whose hex form always has 32
      digits) never share a stored path, whatever their names. */
  lemma {:induction false} DistinctUuidsDistinctPaths(f: FileUpload, g: FileUpload, destDir: string)
    requires SaveFile(f, destDir).Ok? && SaveFile(g, destDir).Ok?
    requires |f.uniqueHex| == 32 && |g.uniqueHex| == 32 && f.uniqueHex != g.uniqueHex
    ensures SaveFile(f, destDir).value != SaveFile(g, destDir).value
  {
    var prefix := "/static/" + destDir + "/";
    var pf := SaveFile(f, destDir).value;
    var pg := SaveFile(g, destDir).value;
    assert pf == prefix + f.uniqueHex + Extension(f.secureName);
    assert pg == prefix + g.uniqueHex + Extension(g.secureName);
    assert pf[|prefix|..|prefix| + 32] == f.uniqueHex;
    assert pg[|prefix|..|prefix| + 32] == g.uniqueHex;
  }

  /** Government ID documents and product images are stored in different
      directories, so no ID document is ever stored at a product image's path. */
  lemma IdDocumentsApartFromImages(f: FileUpload, g: FileUpload)
    requires SaveFile(f, GovtIdDir).Ok? && SaveFile(g, ProductDir).Ok?
    ensures SaveFile(f, GovtIdDir).value != SaveFile(g, ProductDir).value
  {
    var a := SaveFile(f, GovtIdDir).value;
    var b := SaveFile(g, ProductDir).value;
    assert a[16] == ("/static/" + GovtIdDir + "/")[16] == 'g';
    assert b[16] == ("/static/" + ProductDir + "/")[16] == 'p';
  }
}
