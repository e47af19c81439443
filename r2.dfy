/** Object naming of the blob store (`uploadToR2`): where an uploaded buffer
    is put and the public URL it is served from. The `PutObjectCommand`
    itself is a call into the storage service; its outcome is given to the
    callers of this module as a parameter. */
module R2 {
  import opened JsString

  const DEFAULT_FOLDER: string := "photos"
  const FALLBACK_EXTENSION: string := "jpg"

  /** `mimeType.split('/')[1] || 'jpg'`. */
  function FileExtension(mimeType: string): (ext: string)
    ensures ext != "" && '/' !in ext
  {
    var parts := Split(mimeType, '/');
    if |parts| > 1 && parts[1] != "" then parts[1] else FALLBACK_EXTENSION
  }

  /** The extension is the piece between the first and the second `/` of the
      mime type when that piece is not empty. */
  lemma ExtensionIsSubtype(kind: string, sub: string, rest: string)
    requires '/' !in kind && '/' !in sub && sub != ""
    requires rest == [] || rest[0] == '/'
    ensures FileExtension(kind + "/" + sub + rest) == sub
  {
    assert kind + "/" + sub + rest == kind + ['/'] + (sub + rest);
    SplitAtSeparator(kind, '/', sub + rest);
    SplitFirstPiece(sub, '/', rest);
  }

  /** Otherwise, with no `/` at all or nothing after the first one, it is
      `jpg`. */
  lemma ExtensionFallback(kind: string, rest: string)
    requires '/' !in kind
    requires rest == [] || rest[0] == '/'
    ensures FileExtension(kind) == FALLBACK_EXTENSION
    ensures FileExtension(kind + "/" + rest) == FALLBACK_EXTENSION
  {
    SplitWithoutSeparator(kind, '/');
    assert kind + "/" + rest == kind + ['/'] + ([] + rest);
    SplitAtSeparator(kind, '/', rest);
    SplitFirstPiece([], '/', rest);
  }

  /** The object key `${folder}/${uuid}.${extension}`. */
  function ObjectKey(folder: string, uuid: string, mimeType: string): (k: string)
    ensures |k| == |folder| + |uuid| + 2 + |FileExtension(mimeType)|
  {
    folder + "/" + uuid + "." + FileExtension(mimeType)
  }

  /** The key is the folder, a slash, the uuid, a dot and the extension, in
      that order. */
  lemma ObjectKeyParts(folder: string, uuid: string, mimeType: string)
    ensures var k := ObjectKey(folder, uuid, mimeType);
      && k[..|folder| + 1] == folder + "/"
      && k[|folder| + 1..|folder| + 1 + |uuid|] == uuid
      && k[|k| - |FileExtension(mimeType)| - 1..] == "." + FileExtension(mimeType)
  {
    var k := ObjectKey(folder, uuid, mimeType);
    assert k == (folder + "/") + uuid + ("." + FileExtension(mimeType));
  }

  datatype Uploaded = Uploaded(fileName: string, publicUrl: string)

  /** What `uploadToR2` returns once the put has succeeded: the key as
      `fileName` and `${publicBase}/${fileName}` as `publicUrl`. `publicBase`
      is the `R2_PUBLIC_URL` setting and `uuid` the value `uuidv4()` drew. */
  function UploadToR2(publicBase: string, mimeType: string, uuid: string,
                      folder: string := DEFAULT_FOLDER): (u: Uploaded)
    ensures u.fileName == ObjectKey(folder, uuid, mimeType)
    ensures u.publicUrl == publicBase + "/" + u.fileName
  {
    var key := ObjectKey(folder, uuid, mimeType);
    Uploaded(key, publicBase + "/" + key)
  }

  /** Within one folder and mime type, distinct uuids name distinct objects. */
  lemma {:induction false} DistinctUuidsDistinctKeys(folder: string, mimeType: string, u1: string, u2: string)
    requires u1 != u2
    ensures ObjectKey(folder, u1, mimeType) != ObjectKey(folder, u2, mimeType)
  {
    var k1, k2 := ObjectKey(folder, u1, mimeType), ObjectKey(folder, u2, mimeType);
    if |u1| == |u2| {
      var i :| 0 <= i < |u1| && u1[i] != u2[i];
      assert k1[|folder| + 1 + i] == u1[i];
      assert k2[|folder| + 1 + i] == u2[i];
    } else {
      assert |k1| != |k2|;
    }
  }

  /** The public URL spelled out, for a mime type of known extension. */
  lemma PublicUrlOf(publicBase: string, mimeType: string, uuid: string, folder: string, ext: string)
    requires FileExtension(mimeType) == ext
    ensures UploadToR2(publicBase, mimeType, uuid, folder).publicUrl
            == publicBase + "/" + folder + "/" + uuid + "." + ext
  {
  }
}
