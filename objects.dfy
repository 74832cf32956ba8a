/**
 * The object store of a minimal git: `hash-object -w` frames a file's bytes as a
 * blob, names it by the lowercase hex of the frame's SHA-1 digest and writes the
 * zlib-compressed frame under `.git/objects/<2 hex>/<38 hex>`; `cat-file -p` finds
 * the file for an identifier, inflates it and prints what follows the first NUL.
 *
 * SHA-1, zlib and the UTF-8 check of `read_to_string` belong to other crates and are
 * passed in as function values (`Foreign`). The working tree's `.git/objects`
 * directory is a map from path to file bytes.
 */
module Objects {
  import opened Bytes
  import opened Format

  /** A SHA-1 digest: 20 bytes. */
  type Digest = d: Bytes | |d| == 20 witness seq(20, i => 0 as byte)

  /**
   * The foreign code the store calls: `Sha1::digest`, the zlib encoder and decoder of
   * `flate2`, and the UTF-8 validity test `read_to_string` applies to what it decodes.
   * A failing decoder reports its own `io::Error`.
   */
  datatype Foreign = Foreign(
    sha1: Bytes -> Digest,
    deflate: Bytes -> Bytes,
    inflate: Bytes -> Result<Bytes, IoError>,
    isUtf8: Bytes -> bool)

  /** The one thing assumed of zlib: decoding what the encoder produced gives the input back. */
  ghost predicate InflateInvertsDeflate(f: Foreign)
  {
    forall b :: f.inflate(f.deflate(b)) == Ok(b)
  }

  /** Files by path; a path that is a key exists. Directories are implicit. */
  type FileSystem = map<Bytes, Bytes>

  const ObjectsRoot: Bytes := Ascii(".git/objects/")
  const SLASH: byte := '/' as byte
  const BlobLabel: Bytes := Ascii("blob ")

  /** The two ways `construct_blob_path` panics. */
  datatype Panic =
    | InvalidHashLength   // the `assert!` on the length
    | NotCharBoundary     // `split_at(2)` inside a multi-byte character

  /** What `read_blob_file` ends with: output on stdout, a message on stderr, or a panic. */
  datatype CatFileOutcome =
    | Printed(content: Bytes)
    | DecompressFailed(error: IoError)
    | BlobNotFound(path: Bytes)
    | Panicked(reason: Panic)

  const NoNullByte: IoError := IoError(InvalidData, "Invalid blob format: no null byte found")
  /** What `File::open` reports for a missing file (not reachable from `read_blob_file`, which checks existence first). */
  const FileNotFound: IoError := IoError(NotFound, "No such file or directory (os error 2)")
  const NotUtf8: IoError := IoError(InvalidData, "stream did not contain valid UTF-8")

  // ---------------------------------------------------------------- read side

  /**
   * `construct_blob_path`: a 40-byte identifier becomes `.git/objects/` + its first two
   * bytes + `/` + the other 38. Any other length, or a split inside a character, panics.
   */
  function ConstructBlobPath(hash: Bytes): (r: Result<Bytes, Panic>)
    ensures r.Err? <==> |hash| != 40 || !IsCharBoundary(hash, 2)
    ensures |hash| != 40 ==> r == Err(InvalidHashLength)
    ensures |hash| == 40 && !IsCharBoundary(hash, 2) ==> r == Err(NotCharBoundary)
    ensures r.Ok? ==> |r.value| == |ObjectsRoot| + 2 + 1 + 38
    ensures r.Ok? ==> r.value[..|ObjectsRoot|] == ObjectsRoot
    ensures r.Ok? ==> r.value[|ObjectsRoot|..|ObjectsRoot| + 2] == hash[..2]
    ensures r.Ok? ==> r.value[|ObjectsRoot| + 2] == SLASH
    ensures r.Ok? ==> r.value[|ObjectsRoot| + 3..] == hash[2..]
  {
    if |hash| != 40 then Err(InvalidHashLength)
    else if !IsCharBoundary(hash, 2) then Err(NotCharBoundary)
    else
      var (dir, file) := (hash[..2], hash[2..]);
      Ok(ObjectsRoot + dir + [SLASH] + file)
  }

  /** Two identifiers never share a storage path. */
  lemma BlobPathInjective(h1: Bytes, h2: Bytes)
    requires ConstructBlobPath(h1).Ok? && ConstructBlobPath(h1) == ConstructBlobPath(h2)
    ensures h1 == h2
  {
  }

  /**
   * The header strip of `decompress_blob`: everything after the first NUL of the
   * decompressed text, or an `InvalidData` error when there is no NUL.
   */
  function StripHeader(text: Bytes): (r: Result<Bytes, IoError>)
    ensures r.Ok? <==> NUL in text
    ensures r.Err? ==> r.error == NoNullByte
    ensures r.Ok? ==> |r.value| < |text|
    ensures r.Ok? ==> var k := |text| - |r.value| - 1;
      text == text[..k] + [NUL] + r.value && NUL !in text[..k]
  {
    match FirstIndexOf(text, NUL)
    case Some(nullIndex) =>
      assert text == text[..nullIndex] + [NUL] + text[nullIndex + 1..];
      Ok(text[nullIndex + 1..])
    case None => Err(NoNullByte)
  }

  /**
   * `read_to_string` on a zlib decoder: inflate, then insist on UTF-8 text. A decoder
   * error is reported as it is; only decoded bytes that are not UTF-8 give `NotUtf8`.
   */
  function ReadToString(f: Foreign, compressed: Bytes): (r: Result<Bytes, IoError>)
    ensures r.Ok? <==> f.inflate(compressed).Ok? && f.isUtf8(f.inflate(compressed).value)
    ensures r.Ok? ==> r.value == f.inflate(compressed).value
    ensures f.inflate(compressed).Err? ==> r == f.inflate(compressed)
    ensures r.Err? && f.inflate(compressed).Ok? ==> r.error == NotUtf8
  {
    match f.inflate(compressed)
    case Err(e) => Err(e)
    case Ok(data) => if f.isUtf8(data) then Ok(data) else Err(NotUtf8)
  }

  /**
   * `decompress_blob`: open the file, decode it to text and strip the header.
   * Every failure is returned, none is recovered from.
   */
  function DecompressBlob(fs: FileSystem, blobPath: Bytes, f: Foreign): (r: Result<Bytes, IoError>)
    ensures blobPath !in fs ==> r == Err(FileNotFound)
    ensures blobPath in fs && ReadToString(f, fs[blobPath]).Err? ==> r == ReadToString(f, fs[blobPath])
    ensures blobPath in fs && ReadToString(f, fs[blobPath]).Ok? ==>
      r == StripHeader(ReadToString(f, fs[blobPath]).value)
  {
    if blobPath !in fs then Err(FileNotFound)
    else
      match ReadToString(f, fs[blobPath])
      case Err(e) => Err(e)
      case Ok(decompressedData) => StripHeader(decompressedData)
  }

  /**
   * `read_blob_file` (`cat-file -p`): a malformed identifier panics before the store is
   * consulted, a missing object is reported with its path, otherwise the decompressed
   * content or the decompression error is reported.
   */
  function ReadBlobFile(hash: Bytes, fs: FileSystem, f: Foreign): (r: CatFileOutcome)
    ensures |hash| != 40 ==> r == Panicked(InvalidHashLength)
    ensures ConstructBlobPath(hash).Err? ==> r == Panicked(ConstructBlobPath(hash).error)
    ensures ConstructBlobPath(hash).Ok? && ConstructBlobPath(hash).value in fs ==>
      r.Printed? || r.DecompressFailed?
    ensures ConstructBlobPath(hash).Ok? && ConstructBlobPath(hash).value !in fs ==>
      r == BlobNotFound(ConstructBlobPath(hash).value)
    ensures r.Printed? ==>
      && ConstructBlobPath(hash).Ok?
      && ConstructBlobPath(hash).value in fs
      && DecompressBlob(fs, ConstructBlobPath(hash).value, f) == Ok(r.content)
    ensures r.DecompressFailed? ==>
      && ConstructBlobPath(hash).Ok?
      && DecompressBlob(fs, ConstructBlobPath(hash).value, f) == Err(r.error)
  {
    match ConstructBlobPath(hash)
    case Err(p) => Panicked(p)
    case Ok(blobPath) =>
      if blobPath in fs then
        match DecompressBlob(fs, blobPath, f)
        case Ok(content) => Printed(content)
        case Err(e) => DecompressFailed(e)
      else BlobNotFound(blobPath)
  }

  // --------------------------------------------------------------- write side

  /**
   * `format!("blob {}\0", len)`: the label, the decimal length, and a terminating NUL
   * that is the only NUL in the header.
   */
  function Header(len: nat): (h: Bytes)
    ensures |h| == |BlobLabel| + |Decimal(len)| + 1
    ensures h[..|BlobLabel|] == BlobLabel
    ensures h[|h| - 1] == NUL && NUL !in h[..|h| - 1]
    ensures AllDigits(h[|BlobLabel|..|h| - 1]) && ParseDecimal(h[|BlobLabel|..|h| - 1]) == len
  {
    var digits := Decimal(len);
    assert NUL !in digits by {
      forall i | 0 <= i < |digits| ensures digits[i] != NUL {
        assert IsDigit(digits[i]);
      }
    }
    assert NUL !in BlobLabel;
    assert (BlobLabel + digits + [NUL])[..|BlobLabel| + |digits|] == BlobLabel + digits;
    assert (BlobLabel + digits + [NUL])[|BlobLabel|..|BlobLabel| + |digits|] == digits;
    DecimalRoundTrip(len);
    BlobLabel + digits + [NUL]
  }

  /**
   * The framed object built in `full_content`: the header, then the content, with the
   * header's NUL the first NUL of the frame.
   */
  function Frame(content: Bytes): (r: Bytes)
    ensures |r| == |Header(|content|)| + |content|
    ensures r[|Header(|content|)|..] == content
    ensures FirstIndexOf(r, NUL) == Some(|Header(|content|)| - 1)
  {
    var h := Header(|content|);
    assert h == h[..|h| - 1] + [NUL];
    FirstIndexAfterPrefix(h[..|h| - 1], NUL, content);
    h + content
  }

  /**
   * The frame's layout: the label, the decimal length of the content, a single NUL that
   * is the first one in the frame, then the content itself.
   */
  lemma FrameLayout(content: Bytes)
    ensures var h := |Header(|content|)|;
      && |Frame(content)| == h + |content|
      && Frame(content)[..|BlobLabel|] == BlobLabel
      && AllDigits(Frame(content)[|BlobLabel|..h - 1])
      && ParseDecimal(Frame(content)[|BlobLabel|..h - 1]) == |content|
      && FirstIndexOf(Frame(content), NUL) == Some(h - 1)
      && Frame(content)[h..] == content
  {
    var frame, digits := Frame(content), Decimal(|content|);
    var h := |Header(|content|)|;
    assert frame[|BlobLabel|..h - 1] == digits;
    DecimalRoundTrip(|content|);
    assert NUL !in BlobLabel;
    assert NUL !in digits by {
      forall i | 0 <= i < |digits| ensures digits[i] != NUL {
        assert IsDigit(digits[i]);
      }
    }
    assert frame[..h - 1] == BlobLabel + digits;
    assert frame[h - 1] == NUL;
  }

  /** Stripping the header of a frame gives back exactly the content that was framed. */
  lemma StripFrame(content: Bytes)
    ensures StripHeader(Frame(content)) == Ok(content)
  {
  }

  /**
   * The object identifier: SHA-1 of the frame rendered as 40 lowercase hex digits,
   * always a valid argument for `construct_blob_path`.
   */
  function ObjectId(f: Foreign, content: Bytes): (id: Bytes)
    ensures |id| == 40 && AllLowerHex(id)
    ensures ConstructBlobPath(id).Ok?
  {
    var id := Hex(f.sha1(Frame(content)));
    HexIsAscii(f.sha1(Frame(content)));
    AsciiBoundaries(id, 2);
    id
  }

  /** A growable byte buffer (`Vec<u8>`). */
  class ByteVec {
    var elems: Bytes

    /** `Vec::new()`. */
    constructor ()
      ensures elems == []
    {
      elems := [];
    }

    /** `extend_from_slice`: appends `s`. */
    method ExtendFromSlice(s: Bytes)
      modifies this
      ensures elems == old(elems) + s
    {
      elems := elems + s;
    }
  }

  /**
   * `create_blob_file` (`hash-object -w`), given the bytes `fs::read` returned: builds
   * the frame, names it, compresses it and writes it at the path derived from the name.
   * The path written is the one `construct_blob_path` derives from the returned
   * identifier, so `cat-file -p` looks exactly there.
   */
  method CreateBlobFile(f: Foreign, fs: FileSystem, content: Bytes)
    returns (hashHex: Bytes, objectPath: Bytes, fs': FileSystem)
    ensures hashHex == Hex(f.sha1(Frame(content)))
    ensures |hashHex| == 40 && AllLowerHex(hashHex)
    ensures ConstructBlobPath(hashHex) == Ok(objectPath)
    ensures fs' == fs[objectPath := f.deflate(Frame(content))]
  {
    var header := Header(|content|);
    var fullContent := new ByteVec();
    fullContent.ExtendFromSlice(header);
    fullContent.ExtendFromSlice(content);
    assert fullContent.elems == Frame(content);

    var hash := f.sha1(fullContent.elems);
    hashHex := Hex(hash);

    var compressed := new ByteVec();
    compressed.ExtendFromSlice(f.deflate(fullContent.elems));
    assert compressed.elems == f.deflate(Frame(content));

    var dir, file := hashHex[..2], hashHex[2..];
    var objectDir := ObjectsRoot + dir;
    objectPath := objectDir + [SLASH] + file;

    HexIsAscii(hash);
    AsciiBoundaries(hashHex, 2);
    fs' := fs[objectPath := compressed.elems];
  }

  /**
   * `hash-object -w` run twice on the same content: the same identifier, the same path,
   * and the second write leaves the store as the first one left it.
   */
  method StoreTwice(f: Foreign, fs: FileSystem, content: Bytes)
    returns (id1: Bytes, id2: Bytes, fs1: FileSystem, fs2: FileSystem)
    ensures id1 == id2 == ObjectId(f, content)
    ensures fs2 == fs1 && ConstructBlobPath(id1).value in fs1
  {
    var path1, path2;
    id1, path1, fs1 := CreateBlobFile(f, fs, content);
    id2, path2, fs2 := CreateBlobFile(f, fs1, content);
  }

  // --------------------------------------------------------------- round trip

  /**
   * `cat-file -p` on the identifier `hash-object -w` printed, in the store that write
   * left, prints exactly the stored content, provided zlib round-trips and the frame is
   * UTF-8 text (`read_to_string` rejects anything else).
   */
  lemma StoreThenCatFile(f: Foreign, fs: FileSystem, content: Bytes)
    requires InflateInvertsDeflate(f)
    requires f.isUtf8(Frame(content))
    ensures var id := ObjectId(f, content);
      ReadBlobFile(id, fs[ConstructBlobPath(id).value := f.deflate(Frame(content))], f)
        == Printed(content)
  {
  }

  /**
   * The same store, when the frame is not UTF-8 text (a binary file): `cat-file -p`
   * reports the decoding error instead of printing the content.
   */
  lemma BinaryBlobNotPrinted(f: Foreign, fs: FileSystem, content: Bytes)
    requires InflateInvertsDeflate(f)
    requires !f.isUtf8(Frame(content))
    ensures var id := ObjectId(f, content);
      ReadBlobFile(id, fs[ConstructBlobPath(id).value := f.deflate(Frame(content))], f)
        == DecompressFailed(NotUtf8)
  {
  }

  /**
   * The header's length field is never checked: whatever length a header declares,
   * stripping it yields exactly the bytes that follow it.
   */
  lemma LengthFieldIgnored(declared: nat, content: Bytes)
    ensures StripHeader(Header(declared) + content) == Ok(content)
  {
    var h := Header(declared);
    assert h == h[..|h| - 1] + [NUL];
    FirstIndexAfterPrefix(h[..|h| - 1], NUL, content);
  }
}
