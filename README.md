# A content-addressed blob store, modelled in Dafny

This project models the object database in `src/main.rs`. It is a minimal git with two store commands:

- `hash-object -w <file>` reads the file's bytes. It builds the framed object `"blob " ++ decimal(length) ++ NUL ++ content` in a growing `Vec<u8>`. It names the frame by the SHA-1 digest rendered as 40 lowercase hex digits. It compresses the frame with zlib and writes it to `.git/objects/<first 2 hex digits>/<other 38>`.
- `cat-file -p <id>` derives the same path from the identifier and checks that the file exists. It inflates the file into a `String` and prints everything after the first NUL.

The model has three modules:

- `Bytes` (`bytes.dfy`): the byte type, `Option`/`Result`, `io::Error` kinds, and the pieces of Rust's `str` semantics the code relies on: `find` for one byte and `is_char_boundary`. Identifiers and paths are byte strings, because `hash.len()` and `split_at` count bytes.
- `Format` (`format.dfy`): the two `format!` renderings. One is decimal for the length field and the other is lowercase hex for the digest. Each comes with a parser and a round-trip lemma.
- `Objects` (`objects.dfy`): `construct_blob_path`, `decompress_blob`, `read_blob_file` and `create_blob_file`.

The read side is pure logic, so it is modelled as functions. `create_blob_file` fills two buffers step by step, so it is a method. Those buffers are a `ByteVec` class: `Vec::new` and `extend_from_slice`.

Foreign code is passed in as the `Foreign` record of function values:

- SHA-1 from the `sha1` crate;
- zlib's encoder and decoder from `flate2`;
- the UTF-8 test that `read_to_string` applies.

The only thing assumed of them is `InflateInvertsDeflate`, and only as a precondition of the two lemmas about reading back a stored object (`StoreThenCatFile` and `BinaryBlobNotPrinted`). The `.git/objects` tree is a map from path to file bytes, and a path exists when it is a key.

Behaviours of the code that the model keeps as written:

- A malformed identifier makes `construct_blob_path` panic rather than return an error. This happens when the length is not 40 bytes. It also happens when byte 2 falls inside a multi-byte character, which makes `split_at(2)` panic.
- `cat-file -p` prints a blob only when its frame is valid UTF-8, because `read_to_string` rejects anything else. For binary content the store-then-read round trip does not hold (`BinaryBlobNotPrinted`).
- The length field is written but never checked on reading (`LengthFieldIgnored`).
- There is no tree object, `ls-tree` command or tree-entry parser in the code, so none is modelled.

## Model

| member | source | states |
|---|---|---|
| `Bytes.FirstIndexOf` | src/main.rs:27 | `find('\0')`: no result exactly when the byte is absent; otherwise the index holds the byte and no earlier index does |
| `Format.Decimal` | src/main.rs:54 | the length field is all decimal digits; it is a single digit exactly when the length is below 10, and a longer field never starts with `0`, so 0 is written as the single digit `0` |
| `Format.DecimalRoundTrip` | src/main.rs:54 | reading the decimal length field back gives the content length that was written |
| `Format.Hex` | src/main.rs:60 | `{:x}` of a digest has two characters per byte, all lowercase hex digits |
| `Format.HexRoundTrip` | src/main.rs:60 | parsing the hex identifier gives back the digest, so the rendering loses nothing |
| `Format.HexInjective` | src/main.rs:59-60 | two different digests never render to the same identifier |
| `Objects.ConstructBlobPath` | src/main.rs:12-17 | panics exactly when the identifier is not 40 bytes long (the `assert!`, reason `InvalidHashLength`) or byte 2 of a 40-byte identifier is inside a character (`split_at`, reason `NotCharBoundary`); otherwise the path is `.git/objects/`, the 2-byte directory, `/`, and the 38-byte file name |
| `Objects.BlobPathInjective` | src/main.rs:15-16 | two identifiers that both give a path give the same path only if they are equal |
| `Objects.StripHeader` | src/main.rs:27-35 | succeeds exactly when the text has a NUL; the text is then a NUL-free header, the NUL and the result, so the result has length total - nullIndex - 1 and is empty when the NUL is last; otherwise the `InvalidData` "no null byte" error |
| `Objects.ReadToString` | src/main.rs:22-25 | succeeds exactly when the decoder succeeds and its output is UTF-8, and then returns that output; a decoder error is passed on unchanged and takes precedence; decoded bytes that are not UTF-8 give the `InvalidData` UTF-8 error |
| `Objects.DecompressBlob` | src/main.rs:19-36 | a missing file gives `NotFound`; a decoder or UTF-8 failure is passed on unchanged; otherwise it returns the header strip of the decoded text |
| `Objects.ReadBlobFile` | src/main.rs:38-49 | a malformed identifier panics, with the reason `construct_blob_path` gives, whatever the store holds; a well-formed but absent object is reported with its path; a present object is always either printed or reported as a decompression error, and both come from `decompress_blob` on the file at the derived path |
| `Objects.Header` | src/main.rs:54 | the header is `blob `, then a field of decimal digits that reads back as the given length, then a NUL; that terminating NUL is the header's only NUL |
| `Objects.Frame` | src/main.rs:54-57 | the frame is the header followed by exactly the content, and its first NUL is the header's last byte |
| `Objects.FrameLayout` | src/main.rs:54-57 | the frame has length header + content and starts with `blob `. Its length field parses to the content length, its first NUL ends the header, and the content follows that NUL |
| `Objects.StripFrame` | src/main.rs:27-29 | stripping the header of a frame built by the write side returns exactly the original content |
| `Objects.ObjectId` | src/main.rs:59-60 | the identifier is 40 lowercase hex digits and is always accepted by `construct_blob_path` |
| `Objects.ByteVec.constructor` | src/main.rs:55 | `Vec::new()` starts empty |
| `Objects.ByteVec.ExtendFromSlice` | src/main.rs:56-57 | `extend_from_slice` appends the slice and changes nothing else |
| `Objects.CreateBlobFile` | src/main.rs:51-76 | the identifier is the hex SHA-1 of the frame, and the path written is the one `construct_blob_path` derives from it. The store gains exactly that file, holding the compressed frame |
| `Objects.StoreTwice` | src/main.rs:67-72 | storing the same content twice gives the same identifier, and the second write leaves the store unchanged with the object present |
| `Objects.StoreThenCatFile` | src/main.rs:41-43 | if zlib round-trips and the frame is UTF-8, `cat-file -p` on the identifier prints exactly the stored content |
| `Objects.BinaryBlobNotPrinted` | src/main.rs:25 | if the frame is not UTF-8, the same read reports the `InvalidData` decoding error instead of the content |
| `Objects.LengthFieldIgnored` | src/main.rs:27-29 | for every declared length and every content, stripping a header followed by that content yields exactly the content, because the length is never checked |

## Left out

- Command dispatch and argument checking in `main` (src/main.rs:78-103): command-line glue.
- `init` (src/main.rs:87-92): it creates directories and `HEAD`, and it ignores the errors from creating them. This is filesystem I/O.
- `fs::read` of the input file (src/main.rs:52): `CreateBlobFile` takes the bytes it returned, so the read error is not modelled.
- I/O failures of `fs::create_dir_all`, `fs::write` and `File::open` (src/main.rs:20, 71-72), beyond a missing file. The file store is a map, and directories are implicit in paths.
- SHA-1, zlib compression and decompression, and UTF-8 validation: these are foreign code. They are parameters of the model, and the only property assumed is that inflate undoes deflate.
- The `String` that `read_to_string` fills in `decompress_blob` (src/main.rs:23-25) is modelled as the value it ends up holding, because the filling happens inside foreign code.
- Errors from the zlib encoder writing into a `Vec` (src/main.rs:64-65): an in-memory writer does not fail, so `deflate` is total.
- Console output (src/main.rs:43-47, 74, 95-96): `ReadBlobFile` returns which output would be produced. The message texts on stderr are not modelled.
