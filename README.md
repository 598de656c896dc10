# targen in Dafny

A model of `targen`, which turns a file or directory tree into the stream of
512-byte blocks of a ustar tar archive, with proofs of what that stream holds.

- `tar_header(f, prefix)` builds one 512-byte ustar header. It rejects entries
  that are neither a directory nor a regular non-symlink file, names over 99
  bytes and prefixes over 154 bytes. It lays out name, mode, uid, gid, size,
  mtime, typeflag, magic, version and prefix. It then writes the checksum over
  bytes 148..156. `Header.TarHeader` does this as the source does: it grows a
  byte buffer append by append, checks the length, sums the bytes in a loop and
  overwrites the checksum field. It is proved equal to the pure
  `Header.HeaderFor`, which the layout, checksum and read-back lemmas are
  about.
- `targen(f, base)` derives the prefix from the entry's path `f` and the base,
  yields the header, then yields either each child's whole stream (directory)
  or the file's 512-byte reads with a zero-padded final read (file).
  `Archive.Targen` is the recursive stream function. It takes the entry and
  its full path, and each child `e` of `iterdir()` gets the path `f / e.name`.
  The root may have the empty path, as `Path('.')` does. `Archive.Generate`,
  `Archive.GenerateChildren` and `Archive.ReadFileBlocks` are the generator and
  its read loop as methods proved equal to it.

The filesystem is an `Entry` tree (`FileTree.dfy`):
- `Dir(name, mtime, children)`: a directory, children in `iterdir()` order.
- `File(name, mtime, content)`: a regular file and its bytes.
- `Other(name)`: anything `tar_header` rejects, such as a symlink to a file or
  a device.

`is_dir()` follows symlinks, so a symlink to a directory is a `Dir`.

Paths are sequences of already-encoded name components (`Paths.dfy`).
`Paths.Child` joins a name on as `pathlib` does, so `Path('.')` is the empty
path and `Path('.') / 'a'` is `a`. The header takes the entry's name, so a call
`targen(f, base)` is modelled by an entry and path related by
`Archive.NamedBy`: the name is the path's last component, or empty for
`Path('.')`.

An error is a value: a `Stream` is the blocks yielded so far plus the error
that ended it, if any.

The module files are:
- `Bytes.dfy`: bytes, byte sums, zero-padded octal (`format(n, '0<w>o')`).
- `Errors.dfy`: the errors raised.
- `Header.dfy`: `tar_header`, and a ustar reader that parses a header back
  (`ReadHeaderRoundTrip`).
- `Paths.dfy`: `parent`, `relative_to`, `str()` and the prefix.
- `Archive.dfy`: `targen`.
- `FileTree.dfy`, `Wrappers.dfy`: entries, `Option` and `Result`.

The checksum terminator follows the code, which writes six octal digits, then
a space, then a NUL. That is the reverse of the usual order: GNU tar,
libarchive and Python's `tarfile` write six digits, a NUL, then a space.
Readers accept both, because a numeric field may end in a space or a NUL.

## Model

| member | source | states |
|---|---|---|
| Header.TarHeader | targen.py:4-52 | The append-by-append construction, length check, summing loop and checksum overwrite return exactly `HeaderFor`: the same header, or the same error |
| Header.HeaderAccepts | targen.py:6-22 | A non-directory, non-regular entry gives NotRegularFileOrDirectory. A name over 99 bytes gives NameTooLong; a prefix over 154 bytes gives PrefixTooLong. Size or mtime at or over 8^11 gives HeaderNot512Bytes. A header is returned iff none of these holds (so exactly 99 and 154 are accepted), and then it has 512 bytes |
| Header.UnsummedLength | targen.py:24-49 | The assembled block has 512 bytes iff size and mtime are below 8^11, so the length assertion fires exactly outside that range |
| Header.UnsummedLayout | targen.py:24-47 | Before the checksum, every ustar field is at its offset, and the checksum field holds eight spaces |
| Header.BlocksAt | targen.py:24-47 | The name/mode/ids, size/mtime, checksum/typeflag/linkname, magic..devminor and prefix/padding groups have widths 124, 24, 109, 88 and 167 and sit at offsets 0, 124, 148, 257 and 345 |
| Header.HeaderLayout | targen.py:24-51 | Every returned header has the ustar fields. Bytes 0..100: the name then NULs. 100..108: mode "000755 \0" or "000644 \0". 108..124: two "000777 \0". 124..136: size (eleven '0' for a directory, 11-digit octal for a file) and a space. 136..148: 11-digit octal mtime and a space. 156: '5' or '0'. 157..257: zero. 257..265: "ustar\0" and "00". 265..345: zero. 345..500: the prefix then NULs. 500..512: zero. Writing the checksum leaves every byte outside 148..156 as assembled |
| Header.HeaderChecksum | targen.py:36-51 | Bytes 148..154 are octal digits whose value is the byte sum of the header read with bytes 148..156 as eight spaces. Byte 154 is a space and byte 155 a NUL. That sum is below 8^6 |
| Header.ChecksumFits | targen.py:51 | The byte sum of any 512-byte block is below 8^6 (at most 512·255), so its six-digit octal field is exactly 8 bytes with the terminator |
| Header.ChecksummedSum | targen.py:51 | Writing the checksum into a block whose checksum field is blank gives six octal digits, space, NUL. The digits read back as the sum of the block with that field blanked |
| Header.ReadHeaderRoundTrip | targen.py:4-52 | A ustar reader accepts every header `tar_header` returns: magic, checksum, octal fields and typeflag all check. It reads back the name, prefix, kind, size and mtime (names and prefixes without NUL) |
| Bytes.OctalWidth | targen.py:33-35 | `format(n, '0<w>o')` is never shorter than w, and exactly w long iff n < 8^w |
| Bytes.OctalRoundTrip | targen.py:33-35 | The zero-padded octal text consists of octal digits and reads back as n |
| Bytes.OctalDigitsFit | targen.py:33-35 | The shortest octal numeral of n has at most w digits iff n < 8^w |
| Bytes.SumBound | targen.py:51 | A byte sum is at most 255 per byte |
| Bytes.SumAppend | targen.py:51 | The byte sum of a concatenation is the sum of the sums |
| Paths.RelativeTo | targen.py:62 | A successful `relative_to` gives the components that follow the base |
| Paths.PrefixCases | targen.py:59-62 | Prefix is empty when the base is the parent. It is "." when the entry is the base and is not `Path('.')`. It is the parent's path below the base, joined by '/', when the base is a further ancestor. Otherwise `relative_to` fails. The prefix exists iff the base is the parent or leads the path |
| Paths.DotRootPrefixes | targen.py:59-68 | For the tree under `Path('.')` archived with base '.', the root (empty path) and its children get the empty prefix, and each grandchild gets its parent directory's name. With that base, a root's child gets the empty prefix iff the root is `Path('.')` |
| Paths.PrefixRecomposes | targen.py:59-62 | For an entry below the base, prefix + '/' + name (or the name alone when the prefix is empty) is the entry's path relative to the base |
| Archive.ReadFileBlocks | targen.py:70-77 | The read loop yields exactly `DataBlocks(content)`: each full 512-byte read, then the short read padded with `0 if not len else 512 - len % 512` zeros |
| Archive.DataBlocksShape | targen.py:70-77 | A file of N bytes gives floor(N/512)+1 data yields. All but the last have 512 bytes. The last has 512 bytes when N mod 512 ≠ 0 and 0 bytes when N mod 512 = 0, N = 0 included |
| Archive.DataBlocksContent | targen.py:72-75 | The data yields concatenate to the content followed by (512 − N mod 512) mod 512 zero bytes, ceil(N/512)·512 bytes in all |
| Archive.DataBlockSizes | targen.py:70-77 | Every data yield is a full 512-byte block or the empty final read |
| Archive.Generate | targen.py:55-77 | The generator, called with an entry and its path (which may be empty, as for `Path('.')`), produces exactly `Targen`: prefix, header, then each child at `f / name`, or the file reads |
| Archive.GenerateChildren | targen.py:66-68 | The loop over `iterdir()` produces exactly `Children`: each child's whole stream in turn, stopping at the first error |
| Archive.TargenUnfoldDir | targen.py:64-68 | Unfolding of `Targen` used by `Generate`: a directory whose header is built yields that header and then its children's streams |
| Archive.TargenUnfoldFile | targen.py:64-77 | Unfolding of `Targen` used by `Generate`: a file whose header is built yields that header and then its data blocks, without error |
| Archive.TargenIsPreorder | targen.py:55-77 | The recursive stream equals emitting the entries one by one in depth-first pre-order (children in `iterdir()` order), stopping at the first error |
| Archive.TargenSucceeds | targen.py:55-77 | The stream ends without error iff every entry of the tree, in pre-order, has a valid prefix and header |
| Archive.TargenStopsAtFirstError | targen.py:64-77 | When the k-th entry in pre-order is the first to fail, the stream is the complete blocks of the k entries before it, then that entry's error |
| Archive.TargenLength | targen.py:55-77 | A stream without error has 512 × (number of entries) + Σ ceil(size/512)·512 bytes |
| Archive.EmitBlockSizes | targen.py:64-77 | An entry's own blocks start with its 512-byte header, and every block but the last has 512 bytes. The last is empty exactly for a file whose size is a multiple of 512 (its final read); otherwise it has 512 bytes too |
| Archive.TargenBlockSizes | targen.py:55-77 | Every block yielded has 512 bytes or is empty (where an empty block can sit within one entry's blocks is stated by `EmitBlockSizes`) |
| Archive.HeaderRecordsPath | targen.py:55-64 | For an entry strictly below the base whose name is its path's last component, a ustar reader parses the first block yielded, and its prefix and name fields rebuild the entry's path relative to the base (names and prefixes without NUL) |
| Archive.TargenStartsWithHeader | targen.py:59-64 | An entry whose prefix or header fails yields nothing and ends with that error. Otherwise the first block yielded is its header |
| Archive.RunStops | targen.py:64-68 | Emitting outputs in order stops at the first error, keeping the blocks before it |
| Archive.RunSucceeds | targen.py:64-68 | Emitting outputs in order ends without error iff every output succeeded |

## Left out

- Filesystem access (`is_dir`, `is_file`, `is_symlink`, `stat`, `iterdir`, `open`, `read`) is replaced by the `Entry` tree. A file's `read(512)` calls are slices of its `content`.
- `int(st_mtime)` truncating a float time, and negative times: mtime is already a `nat`.
- `st_size` is the length of the modelled content; the file cannot change between `stat` and the reads.
- Generator laziness, suspension and closing the file handle (the `with` block): a stream is a finite sequence of the blocks yielded.
- UTF-8 encoding of names and prefixes, and the OS path separator in `str(prefix)`: components are already-encoded bytes joined by '/'.
- Absolute versus relative path anchors: a path is a plain sequence of components.
- The Python `assert` at line 49 becomes an error value (HeaderNot512Bytes); running Python with `-O` would skip it, and that mode is not modelled.
- End-of-archive zero blocks, blocking factor, archive size estimation and a validation pass: the code has none of these.
- `setup.py` is packaging metadata, with no logic; it is not part of this model.
