/**
 * `tar_header`: one 512-byte ustar header block for an entry and its prefix.
 */
module Header {
  import opened Bytes
  import opened Wrappers
  import opened Errors
  import opened FileTree

  const NameLimit := 99
  const PrefixLimit := 154

  /** Typeflag '5': directory. */
  const DirType: byte := 53
  /** Typeflag '0': regular file. */
  const FileType: byte := 48

  /** "000755 \0" for a directory, "000644 \0" for a regular file. */
  function ModeField(e: Entry): seq<byte>
  {
    if e.Dir? then [48, 48, 48, 55, 53, 53, 32, 0] else [48, 48, 48, 54, 52, 52, 32, 0]
  }

  /** Owner id and group id, both "000777 \0". */
  function IdField(): seq<byte>
  {
    [48, 48, 48, 55, 55, 55, 32, 0]
  }

  /** Eleven '0' and a space for a directory; the size in octal and a space for a file. */
  function SizeField(e: Entry): seq<byte>
    requires !e.Other?
  {
    if e.Dir? then Repeat(ZERO, 11) + [SPACE] else Octal(Size(e), 11) + [SPACE]
  }

  function TypeFlag(e: Entry): byte
  {
    if e.Dir? then DirType else FileType
  }

  /** "ustar\0" */
  function Magic(): seq<byte>
  {
    [117, 115, 116, 97, 114, 0]
  }

  /** "00" */
  function Version(): seq<byte>
  {
    [48, 48]
  }

  /** Bytes 0..124: name, mode, uid and gid. */
  function OwnerBlock(e: Entry): seq<byte>
    requires |e.name| <= NameLimit
  {
    e.name + Zeros(100 - |e.name|) + ModeField(e) + IdField() + IdField()
  }

  /** Bytes 124..148: size and mtime, each as octal digits and a space. */
  function NumberBlock(e: Entry): seq<byte>
    requires !e.Other?
  {
    SizeField(e) + Octal(e.mtime, 11) + [SPACE]
  }

  /** Bytes 148..257: the checksum left blank as eight spaces, the typeflag, the empty link name. */
  function TypeBlock(e: Entry): seq<byte>
  {
    Repeat(SPACE, 8) + [TypeFlag(e)] + Zeros(100)
  }

  /** Bytes 257..345: magic, version, and the empty uname, gname, devmajor and devminor. */
  function UstarBlock(): seq<byte>
  {
    Magic() + Version() + Zeros(32) + Zeros(32) + Zeros(8) + Zeros(8)
  }

  /** Bytes 345..512: the prefix and the padding up to 512. */
  function PrefixBlock(prefix: seq<byte>): seq<byte>
    requires |prefix| <= PrefixLimit
  {
    prefix + Zeros(155 - |prefix|) + Zeros(12)
  }

  /** The header as assembled before the checksum is known: its checksum field is eight spaces. */
  function Unsummed(e: Entry, prefix: seq<byte>): seq<byte>
    requires !e.Other? && |e.name| <= NameLimit && |prefix| <= PrefixLimit
  {
    OwnerBlock(e) + NumberBlock(e) + TypeBlock(e) + UstarBlock() + PrefixBlock(prefix)
  }

  /** The checksum field written over bytes 148..156: six octal digits, a space, a NUL. */
  function ChecksumField(u: seq<byte>): seq<byte>
  {
    Octal(Sum(u), 6) + [SPACE, NUL]
  }

  /** Python's `h[148:156] = ...`: the assembled block with its checksum written over the blank field. */
  function Checksummed(u: seq<byte>): seq<byte>
    requires |u| == 512
  {
    u[..148] + ChecksumField(u) + u[156..]
  }

  /** Size and mtime each fit the eleven octal digits their fields hold. */
  predicate InRange(e: Entry)
    requires !e.Other?
  {
    Size(e) < Pow8(11) && e.mtime < Pow8(11)
  }

  /**
   * The block `tar_header` returns, or the error it raises. The length
   * assertion fails exactly when size or mtime needs more than 11 octal digits
   * (see UnsummedLength).
   */
  function HeaderFor(e: Entry, prefix: seq<byte>): Result<seq<byte>, Error>
  {
    if e.Other? then Err(NotRegularFileOrDirectory)
    else if |e.name| > NameLimit then Err(NameTooLong)
    else if |prefix| > PrefixLimit then Err(PrefixTooLong)
    else if !InRange(e) then Err(HeaderNot512Bytes)
    else
      UnsummedLength(e, prefix);
      Ok(Checksummed(Unsummed(e, prefix)))
  }

  /**
   * The fields every header carries besides its checksum, as in the ustar
   * layout: name, mode, uid, gid, size, mtime, typeflag, linkname, magic,
   * version, uname, gname, devmajor, devminor, prefix and padding.
   */
  ghost predicate HasFields(h: seq<byte>, e: Entry, prefix: seq<byte>)
    requires !e.Other? && |e.name| <= NameLimit && |prefix| <= PrefixLimit
  {
    |h| == 512
    && h[0..100] == e.name + Zeros(100 - |e.name|)
    && h[100..108] == ModeField(e)
    && h[108..116] == IdField()
    && h[116..124] == IdField()
    && h[124..136] == SizeField(e)
    && h[136..148] == Octal(e.mtime, 11) + [SPACE]
    && h[156] == TypeFlag(e)
    && h[157..257] == Zeros(100)
    && h[257..263] == Magic()
    && h[263..265] == Version()
    && h[265..297] == Zeros(32)
    && h[297..329] == Zeros(32)
    && h[329..337] == Zeros(8)
    && h[337..345] == Zeros(8)
    && h[345..500] == prefix + Zeros(155 - |prefix|)
    && h[500..512] == Zeros(12)
  }

  /** The assembled block has 512 bytes exactly when size and mtime fit in 11 octal digits. */
  lemma UnsummedLength(e: Entry, prefix: seq<byte>)
    requires !e.Other? && |e.name| <= NameLimit && |prefix| <= PrefixLimit
    ensures |Unsummed(e, prefix)| == 512 <==> InRange(e)
  {
    OctalWidth(Size(e), 11);
    OctalWidth(e.mtime, 11);
  }

  // Where the pieces of an appended byte string sit.

  lemma SubSlice(s: seq<byte>, o: nat, x: seq<byte>, i: nat, j: nat)
    requires o + |x| <= |s| && s[o..o + |x|] == x && i <= j <= |x|
    ensures s[o + i..o + j] == x[i..j]
  {
    forall k | 0 <= k < j - i
      ensures s[o + i..o + j][k] == x[i..j][k]
    {
      assert s[o + i + k] == s[o..o + |x|][i + k];
    }
  }

  lemma SliceAgrees(h: seq<byte>, u: seq<byte>, a: nat, b: nat)
    requires a <= b <= |h| && b <= |u|
    requires forall i | a <= i < b :: h[i] == u[i]
    ensures h[a..b] == u[a..b]
  {
  }

  lemma Pieces3(a: seq<byte>, b: seq<byte>, c: seq<byte>)
    ensures var s := a + b + c;
      s[0..|a|] == a && s[|a|..|a| + |b|] == b && s[|a| + |b|..|s|] == c
  {
  }

  lemma Pieces4(a: seq<byte>, b: seq<byte>, c: seq<byte>, d: seq<byte>)
    ensures var s := a + b + c + d;
      var i, j := |a| + |b|, |a| + |b| + |c|;
      s[0..|a|] == a && s[|a|..i] == b && s[i..j] == c && s[j..|s|] == d
  {
    Pieces3(a, b, c);
  }

  lemma Pieces5(a: seq<byte>, b: seq<byte>, c: seq<byte>, d: seq<byte>, f: seq<byte>)
    ensures var s := a + b + c + d + f;
      var i, j, k := |a| + |b|, |a| + |b| + |c|, |a| + |b| + |c| + |d|;
      s[0..|a|] == a && s[|a|..i] == b && s[i..j] == c && s[j..k] == d && s[k..|s|] == f
  {
    Pieces4(a, b, c, d);
  }

  lemma Pieces6(a: seq<byte>, b: seq<byte>, c: seq<byte>, d: seq<byte>, f: seq<byte>, g: seq<byte>)
    ensures var s := a + b + c + d + f + g;
      var i, j, k, l := |a| + |b|, |a| + |b| + |c|, |a| + |b| + |c| + |d|, |a| + |b| + |c| + |d| + |f|;
      s[0..|a|] == a && s[|a|..i] == b && s[i..j] == c && s[j..k] == d && s[k..l] == f && s[l..|s|] == g
  {
    Pieces5(a, b, c, d, f);
  }

  /** With size and mtime in range the five blocks have their fixed widths and sit at their offsets. */
  lemma BlocksAt(e: Entry, prefix: seq<byte>)
    requires !e.Other? && |e.name| <= NameLimit && |prefix| <= PrefixLimit && InRange(e)
    ensures var u := Unsummed(e, prefix);
      |u| == 512
      && |OwnerBlock(e)| == 124 && u[0..124] == OwnerBlock(e)
      && |NumberBlock(e)| == 24 && u[124..148] == NumberBlock(e)
      && |TypeBlock(e)| == 109 && u[148..257] == TypeBlock(e)
      && |UstarBlock()| == 88 && u[257..345] == UstarBlock()
      && |PrefixBlock(prefix)| == 167 && u[345..512] == PrefixBlock(prefix)
  {
    OctalWidth(Size(e), 11);
    OctalWidth(e.mtime, 11);
    Pieces5(OwnerBlock(e), NumberBlock(e), TypeBlock(e), UstarBlock(), PrefixBlock(prefix));
  }

  lemma OwnerFieldsAt(e: Entry, prefix: seq<byte>)
    requires !e.Other? && |e.name| <= NameLimit && |prefix| <= PrefixLimit && InRange(e)
    ensures var u := Unsummed(e, prefix);
      u[0..100] == e.name + Zeros(100 - |e.name|)
      && u[100..108] == ModeField(e)
      && u[108..116] == IdField()
      && u[116..124] == IdField()
  {
    var u := Unsummed(e, prefix);
    var x := OwnerBlock(e);
    BlocksAt(e, prefix);
    Pieces4(e.name + Zeros(100 - |e.name|), ModeField(e), IdField(), IdField());
    SubSlice(u, 0, x, 0, 100);
    SubSlice(u, 0, x, 100, 108);
    SubSlice(u, 0, x, 108, 116);
    SubSlice(u, 0, x, 116, 124);
  }

  lemma NumberFieldsAt(e: Entry, prefix: seq<byte>)
    requires !e.Other? && |e.name| <= NameLimit && |prefix| <= PrefixLimit && InRange(e)
    ensures var u := Unsummed(e, prefix);
      u[124..136] == SizeField(e)
      && u[136..148] == Octal(e.mtime, 11) + [SPACE]
  {
    var u := Unsummed(e, prefix);
    var x := NumberBlock(e);
    BlocksAt(e, prefix);
    OctalWidth(Size(e), 11);
    OctalWidth(e.mtime, 11);
    Pieces3(SizeField(e), Octal(e.mtime, 11), [SPACE]);
    assert x[0..12] == SizeField(e);
    assert x[12..24] == Octal(e.mtime, 11) + [SPACE];
    SubSlice(u, 124, x, 0, 12);
    SubSlice(u, 124, x, 12, 24);
  }

  lemma TypeFieldsAt(e: Entry, prefix: seq<byte>)
    requires !e.Other? && |e.name| <= NameLimit && |prefix| <= PrefixLimit && InRange(e)
    ensures var u := Unsummed(e, prefix);
      u[148..156] == Repeat(SPACE, 8)
      && u[156] == TypeFlag(e)
      && u[157..257] == Zeros(100)
  {
    var u := Unsummed(e, prefix);
    var x := TypeBlock(e);
    BlocksAt(e, prefix);
    Pieces3(Repeat(SPACE, 8), [TypeFlag(e)], Zeros(100));
    SubSlice(u, 148, x, 0, 8);
    SubSlice(u, 148, x, 8, 9);
    SubSlice(u, 148, x, 9, 109);
    assert u[156] == u[156..157][0];
  }

  lemma UstarFieldsAt(e: Entry, prefix: seq<byte>)
    requires !e.Other? && |e.name| <= NameLimit && |prefix| <= PrefixLimit && InRange(e)
    ensures var u := Unsummed(e, prefix);
      u[257..263] == Magic()
      && u[263..265] == Version()
      && u[265..297] == Zeros(32)
      && u[297..329] == Zeros(32)
      && u[329..337] == Zeros(8)
      && u[337..345] == Zeros(8)
  {
    var u := Unsummed(e, prefix);
    var x := UstarBlock();
    BlocksAt(e, prefix);
    Pieces6(Magic(), Version(), Zeros(32), Zeros(32), Zeros(8), Zeros(8));
    SubSlice(u, 257, x, 0, 6);
    SubSlice(u, 257, x, 6, 8);
    SubSlice(u, 257, x, 8, 40);
    SubSlice(u, 257, x, 40, 72);
    SubSlice(u, 257, x, 72, 80);
    SubSlice(u, 257, x, 80, 88);
  }

  lemma PrefixFieldsAt(e: Entry, prefix: seq<byte>)
    requires !e.Other? && |e.name| <= NameLimit && |prefix| <= PrefixLimit && InRange(e)
    ensures var u := Unsummed(e, prefix);
      u[345..500] == prefix + Zeros(155 - |prefix|)
      && u[500..512] == Zeros(12)
  {
    var u := Unsummed(e, prefix);
    var x := PrefixBlock(prefix);
    BlocksAt(e, prefix);
    Pieces3(prefix, Zeros(155 - |prefix|), Zeros(12));
    assert x[0..155] == prefix + Zeros(155 - |prefix|);
    SubSlice(u, 345, x, 0, 155);
    SubSlice(u, 345, x, 155, 167);
  }

  lemma UnsummedLayout(e: Entry, prefix: seq<byte>)
    requires !e.Other? && |e.name| <= NameLimit && |prefix| <= PrefixLimit && InRange(e)
    ensures HasFields(Unsummed(e, prefix), e, prefix)
    ensures Unsummed(e, prefix)[148..156] == Repeat(SPACE, 8)
  {
    BlocksAt(e, prefix);
    OwnerFieldsAt(e, prefix);
    NumberFieldsAt(e, prefix);
    TypeFieldsAt(e, prefix);
    UstarFieldsAt(e, prefix);
    PrefixFieldsAt(e, prefix);
  }

  /** Writing the checksum field changes bytes 148..156 and nothing else. */
  lemma ChecksummedKeeps(u: seq<byte>)
    requires |u| == 512
    ensures var h := Checksummed(u);
      |h| == 512 && h[..148] == u[..148] && h[148..156] == ChecksumField(u) && h[156..] == u[156..]
  {
    ChecksumFits(u);
    Pieces3(u[..148], ChecksumField(u), u[156..]);
  }

  /** Two blocks that agree outside the checksum field carry the same other fields. */
  lemma SameFields(h: seq<byte>, u: seq<byte>, e: Entry, prefix: seq<byte>)
    requires !e.Other? && |e.name| <= NameLimit && |prefix| <= PrefixLimit
    requires HasFields(u, e, prefix) && |h| == 512
    requires h[..148] == u[..148] && h[156..] == u[156..]
    ensures HasFields(h, e, prefix)
  {
    assert forall i | 0 <= i < 148 :: h[i] == u[..148][i];
    assert forall i | 156 <= i < 512 :: h[i] == u[156..][i - 156];
    SliceAgrees(h, u, 0, 100);
    SliceAgrees(h, u, 100, 108);
    SliceAgrees(h, u, 108, 116);
    SliceAgrees(h, u, 116, 124);
    SliceAgrees(h, u, 124, 136);
    SliceAgrees(h, u, 136, 148);
    SliceAgrees(h, u, 157, 257);
    SliceAgrees(h, u, 257, 263);
    SliceAgrees(h, u, 263, 265);
    SliceAgrees(h, u, 265, 297);
    SliceAgrees(h, u, 297, 329);
    SliceAgrees(h, u, 329, 337);
    SliceAgrees(h, u, 337, 345);
    SliceAgrees(h, u, 345, 500);
    SliceAgrees(h, u, 500, 512);
  }

  /** Which entries `tar_header` accepts, which error it raises otherwise, and that accepted headers have 512 bytes. */
  lemma HeaderAccepts(e: Entry, prefix: seq<byte>)
    ensures e.Other? ==> HeaderFor(e, prefix) == Err(NotRegularFileOrDirectory)
    ensures !e.Other? && |e.name| > NameLimit ==> HeaderFor(e, prefix) == Err(NameTooLong)
    ensures !e.Other? && |e.name| <= NameLimit && |prefix| > PrefixLimit ==> HeaderFor(e, prefix) == Err(PrefixTooLong)
    ensures !e.Other? && |e.name| <= NameLimit && |prefix| <= PrefixLimit && !InRange(e) ==>
      HeaderFor(e, prefix) == Err(HeaderNot512Bytes)
    ensures HeaderFor(e, prefix).Ok? <==>
      !e.Other? && |e.name| <= NameLimit && |prefix| <= PrefixLimit && InRange(e)
    ensures HeaderFor(e, prefix).Ok? ==> |HeaderFor(e, prefix).value| == 512
  {
    if HeaderFor(e, prefix).Ok? {
      UnsummedLength(e, prefix);
      ChecksummedKeeps(Unsummed(e, prefix));
    }
  }

  /** The checksum of a 512-byte block always fits the six octal digits it is written with. */
  lemma ChecksumFits(u: seq<byte>)
    requires |u| == 512
    ensures Sum(u) < Pow8(6)
    ensures |ChecksumField(u)| == 8
  {
    SumBound(u);
    assert Pow8(6) == 262144;
    OctalWidth(Sum(u), 6);
  }

  /**
   * Every accepted header has the fixed ustar fields, and filling in the
   * checksum changes no byte outside 148..156.
   */
  lemma HeaderLayout(e: Entry, prefix: seq<byte>)
    requires HeaderFor(e, prefix).Ok?
    ensures !e.Other? && |e.name| <= NameLimit && |prefix| <= PrefixLimit && InRange(e)
    ensures var h := HeaderFor(e, prefix).value;
      var u := Unsummed(e, prefix);
      HasFields(h, e, prefix) && h[..148] == u[..148] && h[156..] == u[156..]
  {
    var u := Unsummed(e, prefix);
    UnsummedLength(e, prefix);
    UnsummedLayout(e, prefix);
    ChecksummedKeeps(u);
    SameFields(Checksummed(u), u, e, prefix);
  }

  /**
   * The checksum field holds, as six octal digits followed by a space and a
   * NUL, the byte sum of the whole block taken with that field read as
   * eight spaces.
   */
  lemma HeaderChecksum(e: Entry, prefix: seq<byte>)
    requires HeaderFor(e, prefix).Ok?
    ensures var h := HeaderFor(e, prefix).value;
      var blanked := h[..148] + Repeat(SPACE, 8) + h[156..];
      |h| == 512
      && IsOctal(h[148..154]) && h[154] == SPACE && h[155] == NUL
      && OctalValue(h[148..154]) == Sum(blanked)
      && Sum(blanked) < Pow8(6)
  {
    UnsummedLength(e, prefix);
    UnsummedLayout(e, prefix);
    ChecksummedSum(Unsummed(e, prefix));
  }

  /** Filling in the checksum of a block whose checksum field is blank. */
  lemma ChecksummedSum(u: seq<byte>)
    requires |u| == 512 && u[148..156] == Repeat(SPACE, 8)
    ensures var h := Checksummed(u);
      var blanked := h[..148] + Repeat(SPACE, 8) + h[156..];
      |h| == 512
      && IsOctal(h[148..154]) && h[154] == SPACE && h[155] == NUL
      && OctalValue(h[148..154]) == Sum(blanked)
      && Sum(blanked) < Pow8(6)
  {
    ChecksummedKeeps(u);
    ChecksumFits(u);
    var h := Checksummed(u);
    assert u == u[..148] + u[148..156] + u[156..];
    assert h[..148] + Repeat(SPACE, 8) + h[156..] == u;
    assert h[148..154] == ChecksumField(u)[..6] == Octal(Sum(u), 6);
    assert h[154..156] == ChecksumField(u)[6..];
    OctalRoundTrip(Sum(u), 6);
  }

  // Appending a block's fields one by one to a buffer appends the block.

  lemma AppendNumberBlock(g: seq<byte>, e: Entry)
    requires !e.Other?
    ensures (if e.Dir? then g + Repeat(ZERO, 11) + [SPACE] else g + Octal(|e.content|, 11) + [SPACE])
            + Octal(e.mtime, 11) + [SPACE] == g + NumberBlock(e)
  {
  }

  lemma AppendTypeBlock(g: seq<byte>, e: Entry)
    ensures g + Repeat(SPACE, 8) + [TypeFlag(e)] + Zeros(100) == g + TypeBlock(e)
  {
  }

  lemma AppendUstarBlock(g: seq<byte>)
    ensures g + Magic() + Version() + Zeros(32) + Zeros(32) + Zeros(8) + Zeros(8) == g + UstarBlock()
  {
  }

  lemma AppendPrefixBlock(g: seq<byte>, prefix: seq<byte>)
    requires |prefix| <= PrefixLimit
    ensures g + prefix + Zeros(155 - |prefix|) + Zeros(12) == g + PrefixBlock(prefix)
  {
  }

  /**
   * `tar_header` as written: grow a byte buffer field by field, check that it
   * is 512 bytes long, sum its bytes, and overwrite bytes 148..156 with the
   * checksum.
   */
  method TarHeader(e: Entry, prefix: seq<byte>) returns (r: Result<seq<byte>, Error>)
    ensures r == HeaderFor(e, prefix)
  {
    var mode: seq<byte>;
    var ftype: byte;
    if e.Dir? {
      mode, ftype := [48, 48, 48, 55, 53, 53, 32, 0], DirType;   // b'000755 \0', b'5'
    } else if e.File? {
      mode, ftype := [48, 48, 48, 54, 52, 52, 32, 0], FileType;  // b'000644 \0', b'0'
    } else {
      return Err(NotRegularFileOrDirectory);
    }
    if |e.name| > NameLimit {
      return Err(NameTooLong);
    }
    if |prefix| > PrefixLimit {
      return Err(PrefixTooLong);
    }

    var h := e.name + Zeros(100 - |e.name|);
    h := h + mode;
    h := h + IdField();
    h := h + IdField();
    assert h == OwnerBlock(e) by {
      assert mode == ModeField(e);
    }
    ghost var g := h;
    if e.Dir? {
      h := h + Repeat(ZERO, 11) + [SPACE];
    } else {
      h := h + Octal(|e.content|, 11) + [SPACE];
    }
    h := h + Octal(e.mtime, 11) + [SPACE];
    AppendNumberBlock(g, e);
    g := h;
    h := h + Repeat(SPACE, 8);
    h := h + [ftype];
    h := h + Zeros(100);
    AppendTypeBlock(g, e);
    g := h;
    h := h + Magic();
    h := h + Version();
    h := h + Zeros(32);
    h := h + Zeros(32);
    h := h + Zeros(8);
    h := h + Zeros(8);
    AppendUstarBlock(g);
    g := h;
    h := h + prefix + Zeros(155 - |prefix|);
    h := h + Zeros(12);
    AppendPrefixBlock(g, prefix);
    assert h == Unsummed(e, prefix);
    UnsummedLength(e, prefix);
    if |h| != 512 {
      return Err(HeaderNot512Bytes);
    }

    var sum: nat := 0;
    for i := 0 to 512
      invariant sum == Sum(h[..i])
    {
      assert h[..i + 1][..i] == h[..i];
      sum := sum + h[i];
    }
    assert h[..512] == h;
    var field := Octal(sum, 6) + [SPACE, NUL];
    h := h[..148] + field + h[156..];
    return Ok(h);
  }

  /** The metadata a ustar reader takes from a header block. */
  datatype Meta = Meta(name: seq<byte>, prefix: seq<byte>, isDir: bool, size: nat, mtime: nat)

  /** A NUL-terminated string stored in a fixed-width field: the bytes before the first NUL. */
  function UntilNul(s: seq<byte>): seq<byte>
  {
    if s == [] || s[0] == NUL then [] else [s[0]] + UntilNul(s[1..])
  }

  /**
   * A ustar reader: it accepts a block whose magic is "ustar\0", whose
   * checksum field is the byte sum taken with that field read as spaces,
   * whose numeric fields are octal and whose typeflag is '0' or '5'.
   */
  function ReadHeader(h: seq<byte>): Option<Meta>
  {
    if |h| != 512 || h[257..263] != Magic() then None
    else if !IsOctal(h[148..154]) || OctalValue(h[148..154]) != Sum(h[..148] + Repeat(SPACE, 8) + h[156..]) then None
    else if !IsOctal(h[124..135]) || !IsOctal(h[136..147]) then None
    else if h[156] != FileType && h[156] != DirType then None
    else Some(Meta(UntilNul(h[..100]), UntilNul(h[345..500]), h[156] == DirType,
                   OctalValue(h[124..135]), OctalValue(h[136..147])))
  }

  lemma {:induction false} UntilNulPadded(s: seq<byte>, k: nat)
    requires NUL !in s && 1 <= k
    ensures UntilNul(s + Zeros(k)) == s
  {
    if s != [] {
      assert (s + Zeros(k))[1..] == s[1..] + Zeros(k);
      UntilNulPadded(s[1..], k);
    }
  }

  /**
   * A reader gets back the name, the prefix, the kind, the size and the
   * mtime of every header `tar_header` builds, names and prefixes being
   * free of NUL bytes as filesystem paths are.
   */
  lemma ReadHeaderRoundTrip(e: Entry, prefix: seq<byte>)
    requires HeaderFor(e, prefix).Ok?
    requires NUL !in e.name && NUL !in prefix
    ensures ReadHeader(HeaderFor(e, prefix).value) == Some(Meta(e.name, prefix, e.Dir?, Size(e), e.mtime))
  {
    var h := HeaderFor(e, prefix).value;
    HeaderLayout(e, prefix);
    HeaderChecksum(e, prefix);
    assert h[..100] == e.name + Zeros(100 - |e.name|);
    UntilNulPadded(e.name, 100 - |e.name|);
    UntilNulPadded(prefix, 155 - |prefix|);
    assert h[124..135] == h[124..136][..11];
    if e.Dir? {
      assert h[124..135] == Repeat(ZERO, 11);
      AllZerosValue(11);
    } else {
      assert h[124..135] == Octal(Size(e), 11);
      OctalRoundTrip(Size(e), 11);
    }
    assert h[136..147] == h[136..148][..11] == Octal(e.mtime, 11);
    OctalRoundTrip(e.mtime, 11);
  }
}
