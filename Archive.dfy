/**
 * `targen`: the stream of 512-byte blocks for a file or directory tree, in
 * depth-first pre-order, each entry's header followed by its data blocks.
 */
module Archive {
  import opened Bytes
  import opened Wrappers
  import opened Errors
  import opened FileTree
  import opened Header
  import opened Paths

  const BlockSize := 512

  type Block = seq<byte>

  /** The blocks yielded, and the error raised after them, if any. */
  datatype Stream = Stream(blocks: seq<Block>, failure: Option<Error>)

  /** `bs` yielded before the stream `s`. */
  function Then(bs: seq<Block>, s: Stream): Stream
  {
    Stream(bs + s.blocks, s.failure)
  }

  /** All blocks of a stream concatenated: the archive bytes a consumer writes out. */
  function Flatten(bs: seq<Block>): seq<byte>
  {
    if bs == [] then [] else Flatten(bs[..|bs| - 1]) + bs[|bs| - 1]
  }

  /** `n` rounded up to a multiple of 512. */
  function RoundUp(n: nat): nat
  {
    (n + BlockSize - 1) / BlockSize * BlockSize
  }

  /** A short read zero-padded up to the next multiple of 512 (nothing added to an empty read). */
  function Padded(data: seq<byte>): seq<byte>
  {
    data + Zeros((BlockSize - |data| % BlockSize) % BlockSize)
  }

  /**
   * The data yields for a file's content: every full 512-byte read, then the
   * final short read padded, which is empty when the size is a multiple of 512.
   */
  function DataBlocks(content: seq<byte>): seq<Block>
    decreases |content|
  {
    if |content| < BlockSize then [Padded(content)]
    else [content[..BlockSize]] + DataBlocks(content[BlockSize..])
  }

  /**
   * The file branch of `targen` as written: read 512 bytes at a time until a
   * read comes back short, yield each full read, and yield the short one
   * zero-padded.
   */
  method ReadFileBlocks(content: seq<byte>) returns (blocks: seq<Block>)
    ensures blocks == DataBlocks(content)
  {
    var pos := 0;
    blocks := [];
    while true
      invariant 0 <= pos <= |content|
      invariant blocks + DataBlocks(content[pos..]) == DataBlocks(content)
      decreases |content| - pos
    {
      var data := content[pos..if pos + BlockSize <= |content| then pos + BlockSize else |content|];
      pos := pos + |data|;
      if |data| < BlockSize {
        var padsize := if |data| == 0 then 0 else BlockSize - |data| % BlockSize;
        assert data == content[pos - |data|..];
        assert data + Zeros(padsize) == Padded(data);
        blocks := blocks + [data + Zeros(padsize)];
        break;
      }
      ghost var rest := content[pos - BlockSize..];
      assert rest[..BlockSize] == data && rest[BlockSize..] == content[pos..];
      assert DataBlocks(rest) == [data] + DataBlocks(content[pos..]);
      blocks := blocks + [data];
    }
  }

  lemma {:induction false} FlattenAppend(a: seq<Block>, b: seq<Block>)
    ensures Flatten(a + b) == Flatten(a) + Flatten(b)
    decreases |b|
  {
    if b == [] {
      assert a + b == a;
    } else {
      var init, last := b[..|b| - 1], b[|b| - 1];
      assert (a + b)[..|a + b| - 1] == a + init;
      FlattenAppend(a, init);
      calc {
        Flatten(a + b);
        Flatten(a + init) + last;
        Flatten(a) + Flatten(init) + last;
        Flatten(a) + (Flatten(init) + last);
      }
    }
  }

  /**
   * A file of N bytes gives floor(N/512)+1 data yields: all of them 512 bytes
   * except the last, which is 512 bytes when N is not a multiple of 512 and
   * empty when it is (N = 0 included).
   */
  lemma {:induction false} DataBlocksShape(content: seq<byte>)
    ensures var d := DataBlocks(content);
      |d| == |content| / BlockSize + 1
      && (forall i | 0 <= i < |d| - 1 :: |d[i]| == BlockSize)
      && |d[|d| - 1]| == (if |content| % BlockSize == 0 then 0 else BlockSize)
    decreases |content|
  {
    if |content| >= BlockSize {
      DataBlocksShape(content[BlockSize..]);
    }
  }

  /** Padding a length up to a multiple of 512 gives the length rounded up. */
  lemma PaddedLength(n: nat)
    ensures n + (BlockSize - n % BlockSize) % BlockSize == RoundUp(n)
    ensures n >= BlockSize ==> (BlockSize - (n - BlockSize) % BlockSize) % BlockSize == (BlockSize - n % BlockSize) % BlockSize
  {
  }

  /**
   * The data yields concatenate to the file content followed by zero bytes up
   * to the next multiple of 512: ceil(N/512)*512 bytes in all.
   */
  lemma {:induction false} DataBlocksContent(content: seq<byte>)
    ensures Flatten(DataBlocks(content)) == content + Zeros((BlockSize - |content| % BlockSize) % BlockSize)
    ensures |Flatten(DataBlocks(content))| == RoundUp(|content|)
    decreases |content|
  {
    var n := |content|;
    PaddedLength(n);
    if n < BlockSize {
      assert Flatten([Padded(content)]) == Flatten([]) + Padded(content);
    } else {
      var head, tail := content[..BlockSize], content[BlockSize..];
      DataBlocksContent(tail);
      FlattenAppend([head], DataBlocks(tail));
      assert Flatten([head]) == head by {
        assert Flatten([head]) == Flatten([]) + head;
      }
      assert Flatten(DataBlocks(content)) == head + (tail + Zeros((BlockSize - n % BlockSize) % BlockSize));
      assert content == head + tail;
    }
  }

  /**
   * `e` is the entry found at path `f`: its name is `f.name`, the last
   * component, or the empty name of `Path('.')`. `Child` keeps this for every
   * child with a non-empty name; for the root it is the caller's to ensure.
   */
  predicate NamedBy(e: Entry, f: Path)
  {
    if f == [] then e.name == [] else e.name == f[|f| - 1]
  }

  /**
   * What `targen` yields for one entry before recursing: its header (built
   * with the prefix derived from its path `f` and the base), then
   * its data blocks when it is a file.
   */
  function Emit(e: Entry, f: Path, base: Path): Result<seq<Block>, Error>
  {
    match Prefix(f, base)
    case Err(err) => Err(err)
    case Ok(prefix) =>
      match HeaderFor(e, prefix)
      case Err(err) => Err(err)
      case Ok(h) => Ok(if e.File? then [h] + DataBlocks(e.content) else [h])
  }

  /**
   * `targen(f, base)` for the entry `e` at path `f`: the entry's own blocks, then, for a directory,
   * each child's whole stream in `iterdir()` order; an error ends the stream
   * after the blocks already yielded.
   */
  function Targen(e: Entry, f: Path, base: Path): Stream
    decreases e
  {
    match Emit(e, f, base)
    case Err(err) => Stream([], Some(err))
    case Ok(bs) =>
      if e.Dir? then Then(bs, Children(e.children, f, base))
      else Stream(bs, None)
  }

  /** `for e in f.iterdir(): yield from targen(e, base)` over the children `cs` of the directory at path `dir`;
   * each child's path is `dir / name`. */
  function Children(cs: seq<Entry>, dir: Path, base: Path): Stream
    decreases cs
  {
    if cs == [] then Stream([], None)
    else
      var first := Targen(cs[0], Child(dir, cs[0].name), base);
      if first.failure.Some? then first else Then(first.blocks, Children(cs[1..], dir, base))
  }

  /** `Targen` of a directory once its header is known. */
  lemma TargenUnfoldDir(e: Entry, f: Path, base: Path, prefix: seq<byte>, h: Block)
    requires Prefix(f, base) == Ok(prefix) && HeaderFor(e, prefix) == Ok(h) && e.Dir?
    ensures Targen(e, f, base) == Then([h], Children(e.children, f, base))
  {
  }

  /** `Targen` of a file once its header is known. */
  lemma TargenUnfoldFile(e: Entry, f: Path, base: Path, prefix: seq<byte>, h: Block)
    requires Prefix(f, base) == Ok(prefix) && HeaderFor(e, prefix) == Ok(h) && e.File?
    ensures Targen(e, f, base) == Stream([h] + DataBlocks(e.content), None)
  {
  }

  /**
   * The generator as written: derive the prefix, build and yield the header,
   * then either yield each child's stream or read the file's blocks. The
   * header takes the name from `e`, so `targen(f, base)` is this with
   * `NamedBy(e, f)`; other pairs are accepted but describe no call.
   */
  method Generate(e: Entry, f: Path, base: Path) returns (s: Stream)
    ensures s == Targen(e, f, base)
    decreases e
  {
    var prefix := Prefix(f, base);
    if prefix.Err? {
      return Stream([], Some(prefix.error));
    }
    var header := TarHeader(e, prefix.value);
    if header.Err? {
      return Stream([], Some(header.error));
    }
    if e.Dir? {
      TargenUnfoldDir(e, f, base, prefix.value, header.value);
      var sub := GenerateChildren(e.children, f, base);
      s := Then([header.value], sub);
    } else {
      TargenUnfoldFile(e, f, base, prefix.value, header.value);
      var data := ReadFileBlocks(e.content);
      s := Stream([header.value] + data, None);
    }
  }

  /** `Children` from the `i`-th child on: that child's stream, then, unless it failed, the rest. */
  lemma ChildrenStep(cs: seq<Entry>, i: nat, dir: Path, base: Path)
    requires i < |cs|
    ensures var first := Targen(cs[i], Child(dir, cs[i].name), base);
      Children(cs[i..], dir, base)
      == if first.failure.Some? then first else Then(first.blocks, Children(cs[i + 1..], dir, base))
  {
    assert cs[i..][0] == cs[i];
    assert cs[i..][1..] == cs[i + 1..];
  }

  /** Prepending blocks twice is prepending their concatenation. */
  lemma ThenThen(a: seq<Block>, b: seq<Block>, s: Stream)
    ensures Then(a, Then(b, s)) == Then(a + b, s)
  {
    assert a + (b + s.blocks) == (a + b) + s.blocks;
  }

  /** The loop over `iterdir()`: each child's whole stream in turn, stopping at the first error. */
  method GenerateChildren(cs: seq<Entry>, dir: Path, base: Path) returns (s: Stream)
    ensures s == Children(cs, dir, base)
    decreases cs
  {
    var blocks := [];
    var i := 0;
    while i < |cs|
      invariant 0 <= i <= |cs|
      invariant Then(blocks, Children(cs[i..], dir, base)) == Children(cs, dir, base)
    {
      var sub := Generate(cs[i], Child(dir, cs[i].name), base);
      ChildrenStep(cs, i, dir, base);
      if sub.failure.Some? {
        return Stream(blocks + sub.blocks, sub.failure);
      }
      ThenThen(blocks, sub.blocks, Children(cs[i + 1..], dir, base));
      blocks := blocks + sub.blocks;
      i := i + 1;
    }
    return Stream(blocks, None);
  }

  /** One entry met by the traversal and its path. */
  datatype Visit = Visit(entry: Entry, path: Path)

  /** The entries of a tree in depth-first pre-order, children in `iterdir()` order. */
  function Preorder(e: Entry, f: Path): seq<Visit>
    decreases e
  {
    [Visit(e, f)] + (if e.Dir? then PreorderAll(e.children, f) else [])
  }

  function PreorderAll(cs: seq<Entry>, dir: Path): seq<Visit>
    decreases cs
  {
    if cs == [] then [] else Preorder(cs[0], Child(dir, cs[0].name)) + PreorderAll(cs[1..], dir)
  }

  /** Each visited entry's own blocks, or its error, in visiting order. */
  function Outputs(vs: seq<Visit>, base: Path): seq<Result<seq<Block>, Error>>
  {
    seq(|vs|, i requires 0 <= i < |vs| => Emit(vs[i].entry, vs[i].path, base))
  }

  /** The worklist reading of a stream: the outputs' blocks in order, up to the first error. */
  function Run(rs: seq<Result<seq<Block>, Error>>): Stream
  {
    if rs == [] then Stream([], None)
    else
      match rs[0]
      case Err(err) => Stream([], Some(err))
      case Ok(bs) => Then(bs, Run(rs[1..]))
  }

  lemma {:induction false} RunAppend(a: seq<Result<seq<Block>, Error>>, b: seq<Result<seq<Block>, Error>>)
    ensures Run(a + b) ==
      if Run(a).failure.Some? then Run(a) else Then(Run(a).blocks, Run(b))
    decreases |a|
  {
    if a == [] {
      assert a + b == b;
    } else {
      assert (a + b)[0] == a[0];
      assert (a + b)[1..] == a[1..] + b;
      RunAppend(a[1..], b);
      var rest := Run(a[1..]);
      match a[0]
      case Err(_) =>
      case Ok(bs) =>
        if rest.failure.None? {
          var tail := Run(b);
          assert bs + (rest.blocks + tail.blocks) == bs + rest.blocks + tail.blocks;
        }
    }
  }

  /** A run ends without error exactly when every output is a success. */
  lemma {:induction false} RunSucceeds(rs: seq<Result<seq<Block>, Error>>)
    ensures Run(rs).failure.None? <==> forall i | 0 <= i < |rs| :: rs[i].Ok?
  {
    if rs != [] {
      RunSucceeds(rs[1..]);
      assert forall i | 1 <= i < |rs| :: rs[i] == rs[1..][i - 1];
    }
  }

  /** At the first error the run stops, keeping the blocks of the outputs before it. */
  lemma RunStops(rs: seq<Result<seq<Block>, Error>>, k: nat)
    requires k < |rs|
    requires forall i | 0 <= i < k :: rs[i].Ok?
    requires rs[k].Err?
    ensures Run(rs[..k]).failure.None?
    ensures Run(rs) == Stream(Run(rs[..k]).blocks, Some(rs[k].error))
  {
    RunSucceeds(rs[..k]);
    RunAppend(rs[..k], rs[k..]);
    assert rs == rs[..k] + rs[k..];
    assert rs[k..][0] == rs[k];
  }

  /** Every block of a run comes from one of the successful outputs. */
  lemma {:induction false} RunBlocksFromOutputs(rs: seq<Result<seq<Block>, Error>>)
    ensures forall b | b in Run(rs).blocks :: exists i | 0 <= i < |rs| :: rs[i].Ok? && b in rs[i].value
  {
    if rs != [] && rs[0].Ok? {
      RunBlocksFromOutputs(rs[1..]);
      forall b | b in Run(rs).blocks
        ensures exists i | 0 <= i < |rs| :: rs[i].Ok? && b in rs[i].value
      {
        if b !in rs[0].value {
          var j :| 0 <= j < |rs[1..]| && rs[1..][j].Ok? && b in rs[1..][j].value;
          assert rs[j + 1] == rs[1..][j];
        }
      }
    }
  }

  lemma OutputsAppend(a: seq<Visit>, b: seq<Visit>, base: Path)
    ensures Outputs(a + b, base) == Outputs(a, base) + Outputs(b, base)
  {
  }

  /**
   * The recursive generator yields exactly what emitting the pre-order list
   * of entries one by one yields, and fails with the same error.
   */
  lemma {:induction false} TargenIsPreorder(e: Entry, f: Path, base: Path)
    ensures Targen(e, f, base) == Run(Outputs(Preorder(e, f), base))
    decreases e
  {
    var rest := if e.Dir? then PreorderAll(e.children, f) else [];
    OutputsAppend([Visit(e, f)], rest, base);
    RunAppend(Outputs([Visit(e, f)], base), Outputs(rest, base));
    var first := Emit(e, f, base);
    assert Outputs([Visit(e, f)], base) == [first];
    assert [first][1..] == Outputs([], base);
    if e.Dir? {
      ChildrenArePreorder(e.children, f, base);
    } else {
      assert Run(Outputs(rest, base)) == Stream([], None);
    }
  }

  lemma {:induction false} ChildrenArePreorder(cs: seq<Entry>, dir: Path, base: Path)
    ensures Children(cs, dir, base) == Run(Outputs(PreorderAll(cs, dir), base))
    decreases cs
  {
    if cs == [] {
      assert Outputs([], base) == [];
    } else {
      TargenIsPreorder(cs[0], Child(dir, cs[0].name), base);
      ChildrenArePreorder(cs[1..], dir, base);
      OutputsAppend(Preorder(cs[0], Child(dir, cs[0].name)), PreorderAll(cs[1..], dir), base);
      RunAppend(Outputs(Preorder(cs[0], Child(dir, cs[0].name)), base), Outputs(PreorderAll(cs[1..], dir), base));
    }
  }

  /** The stream of a tree ends without error exactly when every entry in it, in pre-order, has its own blocks. */
  lemma TargenSucceeds(e: Entry, f: Path, base: Path)
    ensures var vs := Preorder(e, f);
      Targen(e, f, base).failure.None? <==> forall i | 0 <= i < |vs| :: Emit(vs[i].entry, vs[i].path, base).Ok?
  {
    var vs := Preorder(e, f);
    var rs := Outputs(vs, base);
    TargenIsPreorder(e, f, base);
    RunSucceeds(rs);
    assert forall i | 0 <= i < |vs| :: rs[i] == Emit(vs[i].entry, vs[i].path, base);
  }

  /**
   * When the k-th entry in pre-order is the first to fail, the stream holds the
   * complete blocks of the k entries before it and then ends with its error.
   */
  lemma TargenStopsAtFirstError(e: Entry, f: Path, base: Path, k: nat)
    requires k < |Preorder(e, f)|
    requires var vs := Preorder(e, f);
      (forall i | 0 <= i < k :: Emit(vs[i].entry, vs[i].path, base).Ok?) && Emit(vs[k].entry, vs[k].path, base).Err?
    ensures var vs := Preorder(e, f);
      Run(Outputs(vs[..k], base)).failure.None?
      && Targen(e, f, base) == Stream(Run(Outputs(vs[..k], base)).blocks, Some(Emit(vs[k].entry, vs[k].path, base).error))
  {
    var vs := Preorder(e, f);
    var rs := Outputs(vs, base);
    assert forall i | 0 <= i < |vs| :: rs[i] == Emit(vs[i].entry, vs[i].path, base);
    TargenIsPreorder(e, f, base);
    RunStops(rs, k);
    assert rs[..k] == Outputs(vs[..k], base);
  }

  /** The number of entries in a tree. */
  function EntryCount(e: Entry): nat
    decreases e
  {
    1 + (if e.Dir? then EntryCountAll(e.children) else 0)
  }

  function EntryCountAll(cs: seq<Entry>): nat
    decreases cs
  {
    if cs == [] then 0 else EntryCount(cs[0]) + EntryCountAll(cs[1..])
  }

  /** The sum of ceil(size/512)*512 over the regular files of a tree. */
  function DataSize(e: Entry): nat
    decreases e
  {
    if e.File? then RoundUp(|e.content|)
    else if e.Dir? then DataSizeAll(e.children)
    else 0
  }

  function DataSizeAll(cs: seq<Entry>): nat
    decreases cs
  {
    if cs == [] then 0 else DataSize(cs[0]) + DataSizeAll(cs[1..])
  }

  /** A tree that streams without error gives 512 bytes per entry plus each file's data rounded up to 512. */
  lemma {:induction false} TargenLength(e: Entry, f: Path, base: Path)
    requires Targen(e, f, base).failure.None?
    ensures |Flatten(Targen(e, f, base).blocks)| == BlockSize * EntryCount(e) + DataSize(e)
    decreases e
  {
    var bs := Emit(e, f, base).value;
    var prefix := Prefix(f, base).value;
    var h := HeaderFor(e, prefix).value;
    HeaderAccepts(e, prefix);
    var data := if e.File? then DataBlocks(e.content) else [];
    assert bs == [h] + data;
    FlattenAppend([h], data);
    assert Flatten([h]) == Flatten([]) + h;
    if e.Dir? {
      var sub := Children(e.children, f, base);
      ChildrenLength(e.children, f, base);
      FlattenAppend(bs, sub.blocks);
    } else {
      DataBlocksContent(e.content);
    }
  }

  lemma {:induction false} ChildrenLength(cs: seq<Entry>, dir: Path, base: Path)
    requires Children(cs, dir, base).failure.None?
    ensures |Flatten(Children(cs, dir, base).blocks)| == BlockSize * EntryCountAll(cs) + DataSizeAll(cs)
    decreases cs
  {
    if cs != [] {
      var first := Targen(cs[0], Child(dir, cs[0].name), base);
      TargenLength(cs[0], Child(dir, cs[0].name), base);
      ChildrenLength(cs[1..], dir, base);
      FlattenAppend(first.blocks, Children(cs[1..], dir, base).blocks);
    }
  }

  /** Each data yield is a full block or the empty final read. */
  lemma DataBlockSizes(content: seq<byte>)
    ensures forall b | b in DataBlocks(content) :: |b| == BlockSize || b == []
  {
    var d := DataBlocks(content);
    DataBlocksShape(content);
    forall b | b in d
      ensures |b| == BlockSize || b == []
    {
      var i :| 0 <= i < |d| && d[i] == b;
      if i == |d| - 1 && |b| == 0 {
        assert b == [];
      }
    }
  }

  /** An entry's own blocks are its header, then, for a file, its data blocks. */
  lemma EmitIsHeaderThenData(e: Entry, f: Path, base: Path)
    requires Emit(e, f, base).Ok?
    ensures var h := HeaderFor(e, Prefix(f, base).value).value;
      |h| == BlockSize
      && Emit(e, f, base).value == [h] + (if e.File? then DataBlocks(e.content) else [])
  {
    HeaderAccepts(e, Prefix(f, base).value);
  }

  /** A 512-byte header followed by an entry's data blocks, if it is a file: only the last block may be short, and then it is empty. */
  lemma HeaderThenDataShape(h: Block, e: Entry)
    requires |h| == BlockSize
    ensures var bs := [h] + (if e.File? then DataBlocks(e.content) else []);
      (forall b | b in bs :: |b| == BlockSize || b == [])
      && (forall i | 0 <= i < |bs| - 1 :: |bs[i]| == BlockSize)
      && (|bs[|bs| - 1]| == 0 <==> e.File? && |e.content| % BlockSize == 0)
  {
    var d := if e.File? then DataBlocks(e.content) else [];
    var bs := [h] + d;
    if e.File? {
      DataBlockSizes(e.content);
      DataBlocksShape(e.content);
      assert bs[|bs| - 1] == d[|d| - 1];
    }
    forall b | b in bs
      ensures |b| == BlockSize || b == []
    {
      if b != h {
        assert b in d;
      }
    }
  }

  /** An entry's own blocks: a 512-byte header, then full data blocks and possibly one empty final read. */
  lemma EmitBlockSizes(e: Entry, f: Path, base: Path)
    requires Emit(e, f, base).Ok?
    ensures forall b | b in Emit(e, f, base).value :: |b| == BlockSize || b == []
    ensures var bs := Emit(e, f, base).value;
      |bs| >= 1 && bs[0] == HeaderFor(e, Prefix(f, base).value).value && |bs[0]| == BlockSize
    ensures var bs := Emit(e, f, base).value;
      forall i | 0 <= i < |bs| - 1 :: |bs[i]| == BlockSize
    ensures var bs := Emit(e, f, base).value;
      |bs[|bs| - 1]| == 0 <==> e.File? && |e.content| % BlockSize == 0
  {
    EmitIsHeaderThenData(e, f, base);
    HeaderThenDataShape(HeaderFor(e, Prefix(f, base).value).value, e);
  }

  /**
   * The first block of an entry below the base records where it sits: a
   * ustar reader parses it back, and its prefix and name fields rebuild the
   * entry's path relative to the base.
   */
  lemma HeaderRecordsPath(e: Entry, f: Path, base: Path)
    requires NamedBy(e, f) && f != [] && Components(f) && base <= Parent(f)
    requires Emit(e, f, base).Ok?
    requires NUL !in e.name && NUL !in Prefix(f, base).value
    ensures var s := Targen(e, f, base);
      s.blocks != [] && ReadHeader(s.blocks[0]).Some?
      && HeaderPath(ReadHeader(s.blocks[0]).value.prefix, ReadHeader(s.blocks[0]).value.name) == Join(f[|base|..])
  {
    var prefix := Prefix(f, base).value;
    TargenStartsWithHeader(e, f, base);
    ReadHeaderRoundTrip(e, prefix);
    PrefixRecomposes(f, base);
  }

  /** Every block yielded is 512 bytes long or empty; `EmitBlockSizes` says where an empty block can sit. */
  lemma TargenBlockSizes(e: Entry, f: Path, base: Path)
    ensures forall b | b in Targen(e, f, base).blocks :: |b| == BlockSize || b == []
  {
    var vs := Preorder(e, f);
    var rs := Outputs(vs, base);
    TargenIsPreorder(e, f, base);
    RunBlocksFromOutputs(rs);
    forall i | 0 <= i < |rs| && rs[i].Ok?
      ensures forall b | b in rs[i].value :: |b| == BlockSize || b == []
    {
      EmitBlockSizes(vs[i].entry, vs[i].path, base);
    }
  }

  /** The first block yielded for an entry is its header; without a prefix or a header nothing is yielded. */
  lemma TargenStartsWithHeader(e: Entry, f: Path, base: Path)
    ensures Prefix(f, base).Err? ==>
      Targen(e, f, base) == Stream([], Some(Prefix(f, base).error))
    ensures Prefix(f, base).Ok? && HeaderFor(e, Prefix(f, base).value).Err? ==>
      Targen(e, f, base) == Stream([], Some(HeaderFor(e, Prefix(f, base).value).error))
    ensures Prefix(f, base).Ok? && HeaderFor(e, Prefix(f, base).value).Ok? ==>
      var s := Targen(e, f, base);
      s.blocks != [] && s.blocks[0] == HeaderFor(e, Prefix(f, base).value).value
  {
  }
}
