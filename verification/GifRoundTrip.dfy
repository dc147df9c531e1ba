/** Writing a GIF down from its parts, and what the preflight makes of the bytes.
    Block layout after the GIF89a specification, sections 15 and 17 to 23. */
module GifRoundTrip {
  import opened Collections
  import opened Search
  import opened GifPreflight
  import opened GifAcceptance

  /** Three bytes for each of 2 to the power of `exponent + 1` colors. */
  datatype Table = Table(exponent: nat, colors: seq<Byte>)

  /** `flags` are the bits of a packed byte that say nothing about a table. */
  datatype Block =
    | Extension(kind: Byte, data: seq<seq<Byte>>)
    | Picture(frame: Frame, flags: nat, table: Option<Table>, codeSize: Byte, data: seq<seq<Byte>>)

  datatype Gif = Gif(version: Byte, width: nat, height: nat, flags: nat, table: Option<Table>, background: Byte,
                     aspect: Byte, blocks: seq<Block>, behind: seq<Byte>)

  // ---- what can be written

  function Entries(exponent: nat): (n: nat)
    ensures n >= 2
  {
    if exponent == 0 then 2 else 2 * Entries(exponent - 1)
  }

  predicate TableOk(t: Option<Table>, flags: nat) {
    if t.None? then flags < 0x80
    else flags < 16 && t.value.exponent < 8 && |t.value.colors| == 3 * Entries(t.value.exponent)
  }

  predicate DataOk(data: seq<seq<Byte>>) { forall c :: c in data ==> 0 < |c| < 256 }

  predicate FrameOk(f: Frame) { f.left < 0x1_0000 && f.top < 0x1_0000 && f.width < 0x1_0000 && f.height < 0x1_0000 }

  predicate BlockOk(b: Block) {
    match b
    case Extension(_, data) => DataOk(data)
    case Picture(f, flags, table, _, data) => FrameOk(f) && TableOk(table, flags) && DataOk(data)
  }

  predicate BlocksOk(blocks: seq<Block>) { forall b :: b in blocks ==> BlockOk(b) }

  lemma BlocksOkTail(blocks: seq<Block>)
    requires BlocksOk(blocks) && blocks != []
    ensures BlockOk(blocks[0]) && BlocksOk(blocks[1..])
  {
  }

  predicate GifOk(g: Gif) {
    (g.version == 0x37 || g.version == 0x39) && g.width < 0x1_0000 && g.height < 0x1_0000 &&
    TableOk(g.table, g.flags) && BlocksOk(g.blocks)
  }

  // ---- writing

  function Number(n: nat): (r: seq<Byte>)
    requires n < 0x1_0000
    ensures |r| == 2
  {
    [n % 256, n / 256]
  }

  function Packed(t: Option<Table>, flags: nat): Byte
    requires TableOk(t, flags)
  {
    if t.None? then flags else 0x80 + 8 * flags + t.value.exponent
  }

  function Colors(t: Option<Table>): seq<Byte> { if t.None? then [] else t.value.colors }

  /** Chunks with their lengths in front, ended by an empty one. */
  function PrintData(data: seq<seq<Byte>>): (r: seq<Byte>)
    requires DataOk(data)
    ensures |r| > 0
  {
    if data == [] then [0] else [|data[0]|] + data[0] + PrintData(data[1..])
  }

  function Descriptor(f: Frame, flags: nat, table: Option<Table>): (r: seq<Byte>)
    requires FrameOk(f) && TableOk(table, flags)
    ensures |r| == 10
  {
    [0x2c] + Number(f.left) + Number(f.top) + Number(f.width) + Number(f.height) + [Packed(table, flags)]
  }

  function PrintBlock(b: Block): (r: seq<Byte>)
    requires BlockOk(b)
    ensures |r| >= 3
  {
    match b
    case Extension(kind, data) => [0x21, kind] + PrintData(data)
    case Picture(f, flags, table, codeSize, data) =>
      Descriptor(f, flags, table) + Colors(table) + [codeSize] + PrintData(data)
  }

  function PrintBlocks(blocks: seq<Block>): seq<Byte>
    requires BlocksOk(blocks)
  {
    if blocks == [] then [] else PrintBlock(blocks[0]) + PrintBlocks(blocks[1..])
  }

  function Opening(g: Gif): (r: seq<Byte>)
    requires GifOk(g)
    ensures |r| == 13 + |Colors(g.table)|
  {
    [0x47, 0x49, 0x46, 0x38, g.version, 0x61] + Number(g.width) + Number(g.height) +
    [Packed(g.table, g.flags), g.background, g.aspect] + Colors(g.table)
  }

  /** The trailer byte ends the stream; what stands behind it is never looked at. */
  function Print(g: Gif): seq<Byte>
    requires GifOk(g)
  {
    Opening(g) + PrintBlocks(g.blocks) + [0x3b] + g.behind
  }

  function FramesOf(blocks: seq<Block>): seq<Frame> {
    if blocks == [] then []
    else (if blocks[0].Picture? then [blocks[0].frame] else []) + FramesOf(blocks[1..])
  }

  /** The blocks up to and with the k-th picture. */
  function UpTo(blocks: seq<Block>, k: nat): (r: seq<Block>)
    requires k <= |FramesOf(blocks)|
    ensures forall b :: b in r ==> b in blocks
  {
    if k == 0 then [] else [blocks[0]] + UpTo(blocks[1..], if blocks[0].Picture? then k - 1 else k)
  }

  /** The same GIF with its first k pictures only, and nothing behind it. */
  function FirstPictures(g: Gif, k: nat): (r: Gif)
    requires GifOk(g) && k <= |FramesOf(g.blocks)|
    ensures GifOk(r)
  {
    g.(blocks := UpTo(g.blocks, k), behind := [])
  }

  /** What the preflight hands on for any input. */
  function Handed(raw: seq<Byte>, limits: Limits): Result<seq<Byte>> { Output(raw, Examine(raw, limits)) }

  // ---- when it is to be accepted

  function TotalPixels(frames: seq<Frame>): nat {
    if frames == [] then 0 else frames[0].width * frames[0].height + TotalPixels(frames[1..])
  }

  predicate CanvasAllowed(width: nat, height: nat, limits: Limits) {
    width > 0 && height > 0 &&
    (limits.maxDimension > 0 ==> width <= limits.maxDimension as int && height <= limits.maxDimension as int) &&
    (limits.maxPixels > 0 ==> width * height <= limits.maxPixels as int)
  }

  /** Nonempty frames inside the canvas; their pixels and a four-byte surface for each frame and
      one more fit 64 bits and a memory limit. */
  predicate FramesAllowed(frames: seq<Frame>, width: nat, height: nat, limits: Limits) {
    frames != [] &&
    (forall f :: f in frames ==>
       f.width > 0 && f.height > 0 && f.left + f.width <= width && f.top + f.height <= height) &&
    var memory := TotalPixels(frames) + width * height * (4 * (|frames| + 1));
    memory <= 0x7fff_ffff_ffff_ffff && (limits.maxMemoryBytes > 0 ==> memory <= limits.maxMemoryBytes as int)
  }

  predicate Reached(frames: seq<Frame>, limits: Limits) {
    limits.maxFrames > 0 && limits.maxFrames as int <= |frames|
  }

  // ---- reading back, part by part

  /** Behind a part that was written here stands the rest. */
  lemma Advance(raw: seq<Byte>, pos: nat, part: seq<Byte>, rest: seq<Byte>)
    requires pos <= |raw| && raw[pos..] == part + rest
    ensures pos + |part| <= |raw| && raw[pos + |part|..] == rest
  {
    assert raw[pos..][|part|..] == rest;
  }

  lemma ByteAt(raw: seq<Byte>, pos: nat, part: seq<Byte>, rest: seq<Byte>, i: nat)
    requires pos <= |raw| && raw[pos..] == part + rest && i < |part|
    ensures pos + i < |raw| && raw[pos + i] == part[i]
  {
    assert raw[pos..][i] == part[i];
  }

  lemma InARow(a: seq<Byte>, b: seq<Byte>, c: seq<Byte>, d: seq<Byte>, rest: seq<Byte>)
    ensures (a + b + c + d) + rest == a + (b + c + d + rest)
    ensures (a + b + c + d) + rest == (a + b + c) + (d + rest)
  {
  }

  lemma NumberRead(raw: seq<Byte>, at: nat, n: nat)
    requires n < 0x1_0000 && at + 2 <= |raw| && raw[at] == n % 256 && raw[at + 1] == n / 256
    ensures U16(raw, at) == n
  {
  }

  lemma TableRead(t: Option<Table>, flags: nat)
    requires TableOk(t, flags)
    ensures TableBytes(Packed(t, flags)) == |Colors(t)|
  {
    if t.Some? {
      var e := t.value.exponent;
      assert (0x80 + 8 * flags + e) % 8 == e;
      EntriesAre();
    }
  }

  lemma EntriesAre()
    ensures Entries(0) == 2 && Entries(1) == 4 && Entries(2) == 8 && Entries(3) == 16
    ensures Entries(4) == 32 && Entries(5) == 64 && Entries(6) == 128 && Entries(7) == 256
  {
    assert Entries(3) == 16;
    assert Entries(5) == 64;
  }

  lemma {:induction false} DataRead(raw: seq<Byte>, pos: nat, data: seq<seq<Byte>>, rest: seq<Byte>)
    requires DataOk(data) && pos <= |raw| && raw[pos..] == PrintData(data) + rest
    ensures SubBlocksEnd(raw, pos) == Ok(pos + |PrintData(data)|)
    decreases |data|
  {
    ByteAt(raw, pos, PrintData(data), rest, 0);
    if data != [] {
      var head := [|data[0]|] + data[0];
      var more := PrintData(data[1..]);
      assert raw[pos..] == head + (more + rest);
      Advance(raw, pos, head, more + rest);
      DataRead(raw, pos + |head|, data[1..], rest);
    }
  }

  lemma FrameRead(raw: seq<Byte>, pos: nat, b: Block, rest: seq<Byte>)
    requires b.Picture? && BlockOk(b) && pos <= |raw|
    requires raw[pos..] == Descriptor(b.frame, b.flags, b.table) + rest
    ensures pos + 10 <= |raw| && raw[pos] == 0x2c && FrameAt(raw, pos) == b.frame
    ensures TableBytes(raw[pos + 9]) == |Colors(b.table)|
  {
    var d := Descriptor(b.frame, b.flags, b.table);
    forall i | 0 <= i < 10
      ensures pos + i < |raw| && raw[pos + i] == d[i]
    {
      ByteAt(raw, pos, d, rest, i);
    }
    assert raw[pos + 9] == d[9] && raw[pos + 0] == d[0];
    assert raw[pos + 1] == d[1] && raw[pos + 2] == d[2] && raw[pos + 3] == d[3] && raw[pos + 4] == d[4];
    assert raw[pos + 5] == d[5] && raw[pos + 6] == d[6] && raw[pos + 7] == d[7] && raw[pos + 8] == d[8];
    NumberRead(raw, pos + 1, b.frame.left);
    NumberRead(raw, pos + 3, b.frame.top);
    NumberRead(raw, pos + 5, b.frame.width);
    NumberRead(raw, pos + 7, b.frame.height);
    TableRead(b.table, b.flags);
  }

  lemma PictureHead(raw: seq<Byte>, pos: nat, b: Block, rest: seq<Byte>)
    requires b.Picture? && BlockOk(b) && pos <= |raw| && raw[pos..] == PrintBlock(b) + rest
    ensures pos + 10 <= |raw| && raw[pos] == 0x2c && FrameAt(raw, pos) == b.frame
    ensures TableBytes(raw[pos + 9]) == |Colors(b.table)|
  {
    hide Descriptor, PrintData, Colors, SubBlocksEnd, FrameAt, TableBytes, TableOk, DataOk, FrameOk;
    var d := Descriptor(b.frame, b.flags, b.table);
    InARow(d, Colors(b.table), [b.codeSize], PrintData(b.data), rest);
    FrameRead(raw, pos, b, Colors(b.table) + [b.codeSize] + PrintData(b.data) + rest);
  }

  /** Data with something in front of it. */
  lemma DataBehind(raw: seq<Byte>, pos: nat, head: seq<Byte>, data: seq<seq<Byte>>, rest: seq<Byte>)
    requires DataOk(data) && pos <= |raw| && raw[pos..] == head + PrintData(data) + rest
    ensures pos + |head| < |raw| && SubBlocksEnd(raw, pos + |head|) == Ok(pos + |head + PrintData(data)|)
  {
    assert raw[pos..] == head + (PrintData(data) + rest);
    Advance(raw, pos, head, PrintData(data) + rest);
    DataRead(raw, pos + |head|, data, rest);
    hide SubBlocksEnd, PrintData, DataOk;
  }

  function Head(b: Block): (r: seq<Byte>)
    requires b.Picture? && BlockOk(b)
    ensures |r| == 11 + |Colors(b.table)|
  {
    Descriptor(b.frame, b.flags, b.table) + Colors(b.table) + [b.codeSize]
  }

  lemma HeadFirst(b: Block)
    requires b.Picture? && BlockOk(b)
    ensures PrintBlock(b) == Head(b) + PrintData(b.data)
  {
  }

  lemma PictureData(raw: seq<Byte>, pos: nat, b: Block, rest: seq<Byte>)
    requires b.Picture? && BlockOk(b) && pos <= |raw| && raw[pos..] == PrintBlock(b) + rest
    ensures pos + |Head(b)| < |raw| && SubBlocksEnd(raw, pos + |Head(b)|) == Ok(pos + |PrintBlock(b)|)
  {
    HeadFirst(b);
    hide Head, PrintBlock, PrintData, SubBlocksEnd, Colors, DataOk, FrameOk, TableOk;
    DataBehind(raw, pos, Head(b), b.data, rest);
  }

  /** A picture is read whole, wherever it stands. */
  lemma PictureRead(raw: seq<Byte>, pos: nat, b: Block, rest: seq<Byte>)
    requires b.Picture? && BlockOk(b) && pos <= |raw| && raw[pos..] == PrintBlock(b) + rest
    ensures pos + 10 <= |raw| && raw[pos] == 0x2c && FrameAt(raw, pos) == b.frame
    ensures var data := pos + 10 + TableBytes(raw[pos + 9]);
            data < |raw| && SubBlocksEnd(raw, data + 1) == Ok(pos + |PrintBlock(b)|)
  {
    hide PrintBlock, BlockOk, FrameAt, TableBytes, SubBlocksEnd, Colors, Head;
    PictureHead(raw, pos, b, rest);
    PictureData(raw, pos, b, rest);
  }

  lemma ExtensionRead(raw: seq<Byte>, pos: nat, b: Block, rest: seq<Byte>)
    requires b.Extension? && BlockOk(b) && pos <= |raw| && raw[pos..] == PrintBlock(b) + rest
    ensures pos < |raw| && raw[pos] == 0x21 && SubBlocksEnd(raw, pos + 2) == Ok(pos + |PrintBlock(b)|)
  {
    hide PrintData, SubBlocksEnd, DataOk;
    DataBehind(raw, pos, [0x21, b.kind], b.data, rest);
    ByteAt(raw, pos, PrintBlock(b), rest, 0);
  }

  /** The layout of written blocks: their pictures' frames, each ending where its block does. */
  ghost predicate LaidOut(l: Layout, blocks: seq<Block>, pos: nat)
    requires BlocksOk(blocks)
  {
    && l.closed && l.frames == FramesOf(blocks) && |l.ends| == |l.frames|
    && forall k :: 0 < k <= |l.frames| ==> l.ends[k - 1] == pos + |PrintBlocks(UpTo(blocks, k))|
  }

  function Tail(blocks: seq<Block>, behind: seq<Byte>): seq<Byte>
    requires BlocksOk(blocks)
  {
    PrintBlocks(blocks) + [0x3b] + behind
  }

  lemma TailStep(blocks: seq<Block>, behind: seq<Byte>)
    requires BlocksOk(blocks) && blocks != []
    ensures Tail(blocks, behind) == PrintBlock(blocks[0]) + Tail(blocks[1..], behind)
  {
    hide PrintBlock, BlockOk;
    InARow(PrintBlock(blocks[0]), PrintBlocks(blocks[1..]), [0x3b], behind, []);
    assert Tail(blocks[1..], behind) + [] == Tail(blocks[1..], behind);
    assert Tail(blocks, behind) + [] == Tail(blocks, behind);
  }

  lemma TrailerRead(raw: seq<Byte>, pos: nat, behind: seq<Byte>)
    requires pos <= |raw| && raw[pos..] == Tail([], behind)
    ensures LaidOut(Scan(raw, pos), [], pos)
  {
    assert raw[pos..][0] == 0x3b;
  }

  lemma {:induction false} BlocksRead(raw: seq<Byte>, pos: nat, blocks: seq<Block>, behind: seq<Byte>)
    requires BlocksOk(blocks) && pos <= |raw| && raw[pos..] == Tail(blocks, behind)
    ensures LaidOut(Scan(raw, pos), blocks, pos)
    decreases |blocks|
  {
    if blocks == [] {
      TrailerRead(raw, pos, behind);
    } else {
      BlocksOkTail(blocks);
      TailStep(blocks, behind);
      hide Tail, PrintBlock, BlockOk, BlocksOk, LaidOut, Scan;
      var rest := Tail(blocks[1..], behind);
      Advance(raw, pos, PrintBlock(blocks[0]), rest);
      BlocksRead(raw, pos + |PrintBlock(blocks[0])|, blocks[1..], behind);
      BlockRead(raw, pos, blocks, rest);
    }
  }

  lemma BlockRead(raw: seq<Byte>, pos: nat, blocks: seq<Block>, rest: seq<Byte>)
    requires BlocksOk(blocks) && blocks != [] && pos < |raw|
    requires raw[pos..] == PrintBlock(blocks[0]) + rest
    requires var next := pos + |PrintBlock(blocks[0])|;
             next <= |raw| && LaidOut(Scan(raw, next), blocks[1..], next)
    ensures LaidOut(Scan(raw, pos), blocks, pos)
  {
    hide PrintBlock, SubBlocksEnd, FrameAt, TableBytes, BlockOk, LaidOut, Scan, FramesOf, UpTo;
    var b := blocks[0];
    if b.Picture? { PictureRead(raw, pos, b, rest); } else { ExtensionRead(raw, pos, b, rest); }
    BlockAdds(raw, pos, blocks);
  }

  lemma BlockAdds(raw: seq<Byte>, pos: nat, blocks: seq<Block>)
    requires BlocksOk(blocks) && blocks != [] && pos < |raw|
    requires var b := blocks[0];
             var next := pos + |PrintBlock(b)|;
             LaidOut(Scan(raw, next), blocks[1..], next) &&
             if b.Picture? then
               pos + 10 <= |raw| && raw[pos] == 0x2c && FrameAt(raw, pos) == b.frame &&
               pos + 10 + TableBytes(raw[pos + 9]) < |raw| &&
               SubBlocksEnd(raw, pos + 10 + TableBytes(raw[pos + 9]) + 1) == Ok(next)
             else raw[pos] == 0x21 && SubBlocksEnd(raw, pos + 2) == Ok(next)
    ensures LaidOut(Scan(raw, pos), blocks, pos)
  {
    hide FrameAt, TableBytes, SubBlocksEnd, PrintBlock, BlockOk, FramesOf, UpTo, PrintBlocks, LaidOut;
    var b := blocks[0];
    var next := pos + |PrintBlock(b)|;
    var l, rest := Scan(raw, pos), Scan(raw, next);
    assert l == if b.Picture? then Layout([b.frame] + rest.frames, [next] + rest.ends, rest.closed) else rest;
    hide Scan;
    LayoutAdds(l, rest, blocks, pos);
  }

  lemma LayoutAdds(l: Layout, rest: Layout, blocks: seq<Block>, pos: nat)
    requires BlocksOk(blocks) && blocks != []
    requires var next := pos + |PrintBlock(blocks[0])|;
             LaidOut(rest, blocks[1..], next) &&
             l == if blocks[0].Picture?
               then Layout([blocks[0].frame] + rest.frames, [next] + rest.ends, rest.closed) else rest
    ensures LaidOut(l, blocks, pos)
  {
    hide PrintBlock, BlockOk;
    var b := blocks[0];
    forall k | 0 < k <= |l.frames|
      ensures l.ends[k - 1] == pos + |PrintBlocks(UpTo(blocks, k))|
    {
      UpToStep(blocks, k);
    }
  }

  lemma UpToStep(blocks: seq<Block>, k: nat)
    requires BlocksOk(blocks) && 0 < k <= |FramesOf(blocks)|
    ensures var j := if blocks[0].Picture? then k - 1 else k;
            j <= |FramesOf(blocks[1..])| &&
            PrintBlocks(UpTo(blocks, k)) == PrintBlock(blocks[0]) + PrintBlocks(UpTo(blocks[1..], j))
  {
    hide PrintBlock, BlockOk;
    var j := if blocks[0].Picture? then k - 1 else k;
    assert UpTo(blocks, k)[1..] == UpTo(blocks[1..], j);
  }

  // ---- the opening

  lemma OpeningRead(g: Gif)
    requires GifOk(g)
    ensures var raw := Print(g);
            HasHeader(raw) && CanvasOf(raw) == Canvas(g.width, g.height) && BlocksStart(raw) == |Opening(g)|
  {
    var raw, opening := Print(g), Opening(g);
    assert forall i :: 0 <= i < 13 ==> raw[i] == opening[i];
    hide Print;
    assert opening[0] == 0x47 && opening[1] == 0x49 && opening[2] == 0x46 && opening[3] == 0x38;
    assert opening[4] == g.version && opening[5] == 0x61;
    assert raw[..6] == [0x47, 0x49, 0x46, 0x38, g.version, 0x61];
    assert opening[6] == Number(g.width)[0] && opening[7] == Number(g.width)[1];
    assert opening[8] == Number(g.height)[0] && opening[9] == Number(g.height)[1];
    assert opening[10] == Packed(g.table, g.flags);
    NumberRead(raw, 6, g.width);
    NumberRead(raw, 8, g.height);
    TableRead(g.table, g.flags);
  }

  lemma LayoutRead(g: Gif)
    requires GifOk(g)
    ensures |Opening(g)| <= |Print(g)| && LaidOut(Scan(Print(g), |Opening(g)|), g.blocks, |Opening(g)|)
  {
    var opening := Opening(g);
    InARow(opening, PrintBlocks(g.blocks), [0x3b], g.behind, []);
    assert Print(g) + [] == Print(g) && Tail(g.blocks, g.behind) + [] == Tail(g.blocks, g.behind);
    hide Opening, Print, PrintBlocks, Tail, LaidOut, Scan, BlockOk;
    assert Print(g)[|opening|..] == Tail(g.blocks, g.behind);
    BlocksRead(Print(g), |opening|, g.blocks, g.behind);
  }

  // ---- the conditions

  lemma {:induction false} TotalSnoc(frames: seq<Frame>, f: Frame)
    ensures TotalPixels(frames + [f]) == TotalPixels(frames) + f.width * f.height
  {
    if frames == [] {
      assert [] + [f] == [f] && [f][1..] == [];
    } else {
      TotalSnoc(frames[1..], f);
      assert (frames + [f])[1..] == frames[1..] + [f];
    }
  }

  lemma {:induction false} PixelsAreTotal(frames: seq<Frame>)
    ensures Pixels(frames) == TotalPixels(frames)
  {
    if frames != [] {
      var n := |frames| - 1;
      PixelsAreTotal(frames[..n]);
      TotalSnoc(frames[..n], frames[n]);
      assert frames == frames[..n] + [frames[n]];
    }
  }

  lemma FitIff(frames: seq<Frame>, canvas: Canvas, limits: Limits)
    ensures frames != [] && Fit(frames, canvas, limits) <==>
            FramesAllowed(frames, canvas.width, canvas.height, limits)
  {
    PixelsAreTotal(frames);
    assert (forall i :: 0 <= i < |frames| ==> Inside(frames[i], canvas.width, canvas.height)) <==>
      forall f :: f in frames ==> Inside(f, canvas.width, canvas.height);
  }

  /** The frames a preflight should keep. */
  function FirstFrames(frames: seq<Frame>, limits: Limits): seq<Frame> {
    if Reached(frames, limits) then frames[..limits.maxFrames] else frames
  }

  lemma OpensIff(g: Gif, limits: Limits)
    requires GifOk(g)
    ensures Opens(Print(g), limits) <==> CanvasAllowed(g.width, g.height, limits)
  {
    OpeningRead(g);
    hide Opening;
  }

  // ---- the round trip

  /** A GIF written down is accepted exactly when its canvas and the frames to be kept are allowed,
      and then with exactly those frames. */
  lemma WrittenGifIsAcceptedIff(g: Gif, limits: Limits)
    requires GifOk(g)
    ensures var wanted := FirstFrames(FramesOf(g.blocks), limits);
            var o := Examine(Print(g), limits);
            (!o.Rejected? <==>
               CanvasAllowed(g.width, g.height, limits) && FramesAllowed(wanted, g.width, g.height, limits)) &&
            (!o.Rejected? ==> o.frames == wanted)
  {
    OpeningRead(g);
    LayoutRead(g);
    OpensIff(g, limits);
    AcceptedIff(Print(g), limits);
    FitIff(FirstFrames(FramesOf(g.blocks), limits), Canvas(g.width, g.height), limits);
    hide Print, Opens, Examine, Scan, Fit, FramesAllowed, CanvasAllowed, UpTo, PrintBlocks;
  }

  lemma {:induction false} UpToPrefix(blocks: seq<Block>, k: nat)
    requires BlocksOk(blocks) && k <= |FramesOf(blocks)|
    ensures PrintBlocks(UpTo(blocks, k)) <= PrintBlocks(blocks)
  {
    if k > 0 {
      var j := if blocks[0].Picture? then k - 1 else k;
      UpToPrefix(blocks[1..], j);
      assert UpTo(blocks, k)[1..] == UpTo(blocks[1..], j);
    }
  }

  /** The written stream up to the end of its k-th picture. */
  lemma CutIs(g: Gif, k: nat)
    requires GifOk(g) && k <= |FramesOf(g.blocks)|
    ensures var end := |Opening(g)| + |PrintBlocks(UpTo(g.blocks, k))|;
            end <= |Print(g)| && Print(g)[..end] + [0x3b] == Print(FirstPictures(g, k))
  {
    UpToPrefix(g.blocks, k);
    var cut := FirstPictures(g, k);
    var head := Opening(g) + PrintBlocks(cut.blocks);
    assert Opening(cut) == Opening(g);
    assert Print(g)[..|head|] == head;
    assert Print(cut) == head + [0x3b];
  }

  lemma ExaminedByWalk(g: Gif, limits: Limits)
    requires GifOk(g) && CanvasAllowed(g.width, g.height, limits)
    ensures Examine(Print(g), limits) == Walk(Print(g), |Opening(g)|, [], Canvas(g.width, g.height), limits)
  {
    OpeningRead(g);
    OpensIff(g, limits);
    hide Print, Opening, Walk, TableBytes;
  }

  /** How far the walk over an accepted written GIF goes. */
  lemma WrittenGifEnds(g: Gif, limits: Limits)
    requires GifOk(g) && CanvasAllowed(g.width, g.height, limits)
    requires FramesAllowed(FirstFrames(FramesOf(g.blocks), limits), g.width, g.height, limits)
    ensures Examine(Print(g), limits) ==
            if Reached(FramesOf(g.blocks), limits)
            then Cut(|Opening(g)| + |PrintBlocks(UpTo(g.blocks, limits.maxFrames as int))|,
                     FirstFrames(FramesOf(g.blocks), limits))
            else Whole(FramesOf(g.blocks))
  {
    hide Print, Opening, Walk, Scan, Fit, Examine, FramesAllowed, CanvasAllowed, UpTo, PrintBlocks, FramesOf;
    var frames := FramesOf(g.blocks);
    var raw, start := Print(g), |Opening(g)|;
    var canvas := Canvas(g.width, g.height);
    ExaminedByWalk(g, limits);
    LayoutRead(g);
    FitIff(FirstFrames(frames, limits), canvas, limits);
    var l := Scan(raw, start);
    NothingFits(canvas, limits);
    WalkMatches(raw, start, [], canvas, limits);
    assert [] + l.frames == l.frames && l.frames == frames;
    if Reached(frames, limits) {
      var k := limits.maxFrames as int;
      assert [] + l.frames[..k] == l.frames[..k];
      assert l.ends[k - 1] == start + |PrintBlocks(UpTo(g.blocks, k))|;
    }
  }

  lemma NothingFits(canvas: Canvas, limits: Limits)
    ensures Fit([], canvas, limits)
  {
  }

  /** What the preflight of an accepted written GIF hands on: the input itself, or, when it holds
      `maxFrames` pictures or more, the same GIF written down to the end of picture `maxFrames`. */
  lemma WrittenGifIsHandedOn(g: Gif, limits: Limits)
    requires GifOk(g) && CanvasAllowed(g.width, g.height, limits)
    requires FramesAllowed(FirstFrames(FramesOf(g.blocks), limits), g.width, g.height, limits)
    ensures Handed(Print(g), limits) ==
            if Reached(FramesOf(g.blocks), limits)
            then Ok(Print(FirstPictures(g, limits.maxFrames as int)))
            else Ok(Print(g))
  {
    hide Print, Opening, Examine, FramesAllowed, CanvasAllowed, UpTo, PrintBlocks, FramesOf, FirstFrames, FirstPictures,
         GifOk;
    WrittenGifEnds(g, limits);
    if Reached(FramesOf(g.blocks), limits) {
      CutIs(g, limits.maxFrames as int);
    }
  }
}
