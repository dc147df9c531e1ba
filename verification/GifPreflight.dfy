/** internal/media/decode.go: walking an encoded GIF without decoding it, so that its
    geometry, frame count and memory are known before anything is allocated.
    Block layout after the GIF89a specification, sections 15, 17 to 22 and 27. */
module GifPreflight {
  import opened Search

  const MAX64 := 0x7fff_ffff_ffff_ffff
  newtype int64 = x: int | -0x8000_0000_0000_0000 <= x < 0x8000_0000_0000_0000

  datatype Result<+T> = Ok(value: T) | Err(error: GifError)

  datatype GifError =
    | InvalidHeader | InvalidDimensions | DimensionTooLarge | TooManyPixels | TruncatedColorTable
    | NoFrames | TruncatedBlocks | TruncatedDescriptor | FrameOutsideCanvas | MemoryExceeded
    | TruncatedFrame | InvalidMarker | MissingTrailer

  /** Limits that are not positive are not enforced. */
  datatype Limits = Limits(maxDimension: int64, maxPixels: int64, maxFrames: int64, maxMemoryBytes: int64)

  datatype Frame = Frame(left: nat, top: nat, width: nat, height: nat) {
    function Area(): nat { width * height }
  }

  // ---- checked arithmetic

  /** The product, if neither factor is negative and it fits in 64 bits. */
  function CheckedMul(a: int64, b: int64): (r: (int64, bool))
    ensures r.1 <==> a >= 0 && b >= 0 && a as int * b as int <= MAX64
    ensures r.1 ==> r.0 as int == a as int * b as int
  {
    if a < 0 || b < 0 then (0, false)
    else if a == 0 then (0, true)
    else
      DivisionBounds(a as int, b as int);
      if b > 0x7fff_ffff_ffff_ffff / a then (0, false) else (a * b, true)
  }

  lemma DivisionBounds(a: int, b: int)
    requires a > 0 && b >= 0
    ensures b <= MAX64 / a <==> a * b <= MAX64
    ensures a * b >= 0
  {
    var q := MAX64 / a;
    assert a * q <= MAX64 < a * q + a;
    if b <= q {
      assert a * b <= a * q;
    } else {
      assert a * (q + 1) <= a * b;
      assert a * (q + 1) == a * q + a;
    }
  }

  function ValidateDimensions(width: nat, height: nat, limits: Limits): (e: Result<()>)
    requires width < 0x1_0000 && height < 0x1_0000
    ensures e.Ok? <==>
      width > 0 && height > 0 &&
      (limits.maxDimension > 0 ==> width <= limits.maxDimension as int && height <= limits.maxDimension as int) &&
      (limits.maxPixels > 0 ==> width * height <= limits.maxPixels as int)
  {
    if width <= 0 || height <= 0 then Err(InvalidDimensions)
    else if limits.maxDimension > 0 &&
            (width as int64 > limits.maxDimension || height as int64 > limits.maxDimension) then
      Err(DimensionTooLarge)
    else
      var pixels := CheckedMul(width as int64, height as int64);
      if !pixels.1 || (limits.maxPixels > 0 && pixels.0 > limits.maxPixels) then
        SmallProduct(width, height);
        Err(TooManyPixels)
      else Ok(())
  }

  lemma SmallProduct(a: nat, b: nat)
    requires a < 0x1_0000 && b < 0x1_0000
    ensures a * b < 0x1_0000_0000
  {
    ProductGrows(a, 0xffff, b);
  }

  lemma {:induction false} ProductGrows(a: nat, c: nat, b: nat)
    requires a <= c
    ensures a * b <= c * b
    decreases c
  {
    if a < c { ProductGrows(a, c - 1, b); }
  }

  // ---- the blocks of the stream

  function U16(raw: seq<Byte>, at: nat): (n: nat)
    requires at + 2 <= |raw|
    ensures n < 0x1_0000
  {
    var low: int, high: int := raw[at], raw[at + 1];
    low + 256 * high
  }

  /** Size of a color table announced by a packed byte. */
  function TableBytes(packed: Byte): nat {
    if packed < 0x80 then 0 else 3 * [2, 4, 8, 16, 32, 64, 128, 256][packed % 8]
  }

  /** Position after a chain of data sub-blocks and its terminator. */
  function SubBlocksEnd(raw: seq<Byte>, pos: nat): (r: Result<nat>)
    ensures r.Ok? ==> pos < r.value <= |raw|
    decreases |raw| - pos
  {
    if pos >= |raw| then Err(TruncatedBlocks)
    else if raw[pos] == 0 then Ok(pos + 1)
    else if raw[pos] > |raw| - (pos + 1) then Err(TruncatedBlocks)
    else SubBlocksEnd(raw, pos + 1 + raw[pos])
  }

  function FrameAt(raw: seq<Byte>, pos: nat): Frame
    requires pos + 10 <= |raw|
  {
    Frame(U16(raw, pos + 1), U16(raw, pos + 3), U16(raw, pos + 5), U16(raw, pos + 7))
  }

  predicate Inside(f: Frame, width: nat, height: nat) {
    f.width > 0 && f.height > 0 && f.left <= width - f.width && f.top <= height - f.height
  }

  function Pixels(frames: seq<Frame>): nat {
    if frames == [] then 0
    else Pixels(frames[..|frames| - 1]) + frames[|frames| - 1].Area()
  }

  /** One byte per source pixel, and four per canvas pixel for one surface more than there are frames. */
  function Footprint(pixels: int, area: int, count: int): int { pixels + area * (4 * (count + 1)) }

  function Memory(frames: seq<Frame>, area: nat): int { Footprint(Pixels(frames), area, |frames|) }

  predicate MemoryOk(frames: seq<Frame>, area: nat, limits: Limits) {
    Memory(frames, area) <= MAX64 &&
    (limits.maxMemoryBytes > 0 ==> Memory(frames, area) <= limits.maxMemoryBytes as int)
  }

  // ---- the walk

  /** The whole stream is accepted, or its first frames up to a position, or it is rejected. */
  datatype Outcome = Whole(frames: seq<Frame>) | Cut(end: nat, frames: seq<Frame>) | Rejected(error: GifError)

  datatype Canvas = Canvas(width: nat, height: nat) {
    function Area(): nat { width * height }
  }

  function Walk(raw: seq<Byte>, pos: nat, frames: seq<Frame>, canvas: Canvas, limits: Limits): (o: Outcome)
    ensures o.Cut? ==> pos < o.end <= |raw| && |o.frames| > |frames|
    decreases |raw| - pos
  {
    if pos >= |raw| then Rejected(MissingTrailer)
    else if raw[pos] == 0x3b then
      if frames == [] then Rejected(NoFrames) else Whole(frames)
    else if raw[pos] == 0x21 then
      match SubBlocksEnd(raw, pos + 2)
      case Err(e) => Rejected(e)
      case Ok(next) => Walk(raw, next, frames, canvas, limits)
    else if raw[pos] == 0x2c then WalkFrame(raw, pos, frames, canvas, limits)
    else Rejected(InvalidMarker)
  }

  /** The frame described at a position, if it lies in the canvas and its memory is allowed. */
  function CheckFrame(raw: seq<Byte>, pos: nat, frames: seq<Frame>, canvas: Canvas, limits: Limits): (r: Result<Frame>)
    ensures r.Ok? ==> pos + 10 <= |raw|
  {
    if pos + 10 > |raw| then Err(TruncatedDescriptor)
    else if !Inside(FrameAt(raw, pos), canvas.width, canvas.height) then Err(FrameOutsideCanvas)
    else if !MemoryOk(frames + [FrameAt(raw, pos)], canvas.Area(), limits) then Err(MemoryExceeded)
    else Ok(FrameAt(raw, pos))
  }

  /** Position after the image data of the descriptor at a position. */
  function ImageEnd(raw: seq<Byte>, pos: nat): (r: Result<nat>)
    requires pos + 10 <= |raw|
    ensures r.Ok? ==> pos + 12 <= r.value <= |raw|
  {
    var data := pos + 10 + TableBytes(raw[pos + 9]);
    if data >= |raw| then Err(TruncatedFrame) else SubBlocksEnd(raw, data + 1)
  }

  function WalkFrame(raw: seq<Byte>, pos: nat, frames: seq<Frame>, canvas: Canvas, limits: Limits): (o: Outcome)
    requires pos < |raw|
    ensures o.Cut? ==> pos < o.end <= |raw| && |o.frames| > |frames|
    decreases |raw| - pos, 0
  {
    match CheckFrame(raw, pos, frames, canvas, limits)
    case Err(e) => Rejected(e)
    case Ok(frame) =>
      match ImageEnd(raw, pos)
      case Err(e) => Rejected(e)
      case Ok(next) =>
        if limits.maxFrames > 0 && |frames| + 1 >= limits.maxFrames as int then Cut(next, frames + [frame])
        else Walk(raw, next, frames + [frame], canvas, limits)
  }

  predicate HasHeader(raw: seq<Byte>) {
    |raw| >= 13 &&
    (raw[..6] == [0x47, 0x49, 0x46, 0x38, 0x37, 0x61] || raw[..6] == [0x47, 0x49, 0x46, 0x38, 0x39, 0x61])
  }

  function CanvasOf(raw: seq<Byte>): Canvas
    requires HasHeader(raw)
  {
    Canvas(U16(raw, 6), U16(raw, 8))
  }

  function BlocksStart(raw: seq<Byte>): nat
    requires HasHeader(raw)
  {
    13 + TableBytes(raw[10])
  }

  function Examine(raw: seq<Byte>, limits: Limits): (o: Outcome)
    ensures o.Cut? ==> HasHeader(raw) && BlocksStart(raw) < o.end <= |raw|
  {
    if !HasHeader(raw) then Rejected(InvalidHeader)
    else
      match ValidateDimensions(U16(raw, 6), U16(raw, 8), limits)
      case Err(e) => Rejected(e)
      case Ok(_) =>
        if raw[10] >= 0x80 && BlocksStart(raw) > |raw| then Rejected(TruncatedColorTable)
        else Walk(raw, BlocksStart(raw), [], CanvasOf(raw), limits)
  }

  function Output(raw: seq<Byte>, o: Outcome): Result<seq<Byte>>
    requires o.Cut? ==> o.end <= |raw|
  {
    match o
    case Whole(_) => Ok(raw)
    case Cut(end, _) => Ok(raw[..end] + [0x3b])
    case Rejected(e) => Err(e)
  }

  // ---- the methods

  method SkipSubBlocks(raw: seq<Byte>, start: nat) returns (r: Result<nat>)
    ensures r == SubBlocksEnd(raw, start)
  {
    var pos := start;
    while true
      invariant SubBlocksEnd(raw, pos) == SubBlocksEnd(raw, start)
      decreases |raw| - pos
    {
      if pos >= |raw| { return Err(TruncatedBlocks); }
      var size := raw[pos];
      pos := pos + 1;
      if size == 0 { return Ok(pos); }
      if size > |raw| - pos { return Err(TruncatedBlocks); }
      pos := pos + size;
    }
  }

  /** Whether the pixels and surfaces of one frame more fit, worked out in 64 bits for any input. */
  method ChargeFrame(canvasPixels: int64, framePixels: int64, sourcePixels: int64, frameCount: int64, limits: Limits)
    returns (total: int64, count: int64, fits: bool)
    requires 0 <= framePixels <= canvasPixels && 0 <= sourcePixels && sourcePixels as int + canvasPixels as int <= MAX64
    requires 0 <= frameCount && 12 * frameCount as int <= MAX64
    ensures total as int == sourcePixels as int + framePixels as int && count as int == frameCount as int + 1
    ensures var memory := Footprint(total as int, canvasPixels as int, count as int);
            fits <==> memory <= MAX64 && (limits.maxMemoryBytes > 0 ==> memory <= limits.maxMemoryBytes as int)
  {
    total := sourcePixels + framePixels;
    count := frameCount + 1;
    var composed := CheckedMul(canvasPixels, 4 * (count + 1));
    fits := composed.1 && total <= 0x7fff_ffff_ffff_ffff - composed.0
            && (limits.maxMemoryBytes <= 0 || total + composed.0 <= limits.maxMemoryBytes);
  }

  method AdmitFrame(raw: seq<Byte>, pos: nat, ghost frames: seq<Frame>, canvas: Canvas, canvasPixels: int64,
                    sourcePixels: int64, frameCount: int64, limits: Limits)
    returns (r: Result<Frame>, total: int64, count: int64)
    requires canvas.width < 0x1_0000 && canvas.height < 0x1_0000 && canvasPixels as int == canvas.Area()
    requires sourcePixels as int == Pixels(frames) && frameCount as int == |frames| && 12 * |frames| <= MAX64
    requires Pixels(frames) + canvas.Area() <= MAX64
    ensures r == CheckFrame(raw, pos, frames, canvas, limits)
    ensures r.Ok? ==> total as int == Pixels(frames + [r.value]) && count as int == |frames| + 1
    ensures r.Ok? ==> Pixels(frames + [r.value]) + canvas.Area() <= MAX64
  {
    hide Canvas.Area, Frame.Area, Footprint;
    total, count := sourcePixels, frameCount;
    if pos + 10 > |raw| { return Err(TruncatedDescriptor), total, count; }
    var f := FrameAt(raw, pos);
    if !Inside(f, canvas.width, canvas.height) { return Err(FrameOutsideCanvas), total, count; }
    PixelsSnoc(frames, f);
    var framePixels := FramePixels(f, canvas);
    var fits;
    total, count, fits := ChargeFrame(canvasPixels, framePixels, sourcePixels, frameCount, limits);
    if !fits { return Err(MemoryExceeded), total, count; }
    PixelsLeaveRoom(frames + [f], canvas.Area());
    r := Ok(f);
  }

  method SkipImage(raw: seq<Byte>, pos: nat) returns (r: Result<nat>)
    requires pos + 10 <= |raw|
    ensures r == ImageEnd(raw, pos)
  {
    var data := pos + 10 + TableBytes(raw[pos + 9]);
    if data >= |raw| { return Err(TruncatedFrame); }
    r := SkipSubBlocks(raw, data + 1);
  }

  method CanvasPixels(canvas: Canvas) returns (n: int64)
    requires canvas.width < 0x1_0000 && canvas.height < 0x1_0000
    ensures n as int == canvas.Area() < 0x1_0000_0000
  {
    SmallProduct(canvas.width, canvas.height);
    n := CheckedMul(canvas.width as int64, canvas.height as int64).0;
  }

  method FramePixels(f: Frame, canvas: Canvas) returns (n: int64)
    requires canvas.width < 0x1_0000 && canvas.height < 0x1_0000 && Inside(f, canvas.width, canvas.height)
    ensures n as int == f.Area() && 0 <= n as int <= canvas.Area()
  {
    FrameWithinCanvas(f, canvas);
    n := CheckedMul(f.width as int64, f.height as int64).0;
  }

  lemma PixelsSnoc(frames: seq<Frame>, f: Frame)
    ensures Pixels(frames + [f]) == Pixels(frames) + f.Area()
  {
    assert (frames + [f])[..|frames|] == frames;
  }

  lemma FrameWithinCanvas(f: Frame, canvas: Canvas)
    requires Inside(f, canvas.width, canvas.height) && canvas.width < 0x1_0000 && canvas.height < 0x1_0000
    ensures f.Area() <= canvas.Area() < 0x1_0000_0000
  {
    assert f.width * f.height <= canvas.width * f.height;
    assert canvas.width * f.height <= canvas.width * canvas.height;
    SmallProduct(canvas.width, canvas.height);
  }

  /** After any accepted frames there is room in 64 bits for one frame more. */
  lemma PixelsLeaveRoom(frames: seq<Frame>, area: nat)
    requires Memory(frames, area) <= MAX64
    ensures Pixels(frames) + area <= MAX64
  {
    ProductGrows(1, 4 * (|frames| + 1), area);
  }

  /** The block loop. */
  method WalkBlocks(raw: seq<Byte>, start: nat, canvas: Canvas, limits: Limits) returns (r: Result<seq<Byte>>)
    requires start <= |raw| <= MAX64
    requires canvas.width < 0x1_0000 && canvas.height < 0x1_0000
    ensures r == Output(raw, Walk(raw, start, [], canvas, limits))
  {
    hide Canvas.Area, CheckFrame, ImageEnd;
    var canvasPixels := CanvasPixels(canvas);
    var pos := start;
    var frameCount: int64 := 0;
    var sourcePixels: int64 := 0;
    ghost var frames: seq<Frame> := [];
    while pos < |raw|
      invariant 12 * |frames| <= pos <= |raw|
      invariant sourcePixels as int == Pixels(frames) && frameCount as int == |frames|
      invariant Pixels(frames) + canvas.Area() <= MAX64
      invariant Walk(raw, pos, frames, canvas, limits) == Walk(raw, start, [], canvas, limits)
      decreases |raw| - pos
    {
      if raw[pos] == 0x3b {
        if frameCount == 0 { return Err(NoFrames); }
        return Ok(raw);
      } else if raw[pos] == 0x21 {
        var next := SkipSubBlocks(raw, pos + 2);
        if next.Err? { return Err(next.error); }
        pos := next.value;
      } else if raw[pos] == 0x2c {
        var admitted;
        admitted, sourcePixels, frameCount :=
          AdmitFrame(raw, pos, frames, canvas, canvasPixels, sourcePixels, frameCount, limits);
        if admitted.Err? { return Err(admitted.error); }
        var next := SkipImage(raw, pos);
        if next.Err? { return Err(next.error); }
        frames := frames + [admitted.value];
        pos := next.value;
        if limits.maxFrames > 0 && frameCount >= limits.maxFrames { return Ok(raw[..pos] + [0x3b]); }
      } else {
        return Err(InvalidMarker);
      }
    }
    r := Err(MissingTrailer);
  }

  method Preflight(raw: seq<Byte>, limits: Limits) returns (r: Result<seq<Byte>>)
    requires |raw| <= MAX64
    ensures r == Output(raw, Examine(raw, limits))
  {
    if !HasHeader(raw) { return Err(InvalidHeader); }
    var width, height := U16(raw, 6), U16(raw, 8);
    var dimensions := ValidateDimensions(width, height, limits);
    if dimensions.Err? { return Err(dimensions.error); }
    var pos := 13;
    var packed := raw[10];
    if packed >= 0x80 {
      pos := pos + TableBytes(packed);
      if pos > |raw| { return Err(TruncatedColorTable); }
    }
    r := WalkBlocks(raw, pos, Canvas(width, height), limits);
  }
}
