/** What the GIF walk accepts, in terms of the stream's own layout, and that accepting is idempotent. */
module GifAcceptance {
  import opened Search
  import opened GifPreflight

  // ---- running it again

  /** `cut` is the stream up to `end` with a trailer put there. */
  ghost predicate Truncated(raw: seq<Byte>, cut: seq<Byte>, end: nat) {
    end <= |raw| && cut == raw[..end] + [0x3b]
  }

  lemma {:induction false} SubBlocksLocal(raw: seq<Byte>, cut: seq<Byte>, end: nat, pos: nat)
    requires Truncated(raw, cut, end) && SubBlocksEnd(raw, pos).Ok? && SubBlocksEnd(raw, pos).value <= end
    ensures SubBlocksEnd(cut, pos) == SubBlocksEnd(raw, pos)
    decreases |raw| - pos
  {
    if raw[pos] != 0 {
      SubBlocksLocal(raw, cut, end, pos + 1 + raw[pos]);
    }
  }

  /** The walk of a truncated stream ends where the first walk cut it, with the same frames. */
  lemma {:induction false} CutAgain(raw: seq<Byte>, cut: seq<Byte>, pos: nat, frames: seq<Frame>, canvas: Canvas,
      limits: Limits)
    requires Walk(raw, pos, frames, canvas, limits).Cut?
    requires Truncated(raw, cut, Walk(raw, pos, frames, canvas, limits).end)
    ensures Walk(cut, pos, frames, canvas, limits) == Walk(raw, pos, frames, canvas, limits)
    decreases |raw| - pos
  {
    hide Footprint, Pixels, Canvas.Area, TableBytes;
    var end := Walk(raw, pos, frames, canvas, limits).end;
    if raw[pos] == 0x21 {
      var next := SubBlocksEnd(raw, pos + 2).value;
      SubBlocksLocal(raw, cut, end, pos + 2);
      CutAgain(raw, cut, next, frames, canvas, limits);
    } else {
      var data := pos + 10 + TableBytes(raw[pos + 9]);
      var next := SubBlocksEnd(raw, data + 1).value;
      var seen := frames + [FrameAt(raw, pos)];
      assert next <= end;
      SubBlocksLocal(raw, cut, end, data + 1);
      assert FrameAt(cut, pos) == FrameAt(raw, pos);
      if !(limits.maxFrames > 0 && |seen| >= limits.maxFrames as int) {
        CutAgain(raw, cut, next, seen, canvas, limits);
      }
    }
  }

  /** Whatever is accepted is accepted again, unchanged; and it is the input, or a
      prefix of it that ends with a frame's data, plus a trailer. */
  lemma PreflightIsIdempotent(raw: seq<Byte>, limits: Limits)
    requires !Examine(raw, limits).Rejected?
    ensures var out := Output(raw, Examine(raw, limits)).value;
            Output(out, Examine(out, limits)) == Ok(out) &&
            Examine(out, limits).frames == Examine(raw, limits).frames
  {
    var o := Examine(raw, limits);
    if o.Cut? {
      var out := raw[..o.end] + [0x3b];
      assert out[..6] == raw[..6] && forall i :: 0 <= i < 13 ==> out[i] == raw[i];
      CutAgain(raw, out, BlocksStart(raw), [], CanvasOf(raw), limits);
      assert out[..o.end] == raw[..o.end];
    }
  }

  // ---- the layout of a stream, limits aside

  /** Frames whose data is complete, where each ends, and whether a trailer closes the stream. */
  datatype Layout = Layout(frames: seq<Frame>, ends: seq<nat>, closed: bool)

  const NOTHING := Layout([], [], false)

  function Scan(raw: seq<Byte>, pos: nat): (l: Layout)
    ensures |l.frames| == |l.ends|
    decreases |raw| - pos
  {
    if pos >= |raw| then NOTHING
    else if raw[pos] == 0x3b then Layout([], [], true)
    else if raw[pos] == 0x21 then
      match SubBlocksEnd(raw, pos + 2)
      case Err(_) => NOTHING
      case Ok(next) => Scan(raw, next)
    else if raw[pos] != 0x2c || pos + 10 > |raw| || pos + 10 + TableBytes(raw[pos + 9]) >= |raw| then NOTHING
    else
      match SubBlocksEnd(raw, pos + 10 + TableBytes(raw[pos + 9]) + 1)
      case Err(_) => NOTHING
      case Ok(next) =>
        var rest := Scan(raw, next);
        Layout([FrameAt(raw, pos)] + rest.frames, [next] + rest.ends, rest.closed)
  }

  /** Frames that all lie in the canvas and together fit in memory. */
  predicate Fit(frames: seq<Frame>, canvas: Canvas, limits: Limits) {
    (forall i :: 0 <= i < |frames| ==> Inside(frames[i], canvas.width, canvas.height)) &&
    (frames != [] ==> MemoryOk(frames, canvas.Area(), limits))
  }

  lemma FitSnoc(frames: seq<Frame>, f: Frame, canvas: Canvas, limits: Limits)
    ensures Fit(frames + [f], canvas, limits) <==>
            Fit(frames, canvas, limits) && Inside(f, canvas.width, canvas.height) &&
            MemoryOk(frames + [f], canvas.Area(), limits)
  {
    PixelsSnoc(frames, f);
    var all := frames + [f];
    assert forall i :: 0 <= i < |frames| ==> all[i] == frames[i];
    assert all[|frames|] == f;
    assert f.width * f.height >= 0;
    assert canvas.Area() * (4 * (|frames| + 2)) == canvas.Area() * (4 * (|frames| + 1)) + 4 * canvas.Area();
  }

  /** More frames only need more memory. */
  lemma {:induction false} FitPrefix(frames: seq<Frame>, more: seq<Frame>, canvas: Canvas, limits: Limits)
    requires Fit(frames + more, canvas, limits)
    ensures Fit(frames, canvas, limits)
    decreases |more|
  {
    if more == [] {
      assert frames + more == frames;
    } else {
      var n := |more| - 1;
      assert frames + more == (frames + more[..n]) + [more[n]];
      FitSnoc(frames + more[..n], more[n], canvas, limits);
      FitPrefix(frames, more[..n], canvas, limits);
    }
  }

  /** How many of the layout's frames the walk still wants. */
  function Wanted(frames: seq<Frame>, limits: Limits): int { limits.maxFrames as int - |frames| }

  /** What the walk should find, read off the layout. */
  ghost predicate Matches(o: Outcome, frames: seq<Frame>, l: Layout, canvas: Canvas, limits: Limits)
    requires |l.frames| == |l.ends|
  {
    var k := Wanted(frames, limits);
    if limits.maxFrames > 0 && 0 < k <= |l.frames| then
      if Fit(frames + l.frames[..k], canvas, limits) then o == Cut(l.ends[k - 1], frames + l.frames[..k])
        else o.Rejected?
    else if l.closed && frames + l.frames != [] && Fit(frames + l.frames, canvas, limits)
      then o == Whole(frames + l.frames)
    else o.Rejected?
  }

  lemma {:induction false} WalkMatches(raw: seq<Byte>, pos: nat, frames: seq<Frame>, canvas: Canvas, limits: Limits)
    requires Fit(frames, canvas, limits) && (limits.maxFrames > 0 ==> Wanted(frames, limits) > 0)
    ensures Matches(Walk(raw, pos, frames, canvas, limits), frames, Scan(raw, pos), canvas, limits)
    decreases |raw| - pos
  {
    if pos < |raw| && raw[pos] == 0x21 && SubBlocksEnd(raw, pos + 2).Ok? {
      WalkMatches(raw, SubBlocksEnd(raw, pos + 2).value, frames, canvas, limits);
    } else if pos < |raw| && raw[pos] == 0x2c && pos + 10 <= |raw| {
      FrameMatches(raw, pos, frames, canvas, limits);
    } else {
      assert frames + [] == frames;
    }
  }

  lemma {:induction false} FrameMatches(raw: seq<Byte>, pos: nat, frames: seq<Frame>, canvas: Canvas, limits: Limits)
    requires pos + 10 <= |raw| && raw[pos] == 0x2c
    requires Fit(frames, canvas, limits) && (limits.maxFrames > 0 ==> Wanted(frames, limits) > 0)
    ensures Matches(Walk(raw, pos, frames, canvas, limits), frames, Scan(raw, pos), canvas, limits)
    decreases |raw| - pos, 0
  {
    hide Footprint, Pixels, Canvas.Area, U16, TableBytes;
    var f := FrameAt(raw, pos);
    var seen := frames + [f];
    var data := pos + 10 + TableBytes(raw[pos + 9]);
    FitSnoc(frames, f, canvas, limits);
    if data < |raw| && SubBlocksEnd(raw, data + 1).Ok? {
      var next := SubBlocksEnd(raw, data + 1).value;
      var rest := Scan(raw, next);
      var l := Scan(raw, pos);
      if !Fit(seen, canvas, limits) {
        NeverFits(frames, f, l, canvas, limits);
      } else if limits.maxFrames > 0 && |seen| >= limits.maxFrames as int {
        assert l.frames[..1] == [f];
      } else {
        WalkMatches(raw, next, seen, canvas, limits);
        var k := Wanted(frames, limits);
        assert frames + l.frames == seen + rest.frames;
        if 0 < k <= |l.frames| {
          assert frames + l.frames[..k] == seen + rest.frames[..k - 1];
        }
      }
    } else {
      assert Scan(raw, pos) == NOTHING;
    }
  }

  /** A frame that does not fit spoils every continuation. */
  lemma NeverFits(frames: seq<Frame>, f: Frame, l: Layout, canvas: Canvas, limits: Limits)
    requires |l.frames| == |l.ends| > 0 && l.frames[0] == f && !Fit(frames + [f], canvas, limits)
    ensures forall k :: 0 < k <= |l.frames| ==> !Fit(frames + l.frames[..k], canvas, limits)
    ensures !Fit(frames + l.frames, canvas, limits)
  {
    forall k | 0 < k <= |l.frames|
      ensures !Fit(frames + l.frames[..k], canvas, limits)
    {
      assert frames + l.frames[..k] == (frames + [f]) + l.frames[1..k];
      if Fit(frames + l.frames[..k], canvas, limits) {
        FitPrefix(frames + [f], l.frames[1..k], canvas, limits);
      }
    }
    assert l.frames[..|l.frames|] == l.frames;
  }

  // ---- what is accepted

  /** Header, canvas and color table pass. */
  predicate Opens(raw: seq<Byte>, limits: Limits) {
    HasHeader(raw) && ValidateDimensions(U16(raw, 6), U16(raw, 8), limits).Ok? && BlocksStart(raw) <= |raw|
  }

  /** The frames that are to be kept: the first `maxFrames` of a longer stream. */
  function Kept(l: Layout, limits: Limits): seq<Frame> {
    if limits.maxFrames > 0 && limits.maxFrames as int <= |l.frames| then l.frames[..limits.maxFrames] else l.frames
  }

  /** Exactly the streams with a good opening, at least one frame, enough frames or a
      trailer, and frames to keep that lie in the canvas and fit in memory are accepted. */
  lemma AcceptedIff(raw: seq<Byte>, limits: Limits)
    ensures !Examine(raw, limits).Rejected? <==>
      Opens(raw, limits) &&
      var l := Scan(raw, BlocksStart(raw));
      (l.closed || (limits.maxFrames > 0 && limits.maxFrames as int <= |l.frames|)) &&
      Kept(l, limits) != [] && Fit(Kept(l, limits), CanvasOf(raw), limits)
    ensures !Examine(raw, limits).Rejected? ==>
      Examine(raw, limits).frames == Kept(Scan(raw, BlocksStart(raw)), limits)
  {
    if Opens(raw, limits) {
      var l := Scan(raw, BlocksStart(raw));
      WalkMatches(raw, BlocksStart(raw), [], CanvasOf(raw), limits);
      assert [] + l.frames == l.frames;
      if limits.maxFrames > 0 && limits.maxFrames as int <= |l.frames| {
        assert [] + l.frames[..limits.maxFrames] == l.frames[..limits.maxFrames];
      }
    }
  }

  /** Of an accepted stream's output: its own frames are the ones examined, every one lies in
      the canvas, there are at most `maxFrames` of them, exactly that many when it was cut,
      and their pixels with n + 1 canvas surfaces are within a positive memory limit. */
  lemma AcceptedOutputIsBounded(raw: seq<Byte>, limits: Limits)
    requires !Examine(raw, limits).Rejected?
    ensures var out := Output(raw, Examine(raw, limits)).value;
            var frames := Examine(raw, limits).frames;
            Opens(out, limits) && CanvasOf(out) == CanvasOf(raw) &&
            Kept(Scan(out, BlocksStart(out)), limits) == frames &&
            (forall i :: 0 <= i < |frames| ==> Inside(frames[i], CanvasOf(raw).width, CanvasOf(raw).height)) &&
            (limits.maxFrames > 0 ==> |frames| <= limits.maxFrames as int) &&
            (Examine(raw, limits).Cut? ==> |frames| == limits.maxFrames as int) &&
            (limits.maxMemoryBytes > 0 ==>
               Pixels(frames) + CanvasOf(raw).Area() * (4 * (|frames| + 1)) <= limits.maxMemoryBytes as int)
  {
    hide Walk, Scan, TableBytes, Pixels, Canvas.Area, ValidateDimensions;
    PreflightIsIdempotent(raw, limits);
    AcceptedIff(raw, limits);
    var out := Output(raw, Examine(raw, limits)).value;
    AcceptedIff(out, limits);
    WalkMatches(raw, BlocksStart(raw), [], CanvasOf(raw), limits);
    assert forall i :: 0 <= i < 13 ==> out[i] == raw[i];
  }
}
