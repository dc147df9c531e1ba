/** internal/media/video_common.go: framing terminal output so that a Kitty image
    transmission leaves in one write, however the PTY cuts its reads. */
module KittyFramer {
  import opened Search

  const APC_START: seq<Byte> := [0x1b, 0x5f, 0x47]  // ESC _ G
  const APC_END: seq<Byte> := [0x1b, 0x5c]          // ESC \
  const SHARED_MEMORY: seq<Byte> := [0x74, 0x3d, 0x73]  // t=s
  const MORE: seq<Byte> := [0x6d, 0x3d, 0x31]           // m=1
  const SEMICOLON: Byte := 0x3b

  /** Length of the APC packet at the front of `s`, or 0 when its end is not there yet. */
  function PacketLength(s: seq<Byte>): (n: nat)
    requires StartsWith(s, APC_START)
    ensures n <= |s| && (n > 0 ==> n >= 5)
  {
    var end := IndexOf(s[3..], APC_END);
    if end < 0 then 0 else end + 5
  }

  function Header(packet: seq<Byte>): seq<Byte> {
    var end := IndexOf(packet, [SEMICOLON]);
    if end >= 0 then packet[..end] else packet
  }

  predicate Contains(s: seq<Byte>, pat: seq<Byte>)
    requires pat != []
  {
    IndexOf(s, pat) >= 0
  }

  /** More packets of the same transmission follow: m=1, except for shared memory. */
  predicate Continues(packet: seq<Byte>) {
    !Contains(Header(packet), SHARED_MEMORY) && Contains(Header(packet), MORE)
  }

  /** What the terminal is to receive: single text bytes and whole transmissions. */
  datatype Token = Text(b: Byte) | Image(bytes: seq<Byte>)

  datatype Scan = Scan(tokens: seq<Token>, transmission: seq<Byte>, pending: seq<Byte>)

  function After(t: Token, s: Scan): Scan { s.(tokens := [t] + s.tokens) }

  /** What happens at the front of the stream: nothing yet, or `n` bytes are taken,
      which join the open transmission or leave, together with it, as a token. */
  datatype Front = Wait | Take(n: nat, joins: bool)

  function FrontOf(s: seq<Byte>, open: seq<Byte>): (f: Front)
    ensures f.Take? ==> 0 < f.n <= |s|
  {
    if |s| < 3 then Wait
    else if !StartsWith(s, APC_START) then Take(1, open != [])
    else if PacketLength(s) == 0 then Wait
    else Take(PacketLength(s), Continues(s[..PacketLength(s)]))
  }

  function Leaving(s: seq<Byte>, n: nat, open: seq<Byte>): Token
    requires 0 < n <= |s|
  {
    if StartsWith(s, APC_START) then Image(open + s[..n]) else Text(s[0])
  }

  /** The whole stream at once, byte by byte. `open` is a transmission already begun. */
  function Parse(s: seq<Byte>, open: seq<Byte>): Scan
    decreases |s|
  {
    match FrontOf(s, open)
    case Wait => Scan([], open, s)
    case Take(n, joins) =>
      if joins then Parse(s[n..], open + s[..n]) else After(Leaving(s, n, open), Parse(s[n..], []))
  }

  // ---- reads may be cut anywhere

  /** Bytes that follow do not change what is taken at the front. */
  lemma FrontIsLocal(s: seq<Byte>, rest: seq<Byte>, open: seq<Byte>)
    requires FrontOf(s, open).Take?
    ensures FrontOf(s + rest, open) == FrontOf(s, open)
    ensures Leaving(s + rest, FrontOf(s, open).n, open) == Leaving(s, FrontOf(s, open).n, open)
  {
    assert (s + rest)[..3] == s[..3];
    if StartsWith(s, APC_START) {
      var n := PacketLength(s);
      assert (s + rest)[3..] == s[3..] + rest;
      IndexOfAppend(s[3..], rest, APC_END);
      assert (s + rest)[..n] == s[..n];
    }
  }

  /** Parsing a prefix, then what it left pending with the rest, is parsing the whole. */
  lemma {:induction false} ParseComposes(s: seq<Byte>, rest: seq<Byte>, open: seq<Byte>)
    ensures var first := Parse(s, open);
            var second := Parse(first.pending + rest, first.transmission);
            Parse(s + rest, open) == second.(tokens := first.tokens + second.tokens)
    decreases |s|
  {
    match FrontOf(s, open)
    case Wait => assert [] + Parse(s + rest, open).tokens == Parse(s + rest, open).tokens;
    case Take(n, joins) =>
      FrontIsLocal(s, rest, open);
      assert (s + rest)[n..] == s[n..] + rest && (s + rest)[..n] == s[..n];
      var open' := if joins then open + s[..n] else [];
      ParseComposes(s[n..], rest, open');
      if !joins {
        var first := Parse(s[n..], []);
        var second := Parse(first.pending + rest, first.transmission);
        assert Parse(s + rest, open) == After(Leaving(s, n, open), Parse(s[n..] + rest, []));
        Regroup([Leaving(s, n, open)], first.tokens, second.tokens);
      }
  }

  // ---- nothing is lost

  function Bytes(tokens: seq<Token>): seq<Byte> {
    if tokens == [] then [] else TokenBytes(tokens[0]) + Bytes(tokens[1..])
  }

  function TokenBytes(t: Token): seq<Byte> { match t case Text(b) => [b] case Image(bytes) => bytes }

  lemma BytesAfter(t: Token, tokens: seq<Token>)
    ensures Bytes([t] + tokens) == TokenBytes(t) + Bytes(tokens)
  {
    assert ([t] + tokens)[1..] == tokens;
  }

  /** Emitted tokens, the open transmission and the pending bytes are exactly the input, in order. */
  lemma {:induction false} ParseConserves(s: seq<Byte>, open: seq<Byte>)
    requires Begun(open)
    ensures var r := Parse(s, open);
            Bytes(r.tokens) + (r.transmission + r.pending) == open + s
    decreases |s|
  {
    match FrontOf(s, open)
    case Wait => assert [] + (open + s) == open + s;
    case Take(n, joins) =>
      assert s == s[..n] + s[n..];
      BegunStays(s, open);
      if joins {
        ParseConserves(s[n..], open + s[..n]);
        Regroup(open, s[..n], s[n..]);
      } else {
        var t := Leaving(s, n, open);
        var rest := Parse(s[n..], []);
        ParseConserves(s[n..], []);
        BytesAfter(t, rest.tokens);
        assert [] + s[n..] == s[n..];
        Regroup(TokenBytes(t), Bytes(rest.tokens), rest.transmission + rest.pending);
        assert TokenBytes(t) == open + s[..n];
        Regroup(open, s[..n], s[n..]);
      }
  }

  lemma Regroup<T>(a: seq<T>, b: seq<T>, c: seq<T>)
    ensures (a + b) + c == a + (b + c)
  {
  }

  // ---- images begin and end as escapes, text never begins one

  predicate IsImage(bytes: seq<Byte>) {
    StartsWith(bytes, APC_START) && |bytes| >= 5 && bytes[|bytes| - 2..] == APC_END
  }

  predicate Begun(open: seq<Byte>) { open == [] || StartsWith(open, APC_START) }

  lemma BegunStays(s: seq<Byte>, open: seq<Byte>)
    requires Begun(open) && FrontOf(s, open).Take?
    ensures FrontOf(s, open).joins ==> Begun(open + s[..FrontOf(s, open).n])
    ensures !FrontOf(s, open).joins && StartsWith(s, APC_START) ==> IsImage(open + s[..FrontOf(s, open).n])
  {
    var n := FrontOf(s, open).n;
    if StartsWith(s, APC_START) {
      var k := IndexOf(s[3..], APC_END);
      IndexOfIsFirst(s[3..], APC_END);
      assert APC_END[0] == 0x1b && APC_END[1] == 0x5c;
      assert s[3..][k + 0] == APC_END[0] && s[3..][k + 1] == APC_END[1];
      var image := open + s[..n];
      assert image[|image| - 2..] == [0x1b, 0x5c];
      assert open == [] ==> image[..3] == s[..3];
      assert open != [] ==> image[..3] == open[..3];
    } else if open != [] {
      assert (open + s[..n])[..3] == open[..3];
    }
  }

  lemma {:induction false} ImagesAreEscapes(s: seq<Byte>, open: seq<Byte>)
    requires Begun(open)
    ensures Begun(Parse(s, open).transmission)
    ensures forall t :: t in Parse(s, open).tokens && t.Image? ==> IsImage(t.bytes)
    decreases |s|
  {
    match FrontOf(s, open)
    case Wait =>
    case Take(n, joins) =>
      BegunStays(s, open);
      ImagesAreEscapes(s[n..], if joins then open + s[..n] else []);
  }

  /** Inside a transmission, the first token is its image. */
  lemma {:induction false} FirstOfOpenIsImage(s: seq<Byte>, open: seq<Byte>)
    requires open != []
    ensures Parse(s, open).tokens != [] ==> Parse(s, open).tokens[0].Image?
    decreases |s|
  {
    match FrontOf(s, open)
    case Wait =>
    case Take(n, joins) => if joins { FirstOfOpenIsImage(s[n..], open + s[..n]); }
  }

  /** Outside a transmission, a text token in front is the next byte, and no escape starts there. */
  lemma FirstText(s: seq<Byte>)
    requires Parse(s, []).tokens != [] && Parse(s, []).tokens[0].Text?
    ensures |s| >= 3 && !StartsWith(s, APC_START) && Parse(s, []).tokens == [Text(s[0])] + Parse(s[1..], []).tokens
  {
    var n := FrontOf(s, []).n;
    if FrontOf(s, []).joins {
      FirstOfOpenIsImage(s[n..], [] + s[..n]);
    }
  }

  /** Three text tokens in front are the next three bytes, and not an escape's start. */
  lemma ThreeTexts(s: seq<Byte>)
    requires var t := Parse(s, []).tokens;
             |t| >= 3 && t[0].Text? && t[1].Text? && t[2].Text?
    ensures var t := Parse(s, []).tokens;
            [t[0].b, t[1].b, t[2].b] != APC_START
  {
    FirstText(s);
    var t1 := Parse(s[1..], []).tokens;
    assert Parse(s, []).tokens[1] == t1[0] && Parse(s, []).tokens[2] == t1[1];
    FirstText(s[1..]);
    assert t1[1] == Parse(s[1..][1..], []).tokens[0];
    FirstText(s[1..][1..]);
    assert s[..3] == [s[0], s[1], s[2]];
  }

  ghost predicate SpellsEscape(t: seq<Token>, i: nat) {
    i + 2 < |t| && t[i].Text? && t[i + 1].Text? && t[i + 2].Text? && [t[i].b, t[i + 1].b, t[i + 2].b] == APC_START
  }

  /** Three text bytes in a row never spell the start of an escape. */
  lemma {:induction false} TextHidesNoEscape(s: seq<Byte>, open: seq<Byte>, i: nat)
    ensures !SpellsEscape(Parse(s, open).tokens, i)
    decreases |s|
  {
    match FrontOf(s, open)
    case Wait =>
    case Take(n, joins) =>
      if joins {
        TextHidesNoEscape(s[n..], open + s[..n], i);
      } else if i > 0 {
        TextHidesNoEscape(s[n..], [], i - 1);
      } else if SpellsEscape(Parse(s, open).tokens, 0) {
        assert open == [] && !StartsWith(s, APC_START);
        ThreeTexts(s);
      }
  }

  // ---- chunks, as the framer returns them

  function TextTokens(s: seq<Byte>): seq<Token> { seq(|s|, i requires 0 <= i < |s| => Text(s[i])) }

  /** A chunk is one whole image, or text. */
  function ChunkTokens(chunk: seq<Byte>): seq<Token> {
    if StartsWith(chunk, APC_START) then [Image(chunk)] else TextTokens(chunk)
  }

  function Tokens(output: seq<seq<Byte>>): seq<Token> {
    if output == [] then [] else Tokens(output[..|output| - 1]) + ChunkTokens(output[|output| - 1])
  }

  lemma TokensSnoc(output: seq<seq<Byte>>, chunk: seq<Byte>)
    ensures Tokens(output + [chunk]) == Tokens(output) + ChunkTokens(chunk)
  {
    assert (output + [chunk])[..|output|] == output;
  }

  /** What parsing `s` is when its first `k` bytes are plain text. */
  function TextThen(s: seq<Byte>, k: nat, open: seq<Byte>): Scan
    requires k <= |s|
  {
    if open == [] then
      var rest := Parse(s[k..], []);
      rest.(tokens := TextTokens(s[..k]) + rest.tokens)
    else Parse(s[k..], open + s[..k])
  }

  /** Skipping to the first escape is parsing the text before it byte by byte. */
  lemma {:induction false} TextRun(s: seq<Byte>, k: nat, open: seq<Byte>)
    requires k + 2 <= |s| && forall j :: 0 <= j < k ==> !Occurs(s, APC_START, j)
    ensures Parse(s, open) == TextThen(s, k, open)
    decreases k
  {
    if k == 0 {
      assert s[0..] == s && open + s[..0] == open;
      assert TextTokens(s[..0]) == [];
      assert [] + Parse(s, []).tokens == Parse(s, []).tokens;
    } else {
      assert !Occurs(s, APC_START, 0);
      OccursFront(s, APC_START);
      forall j | 0 <= j < k - 1
        ensures !Occurs(s[1..], APC_START, j)
      {
        assert !Occurs(s, APC_START, j + 1);
        OccursTail(s, APC_START, j + 1);
      }
      TextRun(s[1..], k - 1, if open == [] then [] else open + s[..1]);
      TextThenStep(s, k, open);
    }
  }

  lemma TextThenStep(s: seq<Byte>, k: nat, open: seq<Byte>)
    requires 0 < k <= |s|
    ensures TextThen(s, k, open) ==
            if open == [] then After(Text(s[0]), TextThen(s[1..], k - 1, []))
              else TextThen(s[1..], k - 1, open + s[..1])
  {
    assert s[1..][k - 1..] == s[k..];
    if open == [] {
      var rest := Parse(s[k..], []).tokens;
      assert [Text(s[0])] + (TextTokens(s[1..][..k - 1]) + rest) == TextTokens(s[..k]) + rest;
    } else {
      assert (open + s[..1]) + s[1..][..k - 1] == open + s[..k];
    }
  }

  lemma NoEscapeInPrefix(s: seq<Byte>, k: nat)
    requires 0 < k <= |s| && forall j :: 0 <= j < k ==> !Occurs(s, APC_START, j)
    ensures !StartsWith(s[..k], APC_START)
  {
    if StartsWith(s[..k], APC_START) {
      assert s[..k][..3] == s[..3];
      OccursFront(s, APC_START);
    }
  }

  /** The whole parse is what was emitted followed by the parse of what is held. */
  ghost predicate Ahead(goal: Scan, out: seq<Token>, s: seq<Byte>, open: seq<Byte>) {
    var rest := Parse(s, open);
    goal == rest.(tokens := out + rest.tokens)
  }

  lemma PacketPasses(goal: Scan, out: seq<Token>, s: seq<Byte>, open: seq<Byte>)
    requires Ahead(goal, out, s, open) && StartsWith(s, APC_START) && PacketLength(s) > 0
    ensures var n := PacketLength(s);
            if Continues(s[..n]) then Ahead(goal, out, s[n..], open + s[..n])
            else Ahead(goal, out + [Image(open + s[..n])], s[n..], [])
  {
    var n := PacketLength(s);
    assert FrontOf(s, open) == Take(n, Continues(s[..n]));
    if !Continues(s[..n]) {
      Regroup(out, [Image(open + s[..n])], Parse(s[n..], []).tokens);
    }
  }

  lemma TextPasses(goal: Scan, out: seq<Token>, s: seq<Byte>, open: seq<Byte>, k: nat)
    requires Ahead(goal, out, s, open) && k + 2 <= |s| && forall j :: 0 <= j < k ==> !Occurs(s, APC_START, j)
    ensures if open == [] then Ahead(goal, out + TextTokens(s[..k]), s[k..], [])
            else Ahead(goal, out, s[k..], open + s[..k])
  {
    TextRun(s, k, open);
    if open == [] {
      Regroup(out, TextTokens(s[..k]), Parse(s[k..], []).tokens);
    }
  }

  class Framer {
    var pending: seq<Byte>
    var transmission: seq<Byte>

    predicate Valid()
      reads this
    {
      Begun(transmission)
    }

    constructor ()
      ensures Valid() && pending == transmission == []
    {
      pending, transmission := [], [];
    }

    method Push(data: seq<Byte>) returns (output: seq<seq<Byte>>)
      requires Valid()
      modifies this
      ensures Valid()
      ensures Scan(Tokens(output), transmission, pending) == Parse(old(pending) + data, old(transmission))
    {
      if |data| > 0 {
        pending := pending + data;
      } else {
        assert pending + data == pending;
      }
      output := [];
      ghost var goal := Parse(pending, transmission);
      while |pending| > 0
        invariant Valid()
        invariant Ahead(goal, Tokens(output), pending, transmission)
        decreases |pending|
      {
        var start := IndexOf(pending, APC_START);
        IndexOfIsFirst(pending, APC_START);
        if start < 0 {
          output := KeepTail(output, goal);
          return;
        }
        if start > 0 {
          output := PassText(output, start, goal);
          continue;
        }
        OccursFront(pending, APC_START);
        var end := IndexOf(pending[3..], APC_END);
        if end < 0 { return; }
        end := end + 5;
        output := PassPacket(output, end, goal);
      }
    }

    /** Text before an escape leaves, or joins the open transmission. */
    method PassText(output: seq<seq<Byte>>, start: nat, ghost goal: Scan) returns (output': seq<seq<Byte>>)
      requires Valid() && Ahead(goal, Tokens(output), pending, transmission) && 0 < start && start + 2 <= |pending|
      requires forall j :: 0 <= j < start ==> !Occurs(pending, APC_START, j)
      modifies this
      ensures Valid() && pending == old(pending)[start..]
      ensures Ahead(goal, Tokens(output'), pending, transmission)
    {
      TextPasses(goal, Tokens(output), pending, transmission, start);
      var prefix := pending[..start];
      NoEscapeInPrefix(pending, start);
      pending := pending[start..];
      output' := output;
      if |transmission| > 0 {
        transmission := transmission + prefix;
      } else {
        output' := Emit(output, prefix);
      }
    }

    /** A complete packet leaves, ends the open transmission, or joins it. */
    method PassPacket(output: seq<seq<Byte>>, end: nat, ghost goal: Scan) returns (output': seq<seq<Byte>>)
      requires Valid() && Ahead(goal, Tokens(output), pending, transmission)
      requires StartsWith(pending, APC_START) && end == PacketLength(pending) > 0
      modifies this
      ensures Valid() && |pending| < old(|pending|)
      ensures Ahead(goal, Tokens(output'), pending, transmission)
    {
      PacketPasses(goal, Tokens(output), pending, transmission);
      BegunStays(pending, transmission);
      var packet := pending[..end];
      pending := pending[end..];
      var continues := Continues(packet);
      output' := output;
      if |transmission| > 0 || continues {
        transmission := transmission + packet;
        if !continues {
          output' := Emit(output, transmission);
          transmission := [];
        }
      } else {
        assert [] + packet == packet;
        output' := Emit(output, packet);
      }
    }

    method Emit(output: seq<seq<Byte>>, chunk: seq<Byte>) returns (output': seq<seq<Byte>>)
      ensures output' == output + [chunk] && Tokens(output') == Tokens(output) + ChunkTokens(chunk)
    {
      TokensSnoc(output, chunk);
      output' := output + [chunk];
    }

    /** No escape in sight: all but the last two bytes leave, an escape may start in those. */
    method KeepTail(output: seq<seq<Byte>>, ghost goal: Scan) returns (output': seq<seq<Byte>>)
      requires Valid() && Ahead(goal, Tokens(output), pending, transmission)
      requires |pending| > 0 && forall j :: !Occurs(pending, APC_START, j)
      modifies this
      ensures Valid()
      ensures Scan(Tokens(output'), transmission, pending) == goal
    {
      var keep := if |pending| < 2 then |pending| else 2;
      output' := output;
      if |pending| - keep > 0 {
        output' := PassText(output, |pending| - keep, goal);
      }
      assert Tokens(output') + [] == Tokens(output');
    }

    method Flush() returns (out: seq<Byte>)
      modifies this
      ensures out == old(transmission) + old(pending)
      ensures transmission == pending == []
    {
      out := transmission;
      out := out + pending;
      transmission := [];
      pending := [];
    }
  }

  // ---- streams

  function Concat(cuts: seq<seq<Byte>>): seq<Byte> {
    if cuts == [] then [] else cuts[0] + Concat(cuts[1..])
  }

  /** What a framer emits and keeps over a list of reads, one Push each. */
  function Stream(cuts: seq<seq<Byte>>, open: seq<Byte>, pending: seq<Byte>): Scan {
    if cuts == [] then Scan([], open, pending)
    else
      var first := Parse(pending + cuts[0], open);
      var rest := Stream(cuts[1..], first.transmission, first.pending);
      rest.(tokens := first.tokens + rest.tokens)
  }

  lemma {:induction false} StreamIsBatchFrom(cuts: seq<seq<Byte>>, s: seq<Byte>, open: seq<Byte>)
    ensures var r := Parse(s, open);
            var more := Stream(cuts, r.transmission, r.pending);
            Parse(s + Concat(cuts), open) == more.(tokens := r.tokens + more.tokens)
    decreases |cuts|
  {
    var r := Parse(s, open);
    if cuts == [] {
      assert s + [] == s && r.tokens + [] == r.tokens;
    } else {
      var first := Parse(r.pending + cuts[0], r.transmission);
      var rest := Stream(cuts[1..], first.transmission, first.pending);
      assert Parse(s + cuts[0], open) == first.(tokens := r.tokens + first.tokens) by {
        ParseComposes(s, cuts[0], open);
      }
      StreamIsBatchFrom(cuts[1..], s + cuts[0], open);
      Regroup(s, cuts[0], Concat(cuts[1..]));
      Regroup(r.tokens, first.tokens, rest.tokens);
    }
  }

  /** However the stream is cut into reads, the framer emits what parsing it whole emits. */
  lemma StreamingEqualsBatch(cuts: seq<seq<Byte>>)
    ensures Stream(cuts, [], []) == Parse(Concat(cuts), [])
  {
    StreamIsBatchFrom(cuts, [], []);
    assert [] + Concat(cuts) == Concat(cuts);
    assert Parse([], []) == Scan([], [], []);
    assert [] + Stream(cuts, [], []).tokens == Stream(cuts, [], []).tokens;
  }

  /** Two ways of cutting the same stream emit the same tokens and keep the same rest,
      and with the final Flush not a byte is lost, added or moved. */
  lemma CutsDoNotMatter(cuts: seq<seq<Byte>>, others: seq<seq<Byte>>)
    requires Concat(cuts) == Concat(others)
    ensures Stream(cuts, [], []) == Stream(others, [], [])
    ensures var r := Stream(cuts, [], []);
            Bytes(r.tokens) + (r.transmission + r.pending) == Concat(cuts)
  {
    StreamingEqualsBatch(cuts);
    StreamingEqualsBatch(others);
    ParseConserves(Concat(cuts), []);
    assert [] + Concat(cuts) == Concat(cuts);
  }

  // ---- the read loop

  lemma {:induction false} TokensAppend(a: seq<seq<Byte>>, b: seq<seq<Byte>>)
    ensures Tokens(a + b) == Tokens(a) + Tokens(b)
  {
    hide ChunkTokens;
    if b == [] {
      assert a + b == a;
    } else {
      var n := |b| - 1;
      TokensAppend(a, b[..n]);
      assert b == b[..n] + [b[n]] && a + b == (a + b[..n]) + [b[n]];
      TokensSnoc(a + b[..n], b[n]);
      TokensSnoc(b[..n], b[n]);
      hide Tokens;
      Regroup(Tokens(a), Tokens(b[..n]), ChunkTokens(b[n]));
    }
  }

  lemma {:induction false} BytesAppend(a: seq<Token>, b: seq<Token>)
    ensures Bytes(a + b) == Bytes(a) + Bytes(b)
  {
    hide TokenBytes;
    if a == [] {
      assert a + b == b;
    } else {
      BytesAppend(a[1..], b);
      BytesAfter(a[0], a[1..] + b);
      assert a + b == [a[0]] + (a[1..] + b);
      Regroup(TokenBytes(a[0]), Bytes(a[1..]), Bytes(b));
    }
  }

  lemma {:induction false} ConcatSnoc(cuts: seq<seq<Byte>>, cut: seq<Byte>)
    ensures Concat(cuts + [cut]) == Concat(cuts) + cut
  {
    if cuts == [] {
      assert [cut][1..] == [];
    } else {
      ConcatSnoc(cuts[1..], cut);
      assert (cuts + [cut])[1..] == cuts[1..] + [cut];
    }
  }

  lemma {:induction false} TextBytes(s: seq<Byte>)
    ensures Bytes(TextTokens(s)) == s
  {
    if s != [] {
      TextBytes(s[1..]);
      assert TextTokens(s)[1..] == TextTokens(s[1..]) && s == [s[0]] + s[1..];
    }
  }

  /** Chunks are written byte for byte. */
  lemma {:induction false} ChunksConserve(chunks: seq<seq<Byte>>)
    ensures Bytes(Tokens(chunks)) == Concat(chunks)
  {
    if chunks != [] {
      var n := |chunks| - 1;
      ChunksConserve(chunks[..n]);
      assert chunks == chunks[..n] + [chunks[n]];
      ConcatSnoc(chunks[..n], chunks[n]);
      BytesAppend(Tokens(chunks[..n]), ChunkTokens(chunks[n]));
      TextBytes(chunks[n]);
      assert Bytes([Image(chunks[n])]) == chunks[n] + [];
    }
  }

  /** One framer over all reads and a final flush: what is written is what was read, cut only between
      text bytes and whole transmissions. */
  method Forward(inputs: seq<seq<Byte>>) returns (chunks: seq<seq<Byte>>, rest: seq<Byte>)
    ensures Concat(chunks) + rest == Concat(inputs)
    ensures var r := Parse(Concat(inputs), []);
            Tokens(chunks) == r.tokens && rest == r.transmission + r.pending
  {
    var framer := new Framer();
    chunks := [];
    for i := 0 to |inputs|
      invariant fresh(framer) && framer.Valid()
      invariant Scan(Tokens(chunks), framer.transmission, framer.pending) == Parse(Concat(inputs[..i]), [])
    {
      var output := framer.Push(inputs[i]);
      ParseComposes(Concat(inputs[..i]), inputs[i], []);
      TokensAppend(chunks, output);
      ConcatSnoc(inputs[..i], inputs[i]);
      assert inputs[..i + 1] == inputs[..i] + [inputs[i]];
      chunks := chunks + output;
    }
    assert inputs[..|inputs|] == inputs;
    rest := framer.Flush();
    ParseConserves(Concat(inputs), []);
    ChunksConserve(chunks);
    assert [] + Concat(inputs) == Concat(inputs);
  }
}
