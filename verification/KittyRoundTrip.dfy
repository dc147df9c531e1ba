/** Terminal output written down from text and whole transmissions comes out of the framer as exactly those. */
module KittyRoundTrip {
  import opened Collections
  import opened Search
  import opened KittyFramer

  /** One graphics command: ESC _ G control [; payload] ESC \. `lead` is what the terminal
      program wrote between the packet before and this one. */
  datatype Packet = Packet(lead: seq<Byte>, control: seq<Byte>, payload: Option<seq<Byte>>)

  datatype Piece = Plain(text: seq<Byte>) | Transmission(packets: seq<Packet>)

  // ---- writing

  function Body(p: Packet): seq<Byte> {
    p.control + if p.payload.Some? then [0x3b] + p.payload.value else []
  }

  function PrintPacket(p: Packet): seq<Byte> { p.lead + [0x1b, 0x5f, 0x47] + Body(p) + [0x1b, 0x5c] }

  function PrintPackets(packets: seq<Packet>): seq<Byte> {
    if packets == [] then [] else PrintPacket(packets[0]) + PrintPackets(packets[1..])
  }

  function Print(pieces: seq<Piece>): seq<Byte> {
    if pieces == [] then []
    else
      (match pieces[0] case Plain(text) => text case Transmission(packets) => PrintPackets(packets)) +
      Print(pieces[1..])
  }

  /** What the terminal is to receive: the text's bytes, and each transmission in one. */
  function Expected(pieces: seq<Piece>): seq<Token> {
    if pieces == [] then []
    else
      (match pieces[0]
       case Plain(text) => TextTokens(text)
       case Transmission(packets) => [Image(PrintPackets(packets))]) + Expected(pieces[1..])
  }

  // ---- what may be written

  ghost predicate Lacks(s: seq<Byte>, pat: seq<Byte>) { forall k :: !Occurs(s, pat, k) }

  ghost predicate Mentions(s: seq<Byte>, pat: seq<Byte>) { exists k :: Occurs(s, pat, k) }

  /** m=1 announces another packet, except with t=s, which names shared memory holding the whole frame. */
  ghost predicate Announces(p: Packet) {
    Mentions(p.control, [0x6d, 0x3d, 0x31]) && !Mentions(p.control, [0x74, 0x3d, 0x73])
  }

  ghost predicate PacketOk(p: Packet) {
    Lacks(p.lead, [0x1b, 0x5f, 0x47]) && Lacks(Body(p), [0x1b, 0x5c]) && 0x3b !in p.control
  }

  /** Every packet but the last announces another one. */
  ghost predicate Whole(packets: seq<Packet>) {
    && packets != []
    && (forall p :: p in packets ==> PacketOk(p))
    && (forall i :: 0 <= i < |packets| ==> (Announces(packets[i]) <==> i < |packets| - 1))
  }

  /** Text spells no escape and is not cut in two; nothing leads the first packet of a transmission. */
  ghost predicate Printable(pieces: seq<Piece>) {
    && (forall i :: 0 <= i < |pieces| ==>
          match pieces[i]
          case Plain(text) => Lacks(text, [0x1b, 0x5f, 0x47])
          case Transmission(packets) => Whole(packets) && packets[0].lead == [])
    && (forall i :: 0 <= i < |pieces| - 1 && pieces[i].Plain? ==> pieces[i + 1].Transmission?)
  }

  // ---- one packet

  lemma Differs(s: seq<Byte>, pat: seq<Byte>, k: int, i: nat)
    requires i < |pat| && (k < 0 || |s| <= k + i || s[k + i] != pat[i])
    ensures !Occurs(s, pat, k)
  {
  }

  lemma StillLacks(s: seq<Byte>, more: seq<Byte>, pat: seq<Byte>, k: nat)
    requires !Occurs(s, pat, k) && k + |pat| <= |s|
    ensures !Occurs(s + more, pat, k)
  {
    var i :| 0 <= i < |pat| && s[k + i] != pat[i];
    Differs(s + more, pat, k, i);
  }

  lemma OccursWithin(front: seq<Byte>, s: seq<Byte>, back: seq<Byte>, pat: seq<Byte>, k: int)
    requires Occurs(s, pat, k)
    ensures Occurs(front + s + back, pat, |front| + k)
  {
    forall i | 0 <= i < |pat|
      ensures (front + s + back)[|front| + k + i] == pat[i]
    {
      assert s[k + i] == pat[i];
    }
  }

  /** Bytes that the pattern does not use hide none of its occurrences. */
  lemma MentionsInside(front: seq<Byte>, s: seq<Byte>, back: seq<Byte>, pat: seq<Byte>)
    requires pat != [] && forall b :: b in front || b in back ==> b !in pat
    ensures Mentions(front + s + back, pat) <==> Mentions(s, pat)
  {
    var all := front + s + back;
    if Mentions(s, pat) {
      var k :| Occurs(s, pat, k);
      OccursWithin(front, s, back, pat, k);
    }
    if Mentions(all, pat) {
      var k :| Occurs(all, pat, k);
      OccursInside(front, s, back, pat, k);
    }
  }

  lemma OccursInside(front: seq<Byte>, s: seq<Byte>, back: seq<Byte>, pat: seq<Byte>, k: int)
    requires pat != [] && forall b :: b in front || b in back ==> b !in pat
    requires Occurs(front + s + back, pat, k)
    ensures Occurs(s, pat, k - |front|)
  {
    var all := front + s + back;
    var last := |pat| - 1;
    assert all[k + 0] == pat[0] && all[k + last] == pat[last];
    assert pat[0] in pat && pat[last] in pat;
    assert forall j :: 0 <= j < |front| ==> all[j] in front;
    assert forall j :: |front| + |s| <= j < |all| ==> all[j] == back[j - |front| - |s|];
    forall i | 0 <= i < |pat|
      ensures s[k - |front| + i] == pat[i]
    {
      assert all[k + i] == s[k - |front| + i];
    }
  }

  lemma ContainsIff(s: seq<Byte>, pat: seq<Byte>)
    requires pat != []
    ensures Contains(s, pat) <==> Mentions(s, pat)
  {
    IndexOfIsFirst(s, pat);
  }

  /** Without a lead: the packet's bytes up to its first semicolon, which is what follows its control string. */
  lemma HeaderIs(p: Packet)
    requires p.lead == [] && 0x3b !in p.control
    ensures Header(PrintPacket(p)) ==
            [0x1b, 0x5f, 0x47] + p.control + if p.payload.Some? then [] else [0x1b, 0x5c]
  {
    var packet := PrintPacket(p);
    var head := [0x1b, 0x5f, 0x47] + p.control;
    IndexOfIsFirst(packet, [SEMICOLON]);
    if p.payload.Some? {
      assert packet == head + [0x3b] + (p.payload.value + [0x1b, 0x5c]);
      assert packet[|head|] == 0x3b && packet[..|head|] == head;
      assert Occurs(packet, [SEMICOLON], |head|);
      forall j | 0 <= j < |head|
        ensures !Occurs(packet, [SEMICOLON], j)
      {
        assert packet[j] == head[j] && head[j] != 0x3b;
        Differs(packet, [SEMICOLON], j, 0);
      }
      IndexIs(packet, [SEMICOLON], |head|);
    } else {
      assert packet == head + [0x1b, 0x5c];
      forall j
        ensures !Occurs(packet, [SEMICOLON], j)
      {
        assert 0 <= j < |packet| ==> packet[j] in packet && packet[j] != 0x3b;
        Differs(packet, [SEMICOLON], j, 0);
      }
    }
  }

  lemma ContinuesIff(p: Packet)
    requires p.lead == [] && 0x3b !in p.control
    ensures Continues(PrintPacket(p)) <==> Announces(p)
  {
    HeaderIs(p);
    var header := Header(PrintPacket(p));
    var back := if p.payload.Some? then [] else [0x1b, 0x5c];
    ContainsIff(header, SHARED_MEMORY);
    ContainsIff(header, MORE);
    MentionsInside([0x1b, 0x5f, 0x47], p.control, back, SHARED_MEMORY);
    MentionsInside([0x1b, 0x5f, 0x47], p.control, back, MORE);
  }

  /** The end of a packet is found where it was written. */
  lemma PacketEnds(p: Packet, rest: seq<Byte>)
    requires p.lead == [] && PacketOk(p)
    ensures var s := PrintPacket(p) + rest;
            StartsWith(s, APC_START) && PacketLength(s) == |PrintPacket(p)|
  {
    var s := PrintPacket(p) + rest;
    var body := Body(p);
    assert s[..3] == APC_START;
    assert s[3..] == body + APC_END + rest;
    assert Occurs(s[3..], APC_END, |body|);
    forall j | 0 <= j < |body|
      ensures !Occurs(s[3..], APC_END, j)
    {
      assert !Occurs(body, APC_END, j);
      if j + 1 < |body| {
        StillLacks(body, APC_END + rest, APC_END, j);
        assert body + (APC_END + rest) == s[3..];
      } else {
        Differs(s[3..], APC_END, j, 1);
      }
    }
    IndexIs(s[3..], APC_END, |body|);
  }

  /** A packet without a lead joins the open transmission or ends it. */
  lemma PacketTaken(p: Packet, open: seq<Byte>, rest: seq<Byte>)
    requires p.lead == [] && PacketOk(p)
    ensures Parse(PrintPacket(p) + rest, open) ==
            if Announces(p) then Parse(rest, open + PrintPacket(p))
            else After(Image(open + PrintPacket(p)), Parse(rest, []))
  {
    var s := PrintPacket(p) + rest;
    PacketEnds(p, rest);
    ContinuesIff(p);
    var n := |PrintPacket(p)|;
    assert s[..n] == PrintPacket(p) && s[n..] == rest;
    hide Continues, PacketLength, Announces;
    assert FrontOf(s, open) == Take(n, Announces(p));
  }

  /** Text spells no escape where the next one begins either. */
  lemma NoneBefore(text: seq<Byte>, s: seq<Byte>)
    requires Lacks(text, APC_START) && StartsWith(s, APC_START)
    ensures forall j :: 0 <= j < |text| ==> !Occurs(text + s, APC_START, j)
  {
    forall j | 0 <= j < |text|
      ensures !Occurs(text + s, APC_START, j)
    {
      assert !Occurs(text, APC_START, j);
      assert s[..3] == APC_START && s[0] == s[..3][0];
      if j + 2 < |text| {
        StillLacks(text, s, APC_START, j);
      } else {
        Differs(text + s, APC_START, j, |text| - j);
      }
    }
  }

  /** What leads a packet inside a transmission joins it, like the packet. */
  lemma LedPacketTaken(p: Packet, open: seq<Byte>, rest: seq<Byte>)
    requires PacketOk(p) && (p.lead == [] || open != [])
    ensures Parse(PrintPacket(p) + rest, open) ==
            if Announces(p) then Parse(rest, open + PrintPacket(p))
            else After(Image(open + PrintPacket(p)), Parse(rest, []))
  {
    var bare := p.(lead := []);
    var s := PrintPacket(bare) + rest;
    assert PrintPacket(p) == p.lead + PrintPacket(bare);
    assert Body(bare) == Body(p);
    assert Lacks([], APC_START);
    Regroup(p.lead, PrintPacket(bare), rest);
    Regroup(open, p.lead, PrintPacket(bare));
    PacketTaken(bare, open + p.lead, rest);
    if p.lead == [] {
      assert open + p.lead == open && [] + s == s;
    } else {
      PacketEnds(bare, rest);
      NoneBefore(p.lead, s);
      hide Parse, Announces, PrintPacket;
      TextRun(p.lead + s, |p.lead|, open);
      assert (p.lead + s)[|p.lead|..] == s && (p.lead + s)[..|p.lead|] == p.lead;
    }
  }

  // ---- whole streams

  /** A transmission's packets leave together as one image. */
  lemma {:induction false} PacketsTaken(packets: seq<Packet>, open: seq<Byte>, rest: seq<Byte>)
    requires Whole(packets) && (packets[0].lead == [] || open != [])
    ensures Parse(PrintPackets(packets) + rest, open) ==
            After(Image(open + PrintPackets(packets)), Parse(rest, []))
    decreases |packets|
  {
    var p := packets[0];
    var more := PrintPackets(packets[1..]);
    assert p in packets && (Announces(p) <==> 0 < |packets| - 1);
    Regroup(PrintPacket(p), more, rest);
    Regroup(open, PrintPacket(p), more);
    LedPacketTaken(p, open, more + rest);
    hide Parse, Announces, PacketOk;
    if |packets| == 1 {
      assert more + rest == rest && PrintPacket(p) + more == PrintPacket(p);
    } else {
      WholeTail(packets);
      assert open + PrintPacket(p) != [];
      PacketsTaken(packets[1..], open + PrintPacket(p), rest);
    }
  }

  lemma WholeTail(packets: seq<Packet>)
    requires Whole(packets) && |packets| > 1
    ensures Whole(packets[1..])
  {
    hide Announces, PacketOk;
    var rest := packets[1..];
    forall i | 0 <= i < |rest|
      ensures Announces(rest[i]) <==> i < |rest| - 1
    {
      assert rest[i] == packets[i + 1];
    }
  }

  lemma {:induction false} PacketsStart(packets: seq<Packet>)
    requires packets != [] && packets[0].lead == []
    ensures StartsWith(PrintPackets(packets), APC_START)
  {
    var more := PrintPackets(packets[1..]);
    assert (PrintPacket(packets[0]) + more)[..3] == APC_START;
  }

  /** Text in front of a transmission leaves byte by byte. */
  lemma TextTaken(text: seq<Byte>, s: seq<Byte>)
    requires Lacks(text, APC_START) && StartsWith(s, APC_START)
    ensures var rest := Parse(s, []);
            Parse(text + s, []) == rest.(tokens := TextTokens(text) + rest.tokens)
  {
    NoneBefore(text, s);
    TextRun(text + s, |text|, []);
    assert (text + s)[|text|..] == s && (text + s)[..|text|] == text;
  }

  /** Text at the end leaves but for at most two bytes, in which an escape might start. */
  lemma LastText(text: seq<Byte>)
    requires Lacks(text, APC_START)
    ensures var r := Parse(text, []);
            r.transmission == [] && |r.pending| <= 2 && r.tokens + TextTokens(r.pending) == TextTokens(text)
  {
    if |text| >= 2 {
      var k := |text| - 2;
      TextRun(text, k, []);
      assert Parse(text[k..], []) == Scan([], [], text[k..]);
      assert TextTokens(text[..k]) + [] == TextTokens(text[..k]);
      assert text == text[..k] + text[k..];
      assert TextTokens(text[..k]) + TextTokens(text[k..]) == TextTokens(text);
    } else {
      assert [] + TextTokens(text) == TextTokens(text);
    }
  }

  lemma PrintableTail(pieces: seq<Piece>)
    requires Printable(pieces) && pieces != []
    ensures Printable(pieces[1..])
  {
    hide Lacks, Whole;
    forall i | 0 <= i < |pieces| - 1
      ensures pieces[1..][i] == pieces[i + 1]
    {
    }
  }

  /** Parsing what was written down yields each transmission as one image with all its packets, and the
      text between; only the last bytes of trailing text wait for more. */
  lemma {:induction false} ParsingInvertsPrinting(pieces: seq<Piece>)
    requires Printable(pieces)
    ensures var r := Parse(Print(pieces), []);
            r.transmission == [] && |r.pending| <= 2 && r.tokens + TextTokens(r.pending) == Expected(pieces)
  {
    if pieces == [] {
      assert [] + TextTokens([]) == [];
    } else {
      var rest := pieces[1..];
      PrintableTail(pieces);
      ParsingInvertsPrinting(rest);
      var after := Parse(Print(rest), []);
      match pieces[0]
      case Transmission(packets) =>
        PacketsTaken(packets, [], Print(rest));
        hide Parse, PrintPackets, Whole, Lacks, TextTokens;
        assert [] + PrintPackets(packets) == PrintPackets(packets);
        Regroup([Image(PrintPackets(packets))], after.tokens, TextTokens(after.pending));
      case Plain(text) =>
        if rest == [] {
          assert text + Print(rest) == text && TextTokens(text) + Expected(rest) == TextTokens(text);
          hide Parse, Print, Expected;
          LastText(text);
        } else {
          PrintStart(pieces);
          hide Parse, Print, Whole, Lacks;
          TextTaken(text, Print(rest));
          Regroup(TextTokens(text), after.tokens, TextTokens(after.pending));
        }
    }
  }

  lemma PrintStart(pieces: seq<Piece>)
    requires Printable(pieces) && |pieces| > 1 && pieces[0].Plain?
    ensures StartsWith(Print(pieces[1..]), APC_START)
  {
    hide Whole, Lacks;
    assert pieces[0 + 1].Transmission? && pieces[1..][0] == pieces[1];
    var packets := pieces[1].packets;
    assert packets != [] && packets[0].lead == [] by { WholeHead(pieces, 1); }
    PacketsStart(packets);
    var s := PrintPackets(packets);
    hide PrintPackets;
    assert (s + Print(pieces[1..][1..]))[..3] == s[..3];
  }

  lemma WholeHead(pieces: seq<Piece>, i: nat)
    requires Printable(pieces) && i < |pieces| && pieces[i].Transmission?
    ensures pieces[i].packets != [] && pieces[i].packets[0].lead == []
  {
  }

  /** However its reads are cut, the framer then hands on exactly those transmissions and that text. */
  lemma AnyCutsOfPrinted(pieces: seq<Piece>, cuts: seq<seq<Byte>>)
    requires Printable(pieces) && Concat(cuts) == Print(pieces)
    ensures var r := Stream(cuts, [], []);
            r.transmission == [] && r.tokens + TextTokens(r.pending) == Expected(pieces)
  {
    StreamingEqualsBatch(cuts);
    ParsingInvertsPrinting(pieces);
  }
}
