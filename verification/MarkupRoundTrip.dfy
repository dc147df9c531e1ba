/** Parsing as the inverse of printing: nested formatting, entities, links, addresses, code, and whole
    lines that are headings, small text or quotes, in any sequence, come back exactly. */
module MarkupRoundTrip {
  import opened Collections
  import opened Search
  import opened Markup
  import opened MarkupFinds

  // ---- what is printed

  datatype Node =
    | Plain(text: string)
    | Wrapped(style: Style, body: seq<Node>)
    | Slanted(style: Style, triple: bool, body: seq<Node>)
    | Custom(name: string, id: nat, animated: bool)
    | User(id: nat, nickname: bool)
    | Role(id: nat)
    | ChannelRef(id: nat)
    | Time(unix: nat, look: Option<string>)
    | Verbatim(code: string)
    | Fenced(before: nat, code: string, after: nat)
    | Linked(title: string, address: string)
    | ChannelAt(guild: nat, channel: nat)
    | MessageAt(guild: nat, channel: nat, message: nat)
    | InviteTo(code: string, short: bool)
    | Web(address: string)
    | SmallPrint(text: string)
    | Titled(level: nat, body: seq<Node>)
    | Quoting(lines: seq<Line>, toTheEnd: bool, after: nat)

  datatype Line = Line(nodes: seq<Node>)

  predicate IsAddress(n: Node) { n.ChannelAt? || n.MessageAt? || n.InviteTo? || n.Web? }

  /** Takes a whole line, or all lines that follow. */
  predicate IsLine(n: Node) { n.SmallPrint? || n.Titled? || n.Quoting? }

  /** internal/picker: the inline form of a custom emoji. */
  function EmojiMention(id: nat, name: string, animated: bool): string {
    (if animated then "<a:" else "<:") + name + ":" + FormatUint(id) + ">"
  }

  function FencedText(n: Node): string
    requires n.Fenced?
  {
    Breaks(n.before) + n.code + Breaks(n.after)
  }

  function Print(n: Node): string {
    match n
    case Plain(text) => text
    case Wrapped(style, body) => Delim(style) + PrintAll(body) + Delim(style)
    case Slanted(style, triple, body) => Slant(style, triple) + PrintAll(body) + Slant(style, triple)
    case Custom(name, id, animated) => EmojiMention(id, name, animated)
    case User(id, nickname) => "<" + ((if nickname then "@!" else "@") + FormatUint(id)) + ">"
    case Role(id) => "<" + ("@&" + FormatUint(id)) + ">"
    case ChannelRef(id) => "<" + ("#" + FormatUint(id)) + ">"
    case Time(unix, look) => "<" + ("t:" + FormatUint(unix) + if look.Some? then ":" + look.value else "") + ">"
    case Verbatim(code) => "`" + code + "`"
    case Fenced(_, _, _) => "```" + FencedText(n) + "```"
    case Linked(title, address) => "[" + title + "](" + address + ")"
    case ChannelAt(g, c) => "https://discord.com/channels/" + (FormatUint(g) + "/" + FormatUint(c))
    case MessageAt(g, c, m) =>
      "https://discord.com/channels/" + (FormatUint(g) + "/" + FormatUint(c) + "/" + FormatUint(m))
    case InviteTo(code, short) => (if short then "https://discord.gg/" else "https://discord.com/invite/") + code
    case Web(address) => address
    case SmallPrint(text) => "-# " + text
    case Titled(level, body) => Hashes(level) + " " + PrintAll(body)
    case Quoting(lines, toTheEnd, after) =>
      (if toTheEnd then ">>> " else "> ") + JoinLines(Texts(lines)) + Breaks(after)
  }

  function PrintAll(nodes: seq<Node>): string {
    if nodes == [] then "" else Print(nodes[0]) + PrintAll(nodes[1..])
  }

  function PrintLine(l: Line): string { PrintAll(l.nodes) }

  function Texts(lines: seq<Line>): (texts: seq<string>)
    ensures |texts| == |lines|
  {
    seq(|lines|, i requires 0 <= i < |lines| => PrintLine(lines[i]))
  }

  // ---- what may be printed

  function Sketch(n: Node): string { if n.Plain? then n.text else "`" }

  /** The plain text, with one mark in place of every other piece. */
  function Outline(nodes: seq<Node>): string {
    if nodes == [] then "" else Sketch(nodes[0]) + Outline(nodes[1..])
  }

  /** No address anywhere and no line construct at the start of a line; `start` says whether one starts here. */
  predicate HarmlessAfter(x: string, start: bool) {
    forall k :: 0 <= k < |x| ==>
      !StartsURL(x, k) && ((if k == 0 then start else x[k - 1] == '\n') ==> !StartsLine(x, k))
  }

  predicate Harmless(x: string) { HarmlessAfter(x, true) }

  /** No mark doubled, as the delimiters of these styles are. */
  predicate Avoids(text: string, used: Format) {
    forall i, s :: 0 <= i < |text| - 1 && s in used ==> text[i] != Mark(s) || text[i + 1] != Mark(s)
  }

  /** An italic text in one mark contains that mark nowhere. */
  predicate SlantOk(style: Style, triple: bool, body: seq<Node>, used: Format) {
    Slants(style) && style !in used && body != [] && (!triple ==> Lacks(PrintAll(body), Mark(style)))
  }

  /** Names, titles, addresses and code do not contain what ends them or a delimiter around them; wrappers are
      nested in no wrapper of their own kind nor empty; whole lines stand outside every wrapper. */
  predicate Printable(n: Node, used: Format) {
    match n
    case Plain(text) => text != "" && forall i :: 0 <= i < |text| ==> !Opens(text[i])
    case Wrapped(style, body) => style != Italic && style !in used && body != [] && BodyOk(body, used + {style})
    case Slanted(style, triple, body) => SlantOk(style, triple, body, used) && BodyOk(body, used + {style})
    case Custom(name, id, _) => name != "" && Lacks(name, ':') && Lacks(name, '>') && id < TWO64 && Avoids(name, used)
    case User(id, _) => id < TWO64
    case Role(id) => id < TWO64
    case ChannelRef(id) => id < TWO64
    case Time(unix, look) => unix < TWO64 && (look.Some? ==> Lacks(look.value, '>') && Avoids(look.value, used))
    case Verbatim(code) => code != "" && Lacks(code, '`') && Avoids(code, used)
    case Fenced(_, code, _) =>
      (code != "" ==> code[0] != '\n' && code[|code| - 1] != '\n') &&
      FenceClear(FencedText(n)) && Avoids(FencedText(n), used)
    case Linked(title, address) => Lacks(title, ']') && Lacks(address, ')') && Avoids(title, used) &&
      Avoids(address, used)
    case ChannelAt(g, c) => g < TWO64 && c < TWO64
    case MessageAt(g, c, m) => g < TWO64 && c < TWO64 && m < TWO64
    case InviteTo(code, _) => code != "" && forall i :: 0 <= i < |code| ==> IsCodeChar(code[i])
    case Web(address) =>
      (StartsWith(address, "http://") || StartsWith(address, "https://")) && !StartsWith(address, "https://discord.") &&
      AllURL(address) && Avoids(address, used) &&
      forall s :: s in used ==> address[|address| - 1] != Mark(s)
    case SmallPrint(text) => used == {} && NoBreak(text)
    case Titled(level, body) =>
      used == {} && 1 <= level <= 6 && NoBreak(PrintAll(body)) && BodyOk(body, {}) && HeadingKept(body)
    case Quoting(lines, toTheEnd, after) =>
      used == {} && lines != [] && (forall l :: l in lines ==> LineOk(l)) &&
      (if toTheEnd then |lines| == 1 || PrintLine(lines[|lines| - 1]) != "" else |lines| == 1 && after == 0)
  }

  predicate BodyOk(body: seq<Node>, used: Format)
    decreases body, 1
  {
    AllPrintable(body, used) && Joined(body, true) && Harmless(Outline(body))
  }

  predicate LineOk(l: Line) { NoBreak(PrintLine(l)) && BodyOk(l.nodes, {}) }

  predicate AllPrintable(nodes: seq<Node>, used: Format)
    decreases nodes, 0
  {
    nodes == [] || (Printable(nodes[0], used) && AllPrintable(nodes[1..], used))
  }

  /** What may follow: an address is ended by a character no address holds; a whole line is one, and small
      text needs a character or a line break after its mark; a quote to the end is the end. */
  predicate Fits(n: Node, start: bool, rest: string) {
    if IsAddress(n) then Stops(rest)
    else if IsLine(n) then
      start && (n.SmallPrint? && n.text == "" ==> rest != "") &&
      (rest == "" || (rest[0] == '\n' && !(n.Quoting? && n.toTheEnd)))
    else true
  }

  predicate BreaksAtEnd(n: Node) { n.Plain? && n.text != "" && n.text[|n.text| - 1] == '\n' }

  predicate Joined(nodes: seq<Node>, start: bool) {
    nodes == [] || (Fits(nodes[0], start, PrintAll(nodes[1..])) && Joined(nodes[1..], BreaksAtEnd(nodes[0])))
  }

  /** The formats of the letters, and None for any other piece. */
  function Shades(nodes: seq<Node>, format: Format): set<Option<Format>> {
    if nodes == [] then {}
    else
      (match nodes[0]
       case Plain(_) => {Some(format)}
       case Wrapped(style, body) => Shades(body, format + {style})
       case Slanted(style, triple, body) => Shades(body, format + SlantFormat(style, triple))
       case _ => {None}) + Shades(nodes[1..], format)
  }

  predicate AllPlain(nodes: seq<Node>) { forall n :: n in nodes ==> n.Plain? }

  /** A heading that is nothing but text with two or more styles at once loses them. */
  predicate HeadingKept(body: seq<Node>) {
    forall shade :: shade in Shades(body, {}) && Shades(body, {}) == {shade} ==> shade.None? || |shade.value| <= 1
  }

  // ---- what it means

  /** A letter with its formatting, the level of its heading and whether it is quoted; or a span
      that is not formatted text. */
  datatype Atom = Letter(c: char, format: Format, level: nat, quoted: bool) | Whole(span: Span)

  function Char(c: char, format: Format): Atom { Letter(c, format, 0, false) }

  function LettersAt(text: string, format: Format, level: nat, quoted: bool): (a: seq<Atom>)
    ensures |a| == |text|
  {
    seq(|text|, i requires 0 <= i < |text| => Letter(text[i], format, level, quoted))
  }

  function Letters(text: string, format: Format): (a: seq<Atom>)
    ensures |a| == |text|
  {
    LettersAt(text, format, 0, false)
  }

  function Raised(atoms: seq<Atom>, level: nat): (a: seq<Atom>)
    ensures |a| == |atoms|
  {
    seq(|atoms|, i requires 0 <= i < |atoms| =>
      match atoms[i]
      case Letter(c, format, _, quoted) => Letter(c, format, level, quoted)
      case Whole(s) => Whole(s.(headerLevel := level)))
  }

  function Cited(atoms: seq<Atom>): (a: seq<Atom>)
    ensures |a| == |atoms|
  {
    seq(|atoms|, i requires 0 <= i < |atoms| =>
      match atoms[i]
      case Letter(c, format, level, _) => Letter(c, format, level, true)
      case Whole(s) => Whole(s.(quoted := true)))
  }

  predicate IsLeaf(n: Node) { !n.Plain? && !n.Wrapped? && !n.Slanted? && !n.Titled? && !n.Quoting? }

  /** Text of a fake emoji or sticker: what follows the marker in the title. */
  function SharedName(title: string, marker: string): Option<string> {
    if |title| > |marker| && title[..|marker|] == marker then Some(title[|marker|..]) else None
  }

  function MediaName(name: string, otherwise: string): string { if name == "" then otherwise else name }

  /** The one span a piece becomes outside every wrapper. */
  function LeafSpan(n: Node, env: Env): Span
    requires IsLeaf(n)
  {
    match n
    case Custom(name, id, animated) => Span(Emoji, ":" + name + ":", "", 0, false, {}, 0, id, animated, None)
    case User(id, _) =>
      Span(Mention, "@" + env.member(id), "", 0, false, {}, 0, 0, false, Some(Action(UserProfile, FormatUint(id))))
    case Role(id) =>
      Span(RoleMention, "@" + env.role(id).0, "", 0, false, {}, env.role(id).1, 0, false,
           Some(Action(RoleDetails, FormatUint(id))))
    case ChannelRef(id) => Span(ChannelMention, "#" + env.channel(id), "", 0, false, {}, 0, 0, false, None)
    case Time(unix, look) =>
      var shape := if look.Some? && look.value != "" then look.value else "f";
      Span(Timestamp, env.timestamp(unix, shape), "", 0, false, {}, 0, 0, false, None)
    case Verbatim(code) => Span(Code, code, "", 0, false, {}, 0, 0, false, None)
    case Fenced(_, code, _) => Span(CodeBlock, code, "", 0, false, {}, 0, 0, false, None)
    case Linked(title, address) =>
      if env.classify(address) == EmojiUrl && SharedName(title, "emoji_").Some? then
        Span(FakeEmoji, SharedName(title, "emoji_").value, address, 0, false, {}, 0, 0, false, None)
      else if env.classify(address) == StickerUrl && SharedName(title, "sticker_").Some? then
        Span(FakeSticker, SharedName(title, "sticker_").value, address, 0, false, {}, 0, 0, false, None)
      else
        Span(Link, title, address, 0, false, {}, 0, 0, false, Some(Action(OpenURL, address)))
    case ChannelAt(g, c) =>
      Span(ChannelLink, "#" + env.channel(c), "", 0, false, {}, 0, 0, false,
           Some(Action(ToChannel, FormatUint(g) + "/" + FormatUint(c))))
    case MessageAt(g, c, m) =>
      Span(MessageLink, "#" + env.channel(c) + " \U{21B7} " + FormatUint(m), "", 0, false, {}, 0, 0, false,
           Some(Action(ToMessage, FormatUint(g) + "/" + FormatUint(c) + "/" + FormatUint(m))))
    case InviteTo(code, _) =>
      Span(InviteLink, "discord.gg/" + code, "", 0, false, {}, 0, 0, false, Some(Action(Invite, code)))
    case Web(address) =>
      if env.queryName(address).Some? && env.classify(address) == EmojiUrl then
        Span(FakeEmoji, MediaName(env.queryName(address).value, "emoji"), address, 0, false, {}, 0, 0, false, None)
      else if env.queryName(address).Some? && env.classify(address) == StickerUrl then
        Span(FakeSticker, MediaName(env.queryName(address).value, "sticker"), address, 0, false, {}, 0, 0, false, None)
      else
        Span(Link, address, address, 0, false, {}, 0, 0, false, Some(Action(OpenURL, address)))
    case SmallPrint(text) => Span(Small, text, "", 0, false, {}, 0, 0, false, None)
  }

  function HeaderOf(text: string, level: nat): Span { Span(Header, text, "", level, false, {}, 0, 0, false, None) }

  /** What stands before a quoted line. */
  function Gutter(first: bool): Span {
    Span(Quote, if first then "\U{258F} " else "\n\U{258F} ", "", 0, false, {}, 0, 0, false, None)
  }

  function Meaning(n: Node, env: Env, format: Format): seq<Atom> {
    match n
    case Plain(text) => Letters(text, format)
    case Wrapped(style, body) => MeaningAll(body, env, format + {style})
    case Slanted(style, triple, body) =>
      MeaningAll(body, env, format + if triple then {style, Italic} else {Italic})
    case Titled(level, body) =>
      if AllPlain(body) && body != [] then [Whole(HeaderOf(PrintAll(body), level))]
      else [Whole(HeaderOf("", level))] + Raised(MeaningAll(body, env, {}), level)
    case Quoting(lines, _, _) => MeaningLines(lines, env)
    case _ =>
      var span := LeafSpan(n, env);
      [Whole(if n.Verbatim? || n.Fenced? then span else span.(format := format))]
  }

  function MeaningAll(nodes: seq<Node>, env: Env, format: Format): seq<Atom> {
    if nodes == [] then [] else Meaning(nodes[0], env, format) + MeaningAll(nodes[1..], env, format)
  }

  function MeaningLine(l: Line, env: Env): seq<Atom> { MeaningAll(l.nodes, env, {}) }

  function MeaningLines(lines: seq<Line>, env: Env): seq<Atom> {
    if lines == [] then []
    else
      var k := |lines| - 1;
      MeaningLines(lines[..k], env) + [Whole(Gutter(k == 0))] + Cited(MeaningLine(lines[k], env))
  }

  function FormatOf(s: Span): Format {
    match s.kind
    case BoldText => {Bold}
    case ItalicText => {Italic}
    case UnderlineText => {Underline}
    case StrikeText => {Strike}
    case SpoilerText => {Spoiler}
    case _ => s.format
  }

  /** A span of formatted text as its letters, any other as it is. */
  function Read(s: Span): seq<Atom> {
    if s.(headerLevel := 0, quoted := false) == FormattedText(s.text, FormatOf(s))
    then LettersAt(s.text, FormatOf(s), s.headerLevel, s.quoted)
    else [Whole(s)]
  }

  function ReadAll(spans: seq<Span>): seq<Atom> {
    if spans == [] then [] else Read(spans[0]) + ReadAll(spans[1..])
  }

  // ---- reading spans

  lemma ReadCons(x: Span, rest: seq<Span>)
    ensures ReadAll([x] + rest) == Read(x) + ReadAll(rest)
  {
    assert ([x] + rest)[1..] == rest;
  }

  lemma ReadOne(x: Span)
    ensures ReadAll([x]) == Read(x)
  {
    assert ReadAll([x]) == Read(x) + [];
  }

  lemma {:induction false} ReadAppend(a: seq<Span>, b: seq<Span>)
    ensures ReadAll(a + b) == ReadAll(a) + ReadAll(b)
  {
    assert ReadAll([]) == [];
    hide Read, ReadAll;
    if a == [] {
      assert a + b == b;
      Rejoin([], [], ReadAll(b));
    } else {
      var rest := a[1..];
      ReadAppend(rest, b);
      ReadCons(a[0], rest);
      ReadCons(a[0], rest + b);
      assert a == [a[0]] + rest;
      Rejoin([a[0]], rest, b);
      Rejoin(Read(a[0]), ReadAll(rest), ReadAll(b));
    }
  }

  lemma ReadText(buf: string, format: Format)
    ensures Read(FormattedText(buf, format)) == Letters(buf, format)
  {
  }

  lemma ReadFlush(buf: string, format: Format)
    ensures ReadAll(Flush(buf, format)) == Letters(buf, format)
  {
    if buf != "" {
      ReadOne(FormattedText(buf, format));
      ReadText(buf, format);
    }
  }

  lemma LettersAppend(a: string, b: string, format: Format)
    ensures Letters(a + b, format) == Letters(a, format) + Letters(b, format)
  {
  }

  lemma NoLetters(format: Format)
    ensures Letters("", format) == []
  {
  }

  lemma OneLetter(c: char, format: Format)
    ensures Letters([c], format) == [Char(c, format)]
  {
  }

  predicate IsText(kind: Kind) {
    kind == Text || kind == BoldText || kind == ItalicText || kind == UnderlineText || kind == StrikeText ||
    kind == SpoilerText
  }

  lemma ReadsWhole(s: Span)
    requires !IsText(s.kind)
    ensures ReadAll([s]) == [Whole(s)]
  {
    ReadOne(s);
  }

  /** The level of a heading shows on everything in it. */
  lemma ReadRaised(s: Span, level: nat)
    ensures Read(s.(headerLevel := level)) == Raised(Read(s), level)
  {
    var plain := s.(headerLevel := 0, quoted := false);
    assert s.(headerLevel := level).(headerLevel := 0, quoted := false) == plain;
  }

  lemma RaisedAppend(a: seq<Atom>, b: seq<Atom>, level: nat)
    ensures Raised(a + b, level) == Raised(a, level) + Raised(b, level)
  {
  }

  lemma {:induction false} LevelledReads(spans: seq<Span>, level: nat)
    ensures ReadAll(Levelled(spans, level, {})) == Raised(ReadAll(spans), level)
  {
    if spans == [] {
      assert Raised([], level) == [];
    } else {
      var n := |spans| - 1;
      var last := spans[n].(headerLevel := level);
      LevelledReads(spans[..n], level);
      assert last.(format := last.format + {}) == last;
      assert Levelled(spans, level, {}) == Levelled(spans[..n], level, {}) + [last];
      assert spans == spans[..n] + [spans[n]];
      hide Levelled, Read, Raised;
      ReadAppend(Levelled(spans[..n], level, {}), [last]);
      ReadAppend(spans[..n], [spans[n]]);
      ReadOne(last);
      ReadOne(spans[n]);
      ReadRaised(spans[n], level);
      RaisedAppend(ReadAll(spans[..n]), Read(spans[n]), level);
    }
  }

  lemma ReadQuoted(s: Span)
    ensures Read(s.(quoted := true)) == Cited(Read(s))
  {
    var plain := s.(headerLevel := 0, quoted := false);
    assert s.(quoted := true).(headerLevel := 0, quoted := false) == plain;
  }

  lemma CitedAppend(a: seq<Atom>, b: seq<Atom>)
    ensures Cited(a + b) == Cited(a) + Cited(b)
  {
  }

  lemma {:induction false} QuotedReads(spans: seq<Span>)
    ensures ReadAll(MarkQuoted(spans)) == Cited(ReadAll(spans))
  {
    if spans == [] {
      assert Cited([]) == [];
    } else {
      var rest := spans[1..];
      QuotedReads(rest);
      assert MarkQuoted(spans) == [spans[0].(quoted := true)] + MarkQuoted(rest);
      assert spans == [spans[0]] + rest;
      hide MarkQuoted, Read, Cited;
      ReadCons(spans[0].(quoted := true), MarkQuoted(rest));
      ReadCons(spans[0], rest);
      ReadQuoted(spans[0]);
      CitedAppend(Read(spans[0]), ReadAll(rest));
    }
  }

  // ---- text in front of other pieces

  /** Characters no piece other than text begins with, and no line break. */
  predicate Inner(pat: string) {
    forall k :: 0 <= k < |pat| ==> !Opens(pat[k]) && pat[k] != 'h' && pat[k] != '\n'
  }

  lemma AddressStarts(n: Node)
    requires IsAddress(n) && Printable(n, {})
    ensures |Print(n)| >= 7 && Print(n)[0] == 'h'
  {
    hide FormatUint;
    if n.Web? {
      if StartsWith(n.address, "http://") { assert n.address[0] == n.address[..7][0]; }
      if StartsWith(n.address, "https://") { assert n.address[0] == n.address[..8][0]; }
    }
  }

  lemma PieceOpens(n: Node)
    requires !n.Plain? && !IsAddress(n) && !IsLine(n)
    ensures Print(n) != "" && Opens(Print(n)[0])
  {
    hide FormatUint, PrintAll, FencedText;
  }

  lemma StartsOtherwise(n: Node, used: Format, rest: string, pat: string)
    requires !n.Plain? && !IsLine(n) && Printable(n, used) && pat != "" && Inner(pat)
    ensures !StartsWith(Print(n) + rest, pat)
  {
    if IsAddress(n) {
      PrintableOutside(n, used);
      AddressStarts(n);
    } else {
      PieceOpens(n);
    }
    hide Print;
    var x := Print(n) + rest;
    assert |pat| <= |x| ==> x[..|pat|][0] == x[0] == Print(n)[0];
  }

  lemma PrintableOutside(n: Node, used: Format)
    requires Printable(n, used) && IsLeaf(n)
    ensures Printable(n, {})
  {
  }

  /** What the printed text starts with, its plain text does. */
  lemma {:induction false} OutlinePrefix(nodes: seq<Node>, used: Format, pat: string)
    requires AllPrintable(nodes, used) && Joined(nodes, false) && Inner(pat) && StartsWith(PrintAll(nodes), pat)
    ensures StartsWith(Outline(nodes), pat)
    decreases |nodes|, 1
  {
    if nodes != [] && pat != "" {
      var n, rest := nodes[0], PrintAll(nodes[1..]);
      assert PrintAll(nodes) == Print(n) + rest;
      if n.Plain? {
        PlainPrefix(nodes, used, pat, false);
      } else {
        StartsOtherwise(n, used, rest, pat);
      }
    }
  }

  lemma CutPattern(text: string, rest: string, pat: string)
    requires StartsWith(text + rest, pat)
    ensures if |pat| <= |text| then StartsWith(text, pat)
            else pat == text + pat[|text|..] && StartsWith(rest, pat[|text|..])
  {
    var x := text + rest;
    assert x[..|pat|] == pat;
    if |pat| <= |text| {
      assert text[..|pat|] == x[..|pat|];
    } else {
      var left := pat[|text|..];
      assert forall k :: 0 <= k < |text| ==> pat[k] == x[..|pat|][k] == text[k];
      assert forall k :: 0 <= k < |left| ==> left[k] == pat[|text| + k] == x[..|pat|][|text| + k] == rest[k];
      assert rest[..|left|] == left;
    }
  }

  lemma {:induction false} PlainPrefix(nodes: seq<Node>, used: Format, pat: string, start: bool)
    requires AllPrintable(nodes, used) && Joined(nodes, start) && nodes != [] && nodes[0].Plain?
    requires NoBreak(pat) && pat != "" && Inner(pat[1..]) && StartsWith(PrintAll(nodes), pat)
    ensures StartsWith(Outline(nodes), pat)
    decreases |nodes|, 0
  {
    var text, rest := nodes[0].text, nodes[1..];
    assert PrintAll(nodes) == text + PrintAll(rest);
    CutPattern(text, PrintAll(rest), pat);
    var more := Outline(rest);
    if |pat| <= |text| {
      assert (text + more)[..|pat|] == text[..|pat|];
    } else {
      var left := pat[|text|..];
      assert forall k :: 0 <= k < |left| ==> left[k] == pat[1..][|text| - 1 + k];
      assert pat[|text| - 1] == text[|text| - 1];
      OutlinePrefix(rest, used, left);
      assert (text + more)[..|pat|] == text + more[..|left|] == pat;
    }
  }

  /** At the front of printed plain text nothing starts. */
  lemma PlainFront(env: Env, src: string, i: nat, nodes: seq<Node>, used: Format)
    requires i < |src| && src[i..] == PrintAll(nodes) && AllPrintable(nodes, used) && nodes != [] && nodes[0].Plain?
    requires Joined(nodes, AtLineStart(src, i)) && HarmlessAfter(Outline(nodes), AtLineStart(src, i))
    ensures Find(env, src, i).Nothing?
  {
    var o, start := Outline(nodes), AtLineStart(src, i);
    PlainStart(nodes, used);
    assert src[i] == src[i..][0] == o[0] && o[0..] == o;
    assert !StartsURL(o, 0) && (start ==> !StartsLine(o, 0));
    hide PrintAll, Outline, AllPrintable, Joined, HarmlessAfter, Find, Opens;
    NoPattern(src, i, nodes, used, "http://", start);
    NoPattern(src, i, nodes, used, "https://", start);
    NoPattern(src, i, nodes, used, "-#", start);
    PlainIsLiteral(env, src, i);
  }

  lemma NoPattern(src: string, i: nat, nodes: seq<Node>, used: Format, pat: string, start: bool)
    requires i < |src| && src[i..] == PrintAll(nodes) && AllPrintable(nodes, used) && nodes != [] && nodes[0].Plain?
    requires Joined(nodes, start) && (pat == "http://" || pat == "https://" || pat == "-#")
    ensures Has(src, i, pat) ==> StartsWith(Outline(nodes), pat)
  {
    assert NoBreak(pat) && Inner(pat[1..]);
    hide PrintAll, Outline, AllPrintable, Joined;
    if Has(src, i, pat) { PlainPrefix(nodes, used, pat, start); }
  }

  lemma PlainStart(nodes: seq<Node>, used: Format)
    requires AllPrintable(nodes, used) && nodes != [] && nodes[0].Plain?
    ensures nodes[0].text != "" && !Opens(nodes[0].text[0])
    ensures PrintAll(nodes) != "" && PrintAll(nodes)[0] == nodes[0].text[0]
    ensures Outline(nodes) != "" && Outline(nodes)[0] == nodes[0].text[0]
  {
  }

  // ---- harmless text, piece by piece

  lemma HasTail(x: string, k: nat, pat: string)
    requires 0 < |x| && k < |x|
    ensures Has(x[1..], k, pat) == Has(x, k + 1, pat)
  {
    assert x[1..][k..] == x[k + 1..];
  }

  lemma HarmlessTail(x: string, start: bool)
    requires x != "" && HarmlessAfter(x, start)
    ensures HarmlessAfter(x[1..], x[0] == '\n')
  {
    hide Has;
    var tail := x[1..];
    forall k | 0 <= k < |tail|
      ensures !StartsURL(tail, k) && ((if k == 0 then x[0] == '\n' else tail[k - 1] == '\n') ==> !StartsLine(tail, k))
    {
      HasTail(x, k, "http://");
      HasTail(x, k, "https://");
      HasTail(x, k, "-#");
      assert !StartsURL(x, k + 1) && (x[k] == '\n' ==> !StartsLine(x, k + 1));
    }
  }

  // ---- pieces that are one span

  lemma EntityLeaf(env: Env, src: string, i: nat, n: Node, body: string, rest: string)
    requires IsLeaf(n) && EntitySpan(env, body) == Some(LeafSpan(n, env))
    requires i < |src| && src[i..] == "<" + body + ">" + rest && Lacks(body, '>')
    ensures var f := Find(env, src, i);
            f.One? && f.span == LeafSpan(n, env) && src[f.next..] == rest
  {
    EntityFound(env, src, i, body, LeafSpan(n, env), rest);
  }

  lemma IdLeaf(env: Env, src: string, i: nat, n: Node, rest: string)
    requires (n.User? || n.Role? || n.ChannelRef?) && Printable(n, {}) && i < |src| && src[i..] == Print(n) + rest
    ensures var f := Find(env, src, i);
            f.One? && f.span == LeafSpan(n, env) && src[f.next..] == rest
  {
    hide FormatUint, EntitySpan, Find;
    var sigil := if n.Role? then "@&" else if n.ChannelRef? then "#" else if n.nickname then "@!" else "@";
    var body := sigil + FormatUint(n.id);
    assert forall k :: |sigil| <= k < |body| ==> IsDigit(body[k]);
    IdBody(env, sigil, n.id);
    EntityLeaf(env, src, i, n, body, rest);
  }

  lemma TimeLeaf(env: Env, src: string, i: nat, n: Node, rest: string)
    requires n.Time? && Printable(n, {}) && i < |src| && src[i..] == Print(n) + rest
    ensures var f := Find(env, src, i);
            f.One? && f.span == LeafSpan(n, env) && src[f.next..] == rest
  {
    hide FormatUint, EntitySpan, Find;
    var digits := FormatUint(n.unix);
    var body := "t:" + digits + if n.look.Some? then ":" + n.look.value else "";
    assert forall k :: 2 <= k < 2 + |digits| ==> body[k] == digits[k - 2];
    if n.look.Some? { assert forall k :: 3 + |digits| <= k < |body| ==> body[k] == n.look.value[k - 3 - |digits|]; }
    TimeBody(env, n.unix, n.look);
    EntityLeaf(env, src, i, n, body, rest);
  }

  lemma CustomLeaf(env: Env, src: string, i: nat, n: Node, rest: string)
    requires n.Custom? && Printable(n, {}) && i < |src| && src[i..] == Print(n) + rest
    ensures var f := Find(env, src, i);
            f.One? && f.span == LeafSpan(n, env) && src[f.next..] == rest
  {
    hide FormatUint, EntitySpan, Find;
    var front, digits := if n.animated then "a:" else ":", FormatUint(n.id);
    var body := front + n.name + ":" + digits;
    assert Print(n) + rest == "<" + body + ">" + rest;
    assert forall k :: |front| <= k < |front| + |n.name| ==> body[k] == n.name[k - |front|];
    assert forall k :: |front| + |n.name| < k < |body| ==> body[k] == digits[k - |front| - |n.name| - 1];
    EmojiBody(env, n.id, n.name, n.animated);
    EntityLeaf(env, src, i, n, body, rest);
  }

  lemma CodeLeaf(env: Env, src: string, i: nat, n: Node, rest: string)
    requires (n.Verbatim? || n.Fenced?) && Printable(n, {}) && i < |src| && src[i..] == Print(n) + rest
    ensures var f := Find(env, src, i);
            f.One? && f.span == LeafSpan(n, env) && src[f.next..] == rest
  {
    if n.Verbatim? {
      CodeFound(env, src, i, n.code, rest);
    } else {
      TrimsAround(n.before, n.code, n.after);
      hide Find, TrimLeft, TrimRight, FenceClear;
      FencedFound(env, src, i, FencedText(n), rest, |FencedText(n)|);
    }
  }

  lemma LinkedLeaf(env: Env, src: string, i: nat, n: Node, rest: string)
    requires n.Linked? && Printable(n, {}) && i < |src| && src[i..] == Print(n) + rest
    ensures var f := Find(env, src, i);
            f.One? && f.span == LeafSpan(n, env) && src[f.next..] == rest
  {
    LinkFound(env, src, i, n.title, n.address, rest);
    hide Find;
  }

  lemma AddressLeaf(env: Env, src: string, i: nat, n: Node, rest: string)
    requires IsAddress(n) && Printable(n, {}) && i < |src| && src[i..] == Print(n) + rest && Stops(rest)
    ensures var f := Find(env, src, i);
            f.One? && f.span == LeafSpan(n, env) && src[f.next..] == rest
  {
    hide Find, FormatUint, DiscordSpan, AllURL, Stops, StartsWith;
    var address := Print(n);
    match n
    case ChannelAt(g, c) =>
      ChannelAddress(env, g, c);
      DiscordIsURL("https://discord.com/channels/", FormatUint(g) + "/" + FormatUint(c));
      DiscordFound(env, src, i, address, rest, LeafSpan(n, env));
    case MessageAt(g, c, m) =>
      MessageAddress(env, g, c, m);
      DiscordIsURL("https://discord.com/channels/", FormatUint(g) + "/" + FormatUint(c) + "/" + FormatUint(m));
      DiscordFound(env, src, i, address, rest, LeafSpan(n, env));
    case InviteTo(code, short) =>
      InviteAddress(env, code, short);
      DiscordIsURL(if short then "https://discord.gg/" else "https://discord.com/invite/", code);
      DiscordFound(env, src, i, address, rest, LeafSpan(n, env));
    case Web(_) =>
      WebFound(env, src, i, address, rest);
      WebLeafSpan(env, n);
    case _ =>
  }

  lemma WebLeafSpan(env: Env, n: Node)
    requires n.Web?
    ensures WebSpan(env, n.address) == LeafSpan(n, env)
  {
  }

  /** Characters of ids, of the slashes between them and of invite codes. */
  predicate IsPath(s: string) { forall k :: 0 <= k < |s| ==> s[k] == '/' || IsCodeChar(s[k]) }

  lemma DiscordIsURL(front: string, path: string)
    requires front == "https://discord.com/channels/" || front == "https://discord.gg/" ||
             front == "https://discord.com/invite/"
    requires IsPath(path)
    ensures AllURL(front + path) && StartsWith(front + path, "https://discord.")
  {
    assert (front + path)[..16] == front[..16] == "https://discord.";
    FrontIsURL(front);
    PathIsURL(path);
    assert forall k :: |front| <= k < |front + path| ==> (front + path)[k] == path[k - |front|];
    hide EndsAddress, IsCodeChar;
  }

  lemma FrontIsURL(front: string)
    requires front == "https://discord.com/channels/" || front == "https://discord.gg/" ||
             front == "https://discord.com/invite/"
    ensures AllURL(front)
  {
  }

  lemma PathIsURL(path: string)
    requires IsPath(path)
    ensures AllURL(path)
  {
  }

  lemma SmallLeaf(env: Env, src: string, i: nat, n: Node, rest: string)
    requires n.SmallPrint? && Printable(n, {}) && i < |src| && src[i..] == Print(n) + rest
    requires Fits(n, AtLineStart(src, i), rest)
    ensures var f := Find(env, src, i);
            f.One? && f.span == LeafSpan(n, env) && src[f.next..] == rest
  {
    SmallFound(env, src, i, n.text, rest);
    hide Find;
  }

  /** A printed piece of one span is found whole. */
  lemma LeafFound(env: Env, src: string, i: nat, n: Node, rest: string)
    requires IsLeaf(n) && Printable(n, {}) && i < |src| && src[i..] == Print(n) + rest
    requires Fits(n, AtLineStart(src, i), rest)
    ensures var f := Find(env, src, i);
            f.One? && f.span == LeafSpan(n, env) && src[f.next..] == rest
  {
    hide Find, LeafSpan, Print;
    if IsAddress(n) {
      AddressLeaf(env, src, i, n, rest);
    } else if n.Custom? {
      CustomLeaf(env, src, i, n, rest);
    } else if n.Time? {
      TimeLeaf(env, src, i, n, rest);
    } else if n.Verbatim? || n.Fenced? {
      CodeLeaf(env, src, i, n, rest);
    } else if n.Linked? {
      LinkedLeaf(env, src, i, n, rest);
    } else if n.SmallPrint? {
      SmallLeaf(env, src, i, n, rest);
    } else {
      IdLeaf(env, src, i, n, rest);
    }
  }

  lemma LeafKind(n: Node, env: Env)
    requires IsLeaf(n)
    ensures var s := LeafSpan(n, env);
            !IsText(s.kind) && s.format == {} && (s.kind == Code || s.kind == CodeBlock <==> n.Verbatim? || n.Fenced?)
  {
  }

  lemma LeafReads(env: Env, src: string, i: nat, n: Node, rest: string, used: Format, format: Format)
    requires i < |src| && src[i..] == Print(n) + rest && Printable(n, used) && IsLeaf(n)
    requires Fits(n, AtLineStart(src, i), rest)
    ensures var f := Find(env, src, i);
            f.One? && src[f.next..] == rest && ReadAll([ApplyFormat(f.span, format)]) == Meaning(n, env, format)
  {
    PrintableOutside(n, used);
    LeafFound(env, src, i, n, rest);
    LeafKind(n, env);
    hide Find, LeafSpan, Print, Fits;
    var span := LeafSpan(n, env);
    assert {} + format == format;
    ReadsWhole(ApplyFormat(span, format));
  }

  // ---- no delimiter inside a wrapper

  lemma ClearConcat(a: string, b: string, m: char)
    requires Clear(a, m) && Clear(b, m)
    ensures Clear(a + b, m)
  {
  }

  lemma ClearLacks(x: string, m: char)
    requires x != "" && Lacks(x, m)
    ensures Clear(x, m)
  {
  }

  lemma ClearAround(front: string, text: string, back: string, used: Format, s: Style)
    requires Clear(front, Mark(s)) && Clear(back, Mark(s)) && Avoids(text, used) && s in used
    ensures Clear(front + text + back, Mark(s))
  {
    var x, m := front + text + back, Mark(s);
    var n := |front| + |text|;
    assert forall i :: |front| <= i < n ==> x[i] == text[i - |front|];
    forall i | 0 <= i < |x| - 1
      ensures x[i] != m || x[i + 1] != m
    {
      if i < |front| - 1 {
        assert x[i] == front[i] && x[i + 1] == front[i + 1];
      } else if |front| <= i < n - 1 {
        assert text[i - |front|] != m || text[i - |front| + 1] != m;
      } else if n <= i {
        assert x[i] == back[i - n] && x[i + 1] == back[i - n + 1];
      }
    }
  }

  /** Nothing printed inside a wrapper contains the wrapper's delimiter. */
  lemma {:induction false} PrintAvoids(nodes: seq<Node>, used: Format, s: Style)
    requires AllPrintable(nodes, used) && s in used && s != Italic && nodes != []
    ensures Clear(PrintAll(nodes), Mark(s))
    decreases nodes, 0
  {
    hide Print, Printable, Clear;
    NodeAvoids(nodes[0], used, s);
    if |nodes| > 1 {
      PrintAvoids(nodes[1..], used, s);
      ClearConcat(Print(nodes[0]), PrintAll(nodes[1..]), Mark(s));
    } else {
      assert PrintAll(nodes) == Print(nodes[0]) + "" == Print(nodes[0]);
    }
  }

  lemma {:induction false} NodeAvoids(n: Node, used: Format, s: Style)
    requires Printable(n, used) && s in used && s != Italic
    ensures Clear(Print(n), Mark(s))
    decreases n
  {
    var m := Mark(s);
    match n
    case Plain(text) => ClearLacks(text, m);
    case Wrapped(style, body) => WrapperAvoids(style, body, Delim(style), used, s);
    case Slanted(style, triple, body) => WrapperAvoids(style, body, Slant(style, triple), used, s);
    case Linked(title, address) => LinkAvoids(n, used, s);
    case Custom(_, _, _) => EntityAvoids(n, used, s);
    case Time(_, _) => EntityAvoids(n, used, s);
    case User(_, _) => EntityAvoids(n, used, s);
    case Role(_) => EntityAvoids(n, used, s);
    case ChannelRef(_) => EntityAvoids(n, used, s);
    case Verbatim(code) => ClearAround("`", code, "`", used, s);
    case Fenced(_, _, _) => ClearAround("```", FencedText(n), "```", used, s);
    case _ => AddressAvoids(n, used, s);
  }

  lemma {:induction false} WrapperAvoids(style: Style, body: seq<Node>, d: string, used: Format, s: Style)
    requires body != [] && AllPrintable(body, used + {style}) && s in used && s != Italic
    requires d != "" && Lacks(d, Mark(s))
    ensures Clear(d + PrintAll(body) + d, Mark(s))
    decreases body, 1
  {
    hide PrintAll, AllPrintable, Joined;
    PrintAvoids(body, used + {style}, s);
    ClearLacks(d, Mark(s));
    ClearConcat(d, PrintAll(body), Mark(s));
    ClearConcat(d + PrintAll(body), d, Mark(s));
  }

  lemma LinkAvoids(n: Node, used: Format, s: Style)
    requires n.Linked? && Printable(n, used) && s in used && s != Italic
    ensures Clear(Print(n), Mark(s))
  {
    ClearAround("[", n.title, "](", used, s);
    ClearAround("[" + n.title + "](", n.address, ")", used, s);
  }

  lemma EntityAvoids(n: Node, used: Format, s: Style)
    requires (n.Custom? || n.Time? || n.User? || n.Role? || n.ChannelRef?) && Printable(n, used)
    requires s in used && s != Italic
    ensures Clear(Print(n), Mark(s))
  {
    hide Clear;
    if n.Custom? {
      CustomAvoids(n, used, s);
    } else if n.Time? {
      TimeAvoids(n, used, s);
    } else {
      IdAvoids(n, s);
    }
  }

  lemma CustomAvoids(n: Node, used: Format, s: Style)
    requires n.Custom? && Printable(n, used) && s in used && s != Italic
    ensures Clear(Print(n), Mark(s))
  {
    DigitsClear(":", n.id, ">", s);
    ClearLacks(if n.animated then "<a:" else "<:", Mark(s));
    NameClear(if n.animated then "<a:" else "<:", n.name, FormatUint(n.id), used, s);
  }

  lemma NameClear(front: string, name: string, digits: string, used: Format, s: Style)
    requires Clear(front, Mark(s)) && Clear(":" + digits + ">", Mark(s)) && Avoids(name, used) && s in used
    ensures Clear(front + name + ":" + digits + ">", Mark(s))
  {
    hide *;
    ClearAround(front, name, ":" + digits + ">", used, s);
    Apart(front, name, ":", digits + ">");
    Rejoin(":", digits, ">");
    Rejoin(front + name + ":", digits, ">");
  }

  lemma TimeAvoids(n: Node, used: Format, s: Style)
    requires n.Time? && Printable(n, used) && s in used && s != Italic
    ensures Clear(Print(n), Mark(s))
  {
    var digits := FormatUint(n.unix);
    if n.look.Some? {
      DigitsClear("<t:", n.unix, ":", s);
      ClearLacks(">", Mark(s));
      ClearAround("<t:" + digits + ":", n.look.value, ">", used, s);
      TimePrint(digits, n.look.value);
    } else {
      DigitsClear("<t:", n.unix, ">", s);
      hide FormatUint, Clear;
      assert Print(n) == "<t:" + digits + ">";
    }
  }

  lemma TimePrint(digits: string, look: string)
    ensures "<" + ("t:" + digits + (":" + look)) + ">" == "<t:" + digits + ":" + look + ">"
  {
  }

  lemma IdAvoids(n: Node, s: Style)
    requires (n.User? || n.Role? || n.ChannelRef?) && s != Italic
    ensures Clear(Print(n), Mark(s))
  {
    var front := if n.Role? then "<@&" else if n.ChannelRef? then "<#" else if n.nickname then "<@!" else "<@";
    DigitsClear(front, n.id, ">", s);
    hide FormatUint, Clear;
    assert Print(n) == front + FormatUint(n.id) + ">";
  }

  /** An id with nothing of a mark around it. */
  lemma DigitsClear(front: string, id: nat, back: string, s: Style)
    requires front != "" && Lacks(front, Mark(s)) && Lacks(back, Mark(s))
    ensures Clear(front + FormatUint(id) + back, Mark(s))
  {
    var digits := FormatUint(id);
    hide FormatUint;
    assert Lacks(digits, Mark(s));
    ClearLacks(front + digits + back, Mark(s));
  }

  lemma AddressAvoids(n: Node, used: Format, s: Style)
    requires IsAddress(n) && Printable(n, used) && s in used && s != Italic
    ensures Clear(Print(n), Mark(s))
  {
    hide FormatUint, Clear;
    match n
    case Web(address) => WebAvoids(address, used, s);
    case ChannelAt(g, c) => PathClear("https://discord.com/channels/", FormatUint(g) + "/" + FormatUint(c), s);
    case MessageAt(g, c, m) =>
      PathClear("https://discord.com/channels/", FormatUint(g) + "/" + FormatUint(c) + "/" + FormatUint(m), s);
    case InviteTo(code, short) =>
      PathClear(if short then "https://discord.gg/" else "https://discord.com/invite/", code, s);
  }

  lemma PathClear(front: string, path: string, s: Style)
    requires front != "" && Lacks(front, Mark(s)) && IsPath(path)
    ensures Clear(front + path, Mark(s))
  {
    assert Lacks(path, Mark(s));
    ClearLacks(front + path, Mark(s));
  }

  lemma WebAvoids(address: string, used: Format, s: Style)
    requires Printable(Web(address), used) && s in used
    ensures Clear(address, Mark(s))
  {
    PrintableOutside(Web(address), used);
    AddressStarts(Web(address));
  }

  // ---- nodes at a position

  lemma NotEmpty(nodes: seq<Node>, used: Format)
    requires AllPrintable(nodes, used) && nodes != []
    ensures PrintAll(nodes) != ""
  {
    hide FormatUint;
    assert Print(nodes[0]) != "";
  }

  /** Printed nodes stand at a position, their plain text harmless there. */
  predicate Ready(src: string, i: nat, nodes: seq<Node>, used: Format) {
    i <= |src| && src[i..] == PrintAll(nodes) && AllPrintable(nodes, used) && Joined(nodes, AtLineStart(src, i)) &&
    HarmlessAfter(Outline(nodes), AtLineStart(src, i))
  }

  lemma PlainReady(env: Env, src: string, i: nat, nodes: seq<Node>, used: Format)
    requires Ready(src, i, nodes, used) && nodes != [] && nodes[0].Plain?
    ensures i < |src| && nodes[0].text != "" && src[i] == nodes[0].text[0] && Find(env, src, i).Nothing?
    ensures Ready(src, i + 1, Left(nodes), used)
  {
    NotEmpty(nodes, used);
    assert |src[i..]| == |src| - i;
    PlainFront(env, src, i, nodes, used);
    hide Find, HarmlessAfter, Outline;
    LeftOutline(nodes);
    HarmlessTail(Outline(nodes), AtLineStart(src, i));
    LeftPrints(nodes, used);
    LeftJoined(nodes, AtLineStart(src, i));
    hide Joined, AllPrintable, PrintAll, Left;
    assert src[i] == src[i..][0] && src[i + 1..] == src[i..][1..];
  }

  /** A piece that something follows does not end in a line break. */
  lemma PieceEnds(n: Node, used: Format, start: bool, rest: string)
    requires Printable(n, used) && !n.Plain? && Fits(n, start, rest) && rest != ""
    ensures Print(n) != "" && Print(n)[|Print(n)| - 1] != '\n'
  {
    hide FormatUint, FencedText, PrintAll, AllPrintable, Joined, Harmless, Outline, Avoids, FenceClear, HeadingKept;
    if IsAddress(n) {
      AddressEnds(n, used);
    } else if n.Quoting? {
      QuotingEnds(n, used);
    } else if n.Titled? {
      var text := PrintAll(n.body);
      assert text != "" ==> Print(n)[|Print(n)| - 1] == text[|text| - 1];
    }
  }

  lemma AddressEnds(n: Node, used: Format)
    requires IsAddress(n) && Printable(n, used)
    ensures Print(n) != "" && Print(n)[|Print(n)| - 1] != '\n'
  {
    PrintableOutside(n, used);
    AddressStarts(n);
  }

  lemma QuotingEnds(n: Node, used: Format)
    requires n.Quoting? && !n.toTheEnd && Printable(n, used)
    ensures Print(n) != "" && Print(n)[|Print(n)| - 1] != '\n'
  {
    QuotingPrint(n.lines);
    var text := PrintLine(n.lines[0]);
    assert n.lines[0] in n.lines && NoBreak(text);
    hide PrintLine, LineOk;
    assert Breaks(0) == "";
    assert Print(n) == "> " + text;
  }

  lemma QuotingPrint(lines: seq<Line>)
    requires |lines| == 1
    ensures Texts(lines) == [PrintLine(lines[0])] && JoinLines(Texts(lines)) == PrintLine(lines[0])
  {
    assert Texts(lines) == [PrintLine(lines[0])];
  }

  lemma NotAtStart(src: string, i: nat, next: nat, piece: string, rest: string)
    requires i <= next <= |src| && src[i..] == piece + rest && src[next..] == rest
    requires piece != "" && piece[|piece| - 1] != '\n'
    ensures next > 0 && !AtLineStart(src, next)
  {
    assert src[i..][|piece| - 1] == src[next - 1];
  }

  lemma PieceReady(src: string, i: nat, next: nat, nodes: seq<Node>, used: Format)
    requires Ready(src, i, nodes, used) && nodes != [] && !nodes[0].Plain?
    requires i <= next <= |src| && src[next..] == PrintAll(nodes[1..])
    ensures Ready(src, next, nodes[1..], used)
  {
    var rest := nodes[1..];
    if rest != [] {
      NotEmpty(rest, used);
      PieceEnds(nodes[0], used, AtLineStart(src, i), PrintAll(rest));
      NotAtStart(src, i, next, Print(nodes[0]), PrintAll(rest));
      HarmlessTail(Outline(nodes), AtLineStart(src, i));
      assert Outline(nodes)[1..] == Outline(rest);
      hide HarmlessAfter, Print, Printable, Fits, Outline;
    }
  }

  /** Plain nodes without their first character. */
  function Left(nodes: seq<Node>): seq<Node>
    requires nodes != [] && nodes[0].Plain? && nodes[0].text != ""
  {
    var t := nodes[0].text;
    if |t| == 1 then nodes[1..] else [Plain(t[1..])] + nodes[1..]
  }

  lemma LeftJoined(nodes: seq<Node>, start: bool)
    requires nodes != [] && nodes[0].Plain? && nodes[0].text != "" && Joined(nodes, start)
    ensures Joined(Left(nodes), nodes[0].text[0] == '\n')
  {
    var t, rest := nodes[0].text, nodes[1..];
    if |t| > 1 {
      var left := Left(nodes);
      assert left[0] == Plain(t[1..]) && left[1..] == rest;
      assert BreaksAtEnd(left[0]) == BreaksAtEnd(nodes[0]);
    }
  }

  lemma LeftPrints(nodes: seq<Node>, used: Format)
    requires nodes != [] && nodes[0].Plain? && nodes[0].text != "" && AllPrintable(nodes, used)
    ensures AllPrintable(Left(nodes), used) && PrintAll(nodes) == [nodes[0].text[0]] + PrintAll(Left(nodes))
  {
    var t, more := nodes[0].text, nodes[1..];
    if |t| > 1 {
      var left := Left(nodes);
      assert left[1..] == more && left[0] == Plain(t[1..]);
      assert Printable(left[0], used);
      hide Printable;
      assert PrintAll(nodes) == t + PrintAll(more);
      assert PrintAll(left) == t[1..] + PrintAll(more);
      assert t + PrintAll(more) == [t[0]] + (t[1..] + PrintAll(more));
    } else {
      assert t == [t[0]];
    }
  }

  lemma OutlineOf(text: string, rest: seq<Node>)
    ensures Outline([Plain(text)] + rest) == text + Outline(rest)
  {
    var nodes := [Plain(text)] + rest;
    assert nodes[0] == Plain(text) && nodes[1..] == rest;
  }

  lemma TailOf(t: string, more: string)
    requires t != ""
    ensures (t + more)[0] == t[0] && (t + more)[1..] == t[1..] + more
  {
  }

  lemma LeftOutline(nodes: seq<Node>)
    requires nodes != [] && nodes[0].Plain? && nodes[0].text != ""
    ensures Outline(nodes) != "" && Outline(nodes)[0] == nodes[0].text[0] && Outline(nodes)[1..] == Outline(Left(nodes))
  {
    hide Outline;
    var t, rest := nodes[0].text, nodes[1..];
    var more := Outline(rest);
    assert nodes == [Plain(t)] + rest;
    OutlineOf(t, rest);
    TailOf(t, more);
    if |t| > 1 { OutlineOf(t[1..], rest); } else { assert t[1..] == "" && "" + more == more; }
  }

  lemma LeftMeans(nodes: seq<Node>, env: Env, format: Format)
    requires nodes != [] && nodes[0].Plain? && nodes[0].text != ""
    ensures MeaningAll(nodes, env, format) == [Char(nodes[0].text[0], format)] + MeaningAll(Left(nodes), env, format)
  {
    hide Letters;
    var t, more := nodes[0].text, nodes[1..];
    assert [t[0]] + t[1..] == t;
    LettersAppend([t[0]], t[1..], format);
    OneLetter(t[0], format);
    if |t| > 1 {
      var left := Left(nodes);
      assert left[1..] == more && left[0] == Plain(t[1..]);
      assert MeaningAll(left, env, format) == Letters(t[1..], format) + MeaningAll(more, env, format);
    } else {
      assert t == [t[0]];
    }
  }

  // ---- headings: which formats their letters have

  ghost predicate Shows(atoms: seq<Atom>, shade: Option<Format>) {
    exists a :: a in atoms &&
      match shade
      case None => a.Whole? && !IsText(a.span.kind)
      case Some(f) => a.Letter? && a.format == f
  }

  lemma ShowsMore(a: seq<Atom>, b: seq<Atom>, shade: Option<Format>)
    requires Shows(a, shade) || Shows(b, shade)
    ensures Shows(a + b, shade)
  {
    if Shows(a, shade) {
      var x :| x in a && match shade
        case None => x.Whole? && !IsText(x.span.kind)
        case Some(f) => x.Letter? && x.format == f;
      assert x in a + b;
    } else {
      var x :| x in b && match shade
        case None => x.Whole? && !IsText(x.span.kind)
        case Some(f) => x.Letter? && x.format == f;
      assert x in a + b;
    }
  }

  lemma WholeShows(n: Node, env: Env, format: Format)
    requires !n.Plain? && !n.Wrapped? && !n.Slanted? && (n.Quoting? ==> n.lines != [])
    ensures Shows(Meaning(n, env, format), None)
  {
    hide Raised, Cited;
    if IsLeaf(n) {
      LeafKind(n, env);
      var span := LeafSpan(n, env);
      hide LeafSpan;
      assert Whole(if n.Verbatim? || n.Fenced? then span else span.(format := format)) in Meaning(n, env, format);
    } else if n.Titled? {
      assert Meaning(n, env, format)[0].Whole? && Meaning(n, env, format)[0].span.kind == Header;
      assert Meaning(n, env, format)[0] in Meaning(n, env, format);
    } else {
      var k := |n.lines| - 1;
      assert Whole(Gutter(k == 0)) in MeaningLines(n.lines, env);
    }
  }

  lemma {:induction false} ShadesShow(nodes: seq<Node>, env: Env, used: Format, format: Format, shade: Option<Format>)
    requires AllPrintable(nodes, used) && shade in Shades(nodes, format)
    ensures Shows(MeaningAll(nodes, env, format), shade)
    decreases nodes
  {
    hide Shows, MeaningLines, LeafSpan;
    var n, rest := nodes[0], nodes[1..];
    var first, more := Meaning(n, env, format), MeaningAll(rest, env, format);
    if shade in Shades(rest, format) {
      ShadesShow(rest, env, used, format, shade);
    } else {
      NodeShows(n, env, used, format, shade);
    }
    ShowsMore(first, more, shade);
  }

  lemma {:induction false} NodeShows(n: Node, env: Env, used: Format, format: Format, shade: Option<Format>)
    requires Printable(n, used)
    requires match n
             case Plain(_) => shade == Some(format)
             case Wrapped(style, body) => shade in Shades(body, format + {style})
             case Slanted(style, triple, body) => shade in Shades(body, format + SlantFormat(style, triple))
             case _ => shade == None
    ensures Shows(Meaning(n, env, format), shade)
    decreases n
  {
    match n
    case Plain(text) => assert Char(text[0], format) == Letters(text, format)[0];
    case Wrapped(style, body) =>
      hide Shows;
      ShadesShow(body, env, used + {style}, format + {style}, shade);
    case Slanted(style, triple, body) =>
      hide Shows;
      ShadesShow(body, env, used + {style}, format + SlantFormat(style, triple), shade);
    case _ => WholeShows(n, env, format);
  }

  lemma {:induction false} ShadesContain(nodes: seq<Node>, used: Format, format: Format)
    requires AllPrintable(nodes, used)
    ensures nodes != [] ==> Shades(nodes, format) != {}
    ensures forall shade :: shade in Shades(nodes, format) ==> shade.None? || format <= shade.value
    decreases nodes
  {
    if nodes != [] {
      ShadesContain(nodes[1..], used, format);
      if nodes[0].Wrapped? || nodes[0].Slanted? {
        var body, style := nodes[0].body, nodes[0].style;
        var added := if nodes[0].Wrapped? then {style} else SlantFormat(style, nodes[0].triple);
        assert Printable(nodes[0], used) && BodyOk(body, used + {style});
        ShadesContain(body, used + {style}, format + added);
        assert Shades(body, format + added) <= Shades(nodes, format);
      } else {
        assert (if nodes[0].Plain? then Some(format) else None) in Shades(nodes, format);
      }
    }
  }

  lemma {:induction false} OtherShade(nodes: seq<Node>, used: Format) returns (shade: Option<Format>)
    requires AllPrintable(nodes, used) && !AllPlain(nodes)
    ensures shade in Shades(nodes, {}) && shade != Some({})
  {
    var n := nodes[0];
    if n.Plain? {
      assert !AllPlain(nodes[1..]);
      shade := OtherShade(nodes[1..], used);
    } else if n.Wrapped? || n.Slanted? {
      var added := if n.Wrapped? then {n.style} else SlantFormat(n.style, n.triple);
      assert Printable(n, used) && BodyOk(n.body, used + {n.style});
      ShadesContain(n.body, used + {n.style}, {} + added);
      shade :| shade in Shades(n.body, {} + added);
    } else {
      shade := None;
    }
  }

  /** A span of kind Text shows letters of its own format only, none or several styles. */
  lemma OnlyShade(s: Span, shade: Option<Format>)
    requires s.kind == Text && Shows(Read(s), shade)
    ensures shade == Some(s.format) && FormattedText(s.text, s.format).kind == Text
  {
  }

  lemma OneStyle(f: Format)
    requires FormattedText("", f).kind == Text
    ensures |f| != 1
  {
    if f != {} {
      var s :| s in f;
      SingleStyle(s);
      assert |f - {s}| == |f| - 1 && f - {s} != {};
    }
  }

  lemma SingleStyle(s: Style)
    ensures FormattedText("", {s}).kind != Text
  {
    match s
    case Bold =>
    case Italic =>
    case Underline =>
    case Strike =>
    case Spoiler =>
  }

  lemma OneShade(body: seq<Node>, env: Env, s: Span)
    requires AllPrintable(body, {}) && body != [] && s.kind == Text && Read(s) == MeaningAll(body, env, {})
    ensures Shades(body, {}) == {Some(s.format)} && |s.format| != 1
  {
    ShadesContain(body, {}, {});
    hide *;
    forall shade | shade in Shades(body, {})
      ensures shade == Some(s.format) && |s.format| != 1
    {
      EachShade(body, env, s, shade);
    }
  }

  lemma EachShade(body: seq<Node>, env: Env, s: Span, shade: Option<Format>)
    requires AllPrintable(body, {}) && s.kind == Text && Read(s) == MeaningAll(body, env, {}) &&
             shade in Shades(body, {})
    ensures shade == Some(s.format) && |s.format| != 1
  {
    ShadesShow(body, env, {}, {}, shade);
    OnlyShade(s, shade);
    OneStyle(s.format);
  }

  /** One span of text without markup is not what such a heading holds. */
  lemma HeadingApart(body: seq<Node>, env: Env, spans: seq<Span>)
    requires AllPrintable(body, {}) && HeadingKept(body) && body != [] && !AllPlain(body)
    requires ReadAll(spans) == MeaningAll(body, env, {})
    ensures |spans| == 1 ==> spans[0].kind != Text
  {
    hide Shades, Read;
    var shade := OtherShade(body, {});
    if |spans| == 1 && spans[0].kind == Text {
      assert spans == [spans[0]];
      ReadOne(spans[0]);
      OneShade(body, env, spans[0]);
    }
  }

  // ---- the round trip

  /** What a construct found at a position contributes to the reading. */
  lemma ReadStep(env: Env, src: string, i: nat, format: Format, buf: string)
    requires i < |src| && !Find(env, src, i).Nothing?
    ensures var f := Find(env, src, i);
            ReadAll(Run(env, src, i, format, buf)) ==
            Letters(buf, format) + ReadAll(Emitted(env, f, format, |src|)) + ReadAll(Run(env, src, f.next, format, ""))
  {
    hide Find, Emitted, Read, Flush, Letters;
    var f := Find(env, src, i);
    ReadAppend(Flush(buf, format) + Emitted(env, f, format, |src|), Run(env, src, f.next, format, ""));
    ReadAppend(Flush(buf, format), Emitted(env, f, format, |src|));
    ReadFlush(buf, format);
  }

  /** Plain text alone becomes one span. */
  lemma {:induction false} PlainRun(env: Env, src: string, i: nat, nodes: seq<Node>, format: Format, buf: string)
    requires Ready(src, i, nodes, {}) && AllPlain(nodes)
    ensures Run(env, src, i, format, buf) == Flush(buf + src[i..], format)
    decreases |src| - i
  {
    if nodes == [] {
      assert |src[i..]| == |src| - i;
      hide Find, AllPlain, Flush, HarmlessAfter, Joined, AllPrintable, Outline;
      assert buf + src[i..] == buf;
    } else {
      PlainReady(env, src, i, nodes, {});
      LeftPlain(nodes);
      hide *;
      PlainRun(env, src, i + 1, Left(nodes), format, buf + [src[i]]);
      PlainStep(env, src, i, format, buf);
    }
  }

  lemma PlainStep(env: Env, src: string, i: nat, format: Format, buf: string)
    requires i < |src| && Find(env, src, i).Nothing?
    requires Run(env, src, i + 1, format, buf + [src[i]]) == Flush(buf + [src[i]] + src[i + 1..], format)
    ensures Run(env, src, i, format, buf) == Flush(buf + src[i..], format)
  {
    hide Find, Flush;
    assert buf + [src[i]] + src[i + 1..] == buf + src[i..];
  }

  lemma LeftPlain(nodes: seq<Node>)
    requires nodes != [] && nodes[0].Plain? && nodes[0].text != "" && AllPlain(nodes)
    ensures AllPlain(Left(nodes))
  {
  }

  /** A printed node that is not plain text is found whole, and reads as what it means. */
  lemma {:induction false} NodeReads(env: Env, src: string, i: nat, n: Node, rest: string, used: Format, format: Format)
    requires i < |src| && src[i..] == Print(n) + rest && Printable(n, used) && !n.Plain?
    requires Fits(n, AtLineStart(src, i), rest) && (used == {} ==> format == {})
    ensures var f := Find(env, src, i);
            !f.Nothing? && src[f.next..] == rest && ReadAll(Emitted(env, f, format, |src|)) == Meaning(n, env, format)
    decreases |src|, 0, 1
  {
    if n.Wrapped? {
      WrapperReads(env, src, i, n.style, n.body, rest, used, format);
    } else if n.Slanted? {
      SlantReads(env, src, i, n, rest, used, format);
    } else if n.Titled? {
      TitleReads(env, src, i, n.level, n.body, rest);
    } else if n.Quoting? {
      QuoteReads(env, src, i, n, rest);
    } else {
      LeafReads(env, src, i, n, rest, used, format);
    }
  }

  lemma {:induction false} WrapperReads(env: Env, src: string, i: nat, style: Style, body: seq<Node>, rest: string,
      used: Format, format: Format)
    requires i < |src| && src[i..] == Delim(style) + PrintAll(body) + Delim(style) + rest
    requires Printable(Wrapped(style, body), used)
    ensures var f := Find(env, src, i);
            f.Styled? && src[f.next..] == rest &&
            ReadAll(Emitted(env, f, format, |src|)) == MeaningAll(body, env, format + {style})
    decreases |src|, 0, 0
  {
    hide Find, Run, Read, Letters, Print;
    var inner := PrintAll(body);
    PrintAvoids(body, used + {style}, style);
    WrapperFound(env, src, i, style, inner, rest);
    assert inner[0..] == inner;
    RunReads(env, inner, 0, body, used + {style}, format + {style}, "");
  }

  lemma {:induction false} SlantReads(env: Env, src: string, i: nat, n: Node, rest: string, used: Format,
      format: Format)
    requires n.Slanted? && i < |src| && Printable(n, used)
    requires src[i..] == Slant(n.style, n.triple) + PrintAll(n.body) + Slant(n.style, n.triple) + rest
    ensures var f := Find(env, src, i);
            !f.Nothing? && src[f.next..] == rest &&
            ReadAll(Emitted(env, f, format, |src|)) == Meaning(n, env, format)
    decreases |src|, 0, 0
  {
    hide Find, Run, Read, Letters, Print;
    var inner := PrintAll(n.body);
    PrintAvoids(n.body, used + {n.style}, n.style);
    SlantFound(env, src, i, n.style, n.triple, inner, rest);
    assert inner[0..] == inner;
    RunReads(env, inner, 0, n.body, used + {n.style}, format + SlantFormat(n.style, n.triple), "");
  }

  lemma {:induction false} TitleReads(env: Env, src: string, i: nat, level: nat, body: seq<Node>, rest: string)
    requires i < |src| && src[i..] == Hashes(level) + " " + PrintAll(body) + rest && Printable(Titled(level, body), {})
    requires Fits(Titled(level, body), AtLineStart(src, i), rest)
    ensures var f := Find(env, src, i);
            f.Heading? && src[f.next..] == rest &&
            ReadAll(Emitted(env, f, {}, |src|)) == Meaning(Titled(level, body), env, {})
    decreases |src|, 0, 0
  {
    var inner := PrintAll(body);
    HeaderFound(env, src, i, level, inner, rest);
    assert inner[0..] == inner && AtLineStart(inner, 0);
    assert Ready(inner, 0, body, {});
    if AllPlain(body) && body != [] {
      PlainHeading(env, inner, body, level);
    } else {
      hide Find, Run, Read, Letters, Print, PrintAll, Ready;
      RunReads(env, inner, 0, body, {}, {}, "");
      MixedHeading(env, inner, body, level);
    }
  }

  lemma HeadingSpan(text: string, level: nat)
    ensures ApplyFormat(Simple(Header, text).(headerLevel := level), {}) == HeaderOf(text, level)
  {
    var none: Format := {};
    assert none + {} == {};
  }

  lemma HeadingForm(spans: seq<Span>, level: nat)
    ensures HeadingSpans(spans, level, {}) ==
            if |spans| == 1 && spans[0].kind == Text then [HeaderOf(spans[0].text, level)]
            else [HeaderOf("", level)] + Levelled(spans, level, {})
  {
    hide ApplyFormat, Levelled;
    HeadingSpan("", level);
    if |spans| == 1 { HeadingSpan(spans[0].text, level); }
  }

  lemma PlainHeading(env: Env, inner: string, body: seq<Node>, level: nat)
    requires Ready(inner, 0, body, {}) && AllPlain(body) && body != []
    ensures ReadAll(HeadingSpans(Run(env, inner, 0, {}, ""), level, {})) == [Whole(HeaderOf(inner, level))]
  {
    PlainRun(env, inner, 0, body, {}, "");
    NotEmpty(body, {});
    assert "" + inner[0..] == inner && inner != "";
    OneFlush(inner);
    hide *;
    HeadingForm([Simple(Text, inner)], level);
    HeadingReads(inner, level);
  }

  lemma HeadingReads(text: string, level: nat)
    ensures ReadAll([HeaderOf(text, level)]) == [Whole(HeaderOf(text, level))]
    ensures Simple(Text, text).kind == Text && Simple(Text, text).text == text
  {
    ReadsWhole(HeaderOf(text, level));
  }

  lemma OneFlush(text: string)
    requires text != ""
    ensures Flush(text, {}) == [Simple(Text, text)]
  {
  }

  lemma MixedHeading(env: Env, inner: string, body: seq<Node>, level: nat)
    requires Ready(inner, 0, body, {}) && HeadingKept(body) && !(AllPlain(body) && body != [])
    requires var spans := Run(env, inner, 0, {}, "");
             ReadAll(spans) == Letters("", {}) + MeaningAll(body, env, {})
    ensures ReadAll(HeadingSpans(Run(env, inner, 0, {}, ""), level, {})) ==
            [Whole(HeaderOf("", level))] + Raised(MeaningAll(body, env, {}), level)
  {
    var spans := Run(env, inner, 0, {}, "");
    NoLetters({});
    assert ReadAll(spans) == MeaningAll(body, env, {});
    if body == [] {
      assert inner[0..] == "" && |inner| == 0 && spans == [];
    } else {
      HeadingApart(body, env, spans);
    }
    hide HeadingSpans, Run, Read, MeaningAll, Ready, HeadingKept, Levelled, Raised;
    HeadingForm(spans, level);
    MarkedHeading(spans, level);
  }

  lemma MarkedHeading(spans: seq<Span>, level: nat)
    ensures ReadAll([HeaderOf("", level)] + Levelled(spans, level, {})) ==
            [Whole(HeaderOf("", level))] + Raised(ReadAll(spans), level)
  {
    LevelledReads(spans, level);
    ReadCons(HeaderOf("", level), Levelled(spans, level, {}));
    ReadsWhole(HeaderOf("", level));
    ReadOne(HeaderOf("", level));
  }

  lemma {:induction false} QuoteReads(env: Env, src: string, i: nat, n: Node, rest: string)
    requires i < |src| && n.Quoting? && src[i..] == Print(n) + rest && Printable(n, {})
    requires Fits(n, AtLineStart(src, i), rest)
    ensures var f := Find(env, src, i);
            f.Quoted? && src[f.next..] == rest && ReadAll(Emitted(env, f, {}, |src|)) == MeaningLines(n.lines, env)
    decreases |src|, 0, 0
  {
    QuotingFound(env, src, i, n, rest);
    QuotedEmits(env, Find(env, src, i), |src|);
    LinesFine(n);
    hide *;
    LinesRead(env, n.lines, |src|);
  }

  lemma LinesFine(n: Node)
    requires n.Quoting? && Printable(n, {})
    ensures forall l :: l in n.lines ==> LineOk(l)
  {
  }

  lemma QuotedEmits(env: Env, f: Found, n: nat)
    requires f.Quoted? && Smaller(f, n)
    ensures (forall t :: t in f.lines ==> |t| < n) && Emitted(env, f, {}, n) == QuotedSpans(env, f.lines, {}, n)
  {
    hide QuotedSpans;
  }

  lemma QuotingFound(env: Env, src: string, i: nat, n: Node, rest: string)
    requires i < |src| && n.Quoting? && src[i..] == Print(n) + rest && Printable(n, {})
    requires Fits(n, AtLineStart(src, i), rest)
    ensures var f := Find(env, src, i);
            f.Quoted? && src[f.next..] == rest && f.lines == Texts(n.lines)
  {
    var texts := Texts(n.lines);
    forall l | l in texts
      ensures NoBreak(l)
    {
      var k :| 0 <= k < |texts| && texts[k] == l;
      assert n.lines[k] in n.lines;
    }
    hide Find, PrintLine, LineOk;
    if n.toTheEnd {
      assert Print(n) + rest == ">>> " + JoinLines(texts) + Breaks(n.after);
      RestQuoteFound(env, src, i, texts, n.after);
    } else {
      QuotingPrint(n.lines);
      assert texts[0] in texts;
      assert Breaks(0) == "" && Print(n) == "> " + texts[0];
      QuoteFound(env, src, i, texts[0], rest);
    }
  }

  lemma {:induction false} LinesRead(env: Env, lines: seq<Line>, n: nat)
    requires (forall l :: l in lines ==> LineOk(l)) && forall t :: t in Texts(lines) ==> |t| < n
    ensures ReadAll(QuotedSpans(env, Texts(lines), {}, n)) == MeaningLines(lines, env)
    decreases n, 0, 0, |lines|
  {
    if lines != [] {
      var k := |lines| - 1;
      var texts, inner := Texts(lines), PrintLine(lines[k]);
      assert texts[..k] == Texts(lines[..k]) && texts[k] == inner && inner in texts;
      assert inner[0..] == inner && lines[k] in lines && AtLineStart(inner, 0);
      assert LineOk(lines[k]);
      LineReady(lines[k]);
      LinesRead(env, lines[..k], n);
      hide Run, Read, Texts, LineOk, Ready;
      RunReads(env, inner, 0, lines[k].nodes, {}, {}, "");
      OneMoreLine(env, texts, lines, n);
    }
  }

  lemma LineReady(l: Line)
    requires LineOk(l)
    ensures Ready(PrintLine(l), 0, l.nodes, {})
  {
    hide AllPrintable, Joined, HarmlessAfter;
    assert PrintLine(l)[0..] == PrintLine(l);
  }

  lemma OneMoreLine(env: Env, texts: seq<string>, lines: seq<Line>, n: nat)
    requires lines != [] && |texts| == |lines| && forall t :: t in texts ==> |t| < n
    requires var k := |lines| - 1;
             ReadAll(QuotedSpans(env, texts[..k], {}, n)) == MeaningLines(lines[..k], env) &&
             ReadAll(Run(env, texts[k], 0, {}, "")) == Letters("", {}) + MeaningAll(lines[k].nodes, env, {})
    ensures ReadAll(QuotedSpans(env, texts, {}, n)) == MeaningLines(lines, env)
  {
    var k := |lines| - 1;
    var before, spans := QuotedSpans(env, texts[..k], {}, n), Run(env, texts[k], 0, {}, "");
    var gutter := Gutter(k == 0);
    LineSpans(env, texts, n);
    NoLetters({});
    assert ReadAll(spans) == MeaningLine(lines[k], env);
    MeantLine(lines, env);
    hide *;
    GutterKind(k == 0);
    LineReads(before, gutter, spans);
  }

  lemma GutterKind(first: bool)
    ensures Gutter(first).kind == Quote
  {
  }

  lemma MeantLine(lines: seq<Line>, env: Env)
    requires lines != []
    ensures var k := |lines| - 1;
            MeaningLines(lines, env) ==
            MeaningLines(lines[..k], env) + [Whole(Gutter(k == 0))] + Cited(MeaningLine(lines[k], env))
  {
  }

  lemma LineReads(before: seq<Span>, gutter: Span, spans: seq<Span>)
    requires gutter.kind == Quote
    ensures ReadAll(before + [gutter] + MarkQuoted(spans)) ==
            ReadAll(before) + [Whole(gutter)] + Cited(ReadAll(spans))
  {
    QuotedReads(spans);
    ReadAppend(before + [gutter], MarkQuoted(spans));
    ReadAppend(before, [gutter]);
    ReadsWhole(gutter);
  }

  lemma LineSpans(env: Env, texts: seq<string>, n: nat)
    requires texts != [] && forall t :: t in texts ==> |t| < n
    ensures var k := |texts| - 1;
            QuotedSpans(env, texts, {}, n) ==
            QuotedSpans(env, texts[..k], {}, n) + [Gutter(k == 0)] + MarkQuoted(Run(env, texts[k], 0, {}, ""))
  {
    hide Run, MarkQuoted, ApplyFormat, Gutter;
    GutterSpan(|texts| == 1);
  }

  lemma GutterSpan(first: bool)
    ensures ApplyFormat(Simple(Quote, if !first then "\n" + GUTTER else GUTTER), {}) == Gutter(first)
  {
    var none: Format := {};
    assert none + {} == {};
    assert "\n" + GUTTER == "\n\U{258F} ";
  }

  lemma {:induction false} RunReads(env: Env, src: string, i: nat, nodes: seq<Node>, used: Format, format: Format,
      buf: string)
    requires Ready(src, i, nodes, used) && (used == {} ==> format == {})
    ensures ReadAll(Run(env, src, i, format, buf)) == Letters(buf, format) + MeaningAll(nodes, env, format)
    decreases |src|, |src| - i, 1
  {
    if nodes == [] {
      hide Letters, Read;
      assert |src[i..]| == |src| - i;
      ReadFlush(buf, format);
    } else if nodes[0].Plain? {
      PlainReads(env, src, i, nodes, used, format, buf);
    } else {
      PieceReads(env, src, i, nodes, used, format, buf);
    }
  }

  /** A piece that is not plain text is read whole, and the rest after it. */
  lemma {:induction false} PieceReads(env: Env, src: string, i: nat, nodes: seq<Node>, used: Format, format: Format,
      buf: string)
    requires Ready(src, i, nodes, used) && nodes != [] && !nodes[0].Plain? && (used == {} ==> format == {})
    ensures ReadAll(Run(env, src, i, format, buf)) == Letters(buf, format) + MeaningAll(nodes, env, format)
    decreases |src|, |src| - i, 0
  {
    var n, more := nodes[0], nodes[1..];
    NotEmpty(nodes, used);
    assert |src[i..]| == |src| - i;
    hide Find, Emitted, Letters, Read, Print, Meaning, HarmlessAfter, Outline, Run;
    NodeReads(env, src, i, n, PrintAll(more), used, format);
    var next := Find(env, src, i).next;
    PieceReady(src, i, next, nodes, used);
    ReadStep(env, src, i, format, buf);
    hide Ready, ReadAll, PrintAll;
    RunReads(env, src, next, more, used, format, "");
    NoLetters(format);
    Rejoin(Letters(buf, format), Meaning(n, env, format), MeaningAll(more, env, format));
  }

  /** One plain character joins the text before it. */
  lemma {:induction false} PlainReads(env: Env, src: string, i: nat, nodes: seq<Node>, used: Format, format: Format,
      buf: string)
    requires Ready(src, i, nodes, used) && nodes != [] && nodes[0].Plain? && (used == {} ==> format == {})
    ensures ReadAll(Run(env, src, i, format, buf)) == Letters(buf, format) + MeaningAll(nodes, env, format)
    decreases |src|, |src| - i, 0
  {
    PlainReady(env, src, i, nodes, used);
    var c, left := src[i], Left(nodes);
    LeftMeans(nodes, env, format);
    assert Run(env, src, i, format, buf) == Run(env, src, i + 1, format, buf + [c]);
    hide Ready, Find, Run, Read, ReadAll, Letters, Left, MeaningAll;
    RunReads(env, src, i + 1, left, used, format, buf + [c]);
    LettersAppend(buf, [c], format);
    OneLetter(c, format);
    Rejoin(Letters(buf, format), [Char(c, format)], MeaningAll(left, env, format));
  }

  /** Printing and parsing gives back every letter with its formatting, heading level and quoting, and
      every other piece as the one span it stands for, in order. */
  lemma ParsingInvertsPrinting(nodes: seq<Node>, env: Env)
    requires AllPrintable(nodes, {}) && Joined(nodes, true) && Harmless(Outline(nodes))
    ensures ReadAll(Parse(PrintAll(nodes), env)) == MeaningAll(nodes, env, {})
  {
    var src := PrintAll(nodes);
    assert src[0..] == src;
    RunReads(env, src, 0, nodes, {}, {}, "");
    NoLetters({});
  }
}
