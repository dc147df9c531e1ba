/** internal/markup: Discord message text as spans. What each construct is and where it
    ends, and what a whole message comes to. All markup is ASCII, so positions are of
    characters rather than of bytes. */
module Markup {
  import opened Collections
  import opened Search

  // ---- spans

  datatype Style = Bold | Italic | Underline | Strike | Spoiler
  type Format = set<Style>

  datatype Kind =
    | Text | BoldText | ItalicText | Code | CodeBlock | Link | Mention | ChannelMention | Emoji | UnderlineText
    | StrikeText | SpoilerText | Quote | Header | RoleMention | MessageLink | ChannelLink | InviteLink | Timestamp
    | FakeEmoji | FakeSticker | Small

  datatype ActionKind = OpenURL | ToMessage | ToChannel | Invite | UserProfile | RoleDetails
  datatype Action = Action(kind: ActionKind, target: string)

  datatype Span = Span(kind: Kind, text: string, url: string, headerLevel: nat, quoted: bool, format: Format,
                       fg: nat, emojiId: nat, emojiAnimated: bool, action: Option<Action>)

  function Simple(kind: Kind, text: string): Span { Span(kind, text, "", 0, false, {}, 0, 0, false, None) }

  function Linking(kind: Kind, text: string, action: ActionKind, target: string): Span {
    Simple(kind, text).(action := Some(Action(action, target)))
  }

  function FormattedText(text: string, format: Format): Span {
    if format == {} then Simple(Text, text)
    else if format == {Bold} then Simple(BoldText, text)
    else if format == {Italic} then Simple(ItalicText, text)
    else if format == {Underline} then Simple(UnderlineText, text)
    else if format == {Strike} then Simple(StrikeText, text)
    else if format == {Spoiler} then Simple(SpoilerText, text)
    else Simple(Text, text).(format := format)
  }

  /** Code keeps no formatting. */
  function ApplyFormat(s: Span, format: Format): Span {
    if s.kind == Code || s.kind == CodeBlock then s else s.(format := s.format + format)
  }

  /** Names, times and URL classes, which other packages work out. */
  datatype UrlClass = EmojiUrl | StickerUrl | OtherUrl
  datatype Env = Env(
    member: nat -> string,
    channel: nat -> string,
    role: nat -> (string, nat),
    timestamp: (nat, string) -> string,
    classify: string -> UrlClass,
    queryName: string -> Option<string>)

  // ---- text

  const GUTTER := "\U{258F} "
  const FAKE_EMOJI := "emoji_"
  const FAKE_STICKER := "sticker_"
  const CHANNELS := "https://discord.com/channels/"
  const INVITE_SHORT := "https://discord.gg/"
  const INVITE_LONG := "https://discord.com/invite/"

  predicate Has(src: string, i: nat, pat: string)
    requires i <= |src|
  {
    StartsWith(src[i..], pat)
  }

  predicate AtLineStart(src: string, i: nat)
    requires i <= |src|
  {
    i == 0 || src[i - 1] == '\n'
  }

  function LineEnd(s: string, start: nat): (n: nat)
    requires start <= |s|
    ensures start <= n <= |s|
  {
    var k := IndexOf(s[start..], "\n");
    if k >= 0 then start + k else |s|
  }

  function TrimRight(s: string, c: char): (t: string)
    ensures t <= s
  {
    if s != [] && s[|s| - 1] == c then TrimRight(s[..|s| - 1], c) else s
  }

  function TrimLeft(s: string, c: char): (t: string)
    ensures |t| <= |s|
  {
    if s != [] && s[0] == c then TrimLeft(s[1..], c) else s
  }

  /** At most `n` parts, the last one unsplit; every part when `n` is negative. */
  function SplitN(s: string, sep: char, n: int): (parts: seq<string>)
    requires n != 0
    ensures parts != [] && forall p :: p in parts ==> |p| <= |s|
    ensures n > 0 ==> |parts| <= n
    decreases |s|
  {
    var k := IndexOf(s, [sep]);
    if k < 0 || n == 1 then [s] else [s[..k]] + SplitN(s[k + 1..], sep, n - 1)
  }

  predicate IsURLChar(c: char) {
    c > ' ' && c != '"' && c != '\'' && c != '<' && c != '>' && c != '`' && c != '[' && c != ']'
  }

  function URLEnd(s: string, i: nat): (n: nat)
    requires i <= |s|
    ensures i <= n <= |s|
    decreases |s| - i
  {
    if i < |s| && IsURLChar(s[i]) then URLEnd(s, i + 1) else i
  }

  predicate IsInviteChar(c: char) { 'a' <= c <= 'z' || 'A' <= c <= 'Z' || '0' <= c <= '9' || c == '-' }

  predicate IsValidInviteCode(s: string) { s != "" && forall i :: 0 <= i < |s| ==> IsInviteChar(s[i]) }

  function ExtractInviteCode(raw: string): string {
    var code :=
      if StartsWith(raw, INVITE_SHORT) then raw[|INVITE_SHORT|..]
      else if StartsWith(raw, INVITE_LONG) then raw[|INVITE_LONG|..]
      else "";
    if IsValidInviteCode(code) then code else ""
  }

  // ---- decimal numbers of 64 bits

  const TWO64 := 0x1_0000_0000_0000_0000

  predicate IsDigit(c: char) { '0' <= c <= '9' }

  function DecimalValue(s: string): Option<nat> {
    if s == "" then Some(0)
    else
      var last := s[|s| - 1];
      match DecimalValue(s[..|s| - 1])
      case Some(v) => if IsDigit(last) then Some(10 * v + (last as int - '0' as int)) else None
      case None => None
  }

  function ParseID(s: string): (id: Option<nat>)
    ensures id.Some? ==> id.value < TWO64
  {
    if s == "" then None
    else
      match DecimalValue(s)
      case Some(v) => if v < TWO64 then Some(v) else None
      case None => None
  }

  function Digit(d: nat): char
    requires d < 10
  {
    "0123456789"[d]
  }

  function FormatUint(id: nat): (s: string)
    ensures s != "" && forall i :: 0 <= i < |s| ==> IsDigit(s[i])
  {
    if id < 10 then [Digit(id)] else FormatUint(id / 10) + [Digit(id % 10)]
  }

  lemma {:induction false} ParseFormatsBack(id: nat)
    requires id < TWO64
    ensures ParseID(FormatUint(id)) == Some(id)
  {
    DecimalFormatsBack(id);
  }

  lemma {:induction false} DecimalFormatsBack(id: nat)
    ensures DecimalValue(FormatUint(id)) == Some(id)
  {
    var s := FormatUint(id);
    if id < 10 {
      assert s[..0] == "";
    } else {
      DecimalFormatsBack(id / 10);
      assert s[..|s| - 1] == FormatUint(id / 10);
    }
  }

  // ---- constructs

  /** What starts at a position and where it ends: one finished span, or text that is
      parsed in its own right, with more formatting, as a heading, or as quoted lines. */
  datatype Found =
    | Nothing
    | One(next: nat, span: Span)
    | Styled(next: nat, inner: string, style: Format)
    | Heading(next: nat, level: nat, inner: string)
    | Quoted(next: nat, lines: seq<string>)

  /** Something found ends further on, and its inner texts are shorter than the text. */
  predicate Progress(f: Found, src: string, i: nat) {
    (!f.Nothing? ==> i < f.next <= |src|) && Smaller(f, |src|)
  }

  predicate Smaller(f: Found, n: nat) {
    match f
    case Styled(_, inner, _) => |inner| < n
    case Heading(_, _, inner) => |inner| < n
    case Quoted(_, lines) => forall l :: l in lines ==> |l| < n
    case _ => true
  }

  function FindSmall(src: string, i: nat): (f: Found)
    requires i < |src|
    ensures Progress(f, src, i)
  {
    if i + 3 >= |src| || src[i..i + 2] != "-#" || src[i + 2] != ' ' then Nothing
    else One(LineEnd(src, i + 3), Simple(Small, src[i + 3..LineEnd(src, i + 3)]))
  }

  /** Length of a run of `#` at a position, six at most. */
  function HeaderLevel(src: string, i: nat, most: nat): (level: nat)
    requires i <= |src|
    ensures level <= most && i + level <= |src|
    decreases most
  {
    if most > 0 && i < |src| && src[i] == '#' then 1 + HeaderLevel(src, i + 1, most - 1) else 0
  }

  function FindHeader(src: string, i: nat): (f: Found)
    requires i < |src|
    ensures Progress(f, src, i)
  {
    var level := HeaderLevel(src, i, 6);
    var marker := i + level;
    if level == 0 || marker >= |src| || src[marker] != ' ' then Nothing
    else Heading(LineEnd(src, marker + 1), level, src[marker + 1..LineEnd(src, marker + 1)])
  }

  function FindQuote(src: string, i: nat): (f: Found)
    requires i < |src|
    ensures Progress(f, src, i)
  {
    if Has(src, i, ">>> ") then Quoted(|src|, SplitN(TrimRight(src[i + 4..], '\n'), '\n', -1))
    else if Has(src, i, "> ") then
      var end := LineEnd(src, i + 2);
      Quoted(end, SplitN(src[i + 2..end], '\n', -1))
    else Nothing
  }

  function FindFenced(src: string, i: nat): (f: Found)
    requires i < |src| && Has(src, i, "```")
    ensures Progress(f, src, i)
  {
    var end := IndexOf(src[i + 3..], "```");
    if end < 0 then Nothing
    else One(i + 3 + end + 3, Simple(CodeBlock, TrimRight(TrimLeft(src[i + 3..i + 3 + end], '\n'), '\n')))
  }

  function FindInlineCode(src: string, i: nat): (f: Found)
    requires i < |src|
    ensures Progress(f, src, i)
  {
    var end := IndexOf(src[i + 1..], "`");
    if end < 0 then Nothing else One(i + 1 + end + 1, Simple(Code, src[i + 1..i + 1 + end]))
  }

  function FindDelimited(src: string, i: nat, delim: string, style: Format): (f: Found)
    requires i < |src| && delim != "" && Has(src, i, delim)
    ensures Progress(f, src, i)
  {
    var start := i + |delim|;
    var end := IndexOf(src[start..], delim);
    if end <= 0 then Nothing else Styled(start + end + |delim|, src[start..start + end], style)
  }

  predicate MarkedMedia(env: Env, name: string, url: string, marker: string, kind: UrlClass) {
    StartsWith(name, marker) && |name| > |marker| && env.classify(url) == kind
  }

  function LinkSpan(env: Env, name: string, url: string): Span {
    if MarkedMedia(env, name, url, FAKE_EMOJI, EmojiUrl) then Simple(FakeEmoji, name[|FAKE_EMOJI|..]).(url := url)
    else if MarkedMedia(env, name, url, FAKE_STICKER, StickerUrl)
      then Simple(FakeSticker, name[|FAKE_STICKER|..]).(url := url)
    else Linking(Link, name, OpenURL, url).(url := url)
  }

  function FindLink(env: Env, src: string, i: nat): (f: Found)
    requires i < |src| && src[i] == '['
    ensures Progress(f, src, i)
  {
    var name := IndexOf(src[i..], "]");
    if name < 0 || i + name + 1 >= |src| || src[i + name + 1] != '(' then Nothing
    else
      BracketApart(src, i);
      var start := i + name + 2;
      var url := IndexOf(src[start..], ")");
      if url < 0 then Nothing
      else One(start + url + 1, LinkSpan(env, src[i + 1..i + name], src[start..start + url]))
  }

  lemma BracketApart(src: string, i: nat)
    requires i < |src| && src[i] == '[' && IndexOf(src[i..], "]") >= 0
    ensures IndexOf(src[i..], "]") >= 1
  {
    assert src[i..][..1] == "[";
  }

  /** Name, identity and whether it is animated, from ":name:id" or "a:name:id". */
  function EmojiParts(body: string): (r: Option<(string, nat, bool)>) {
    var animated := StartsWith(body, "a");
    var parts := SplitN(if animated then body[1..] else body, ':', -1);
    if |parts| != 3 || parts[1] == "" then None
    else
      match ParseID(parts[2])
      case None => None
      case Some(id) => Some((parts[1], id, animated))
  }

  function TimestampParts(body: string): (string, string) {
    var k := IndexOf(body, ":");
    if k < 0 then (body, "f") else (body[..k], if body[k + 1..] != "" then body[k + 1..] else "f")
  }

  function MentionSpan(env: Env, digits: string): Option<Span> {
    match ParseID(digits)
    case None => None
    case Some(id) => Some(Linking(Mention, "@" + env.member(id), UserProfile, FormatUint(id)))
  }

  function EmojiSpan(name: string, id: nat, animated: bool): Span {
    Simple(Emoji, ":" + name + ":").(emojiId := id, emojiAnimated := animated)
  }

  /** The span of what stands between `<` and `>`, if it is an entity. */
  function EntitySpan(env: Env, body: string): Option<Span> {
    if StartsWith(body, "@!") then MentionSpan(env, body[2..])
    else if StartsWith(body, "@&") then
      match ParseID(body[2..])
      case None => None
      case Some(id) =>
        Some(Linking(RoleMention, "@" + env.role(id).0, RoleDetails, FormatUint(id)).(fg := env.role(id).1))
    else if StartsWith(body, "@") then MentionSpan(env, body[1..])
    else if StartsWith(body, "#") then
      match ParseID(body[1..])
      case None => None
      case Some(id) => Some(Simple(ChannelMention, "#" + env.channel(id)))
    else if StartsWith(body, "t:") then
      var parts := TimestampParts(body[2..]);
      match ParseID(parts.0)
      case None => None
      case Some(unix) => Some(Simple(Timestamp, env.timestamp(unix, parts.1)))
    else if StartsWith(body, ":") || StartsWith(body, "a:") then
      match EmojiParts(body)
      case None => None
      case Some((name, id, animated)) => Some(EmojiSpan(name, id, animated))
    else None
  }

  function FindEntity(env: Env, src: string, i: nat): (f: Found)
    requires i < |src| && src[i] == '<'
    ensures Progress(f, src, i)
  {
    var close := IndexOf(src[i..], ">");
    if close < 0 then Nothing
    else
      AngleApart(src, i);
      match EntitySpan(env, src[i + 1..i + close])
      case None => Nothing
      case Some(span) => One(i + close + 1, span)
  }

  lemma AngleApart(src: string, i: nat)
    requires i < |src| && src[i] == '<' && IndexOf(src[i..], ">") >= 0
    ensures IndexOf(src[i..], ">") >= 1
  {
    assert src[i..][..1] == "<";
  }

  function WebSpan(env: Env, target: string): Span {
    var name := env.queryName(target);
    var kind := env.classify(target);
    if name.Some? && kind == EmojiUrl then
      Simple(FakeEmoji, if name.value == "" then "emoji" else name.value).(url := target)
    else if name.Some? && kind == StickerUrl then
      Simple(FakeSticker, if name.value == "" then "sticker" else name.value).(url := target)
    else Linking(Link, target, OpenURL, target).(url := target)
  }

  function FindWebURL(env: Env, src: string, i: nat): (f: Found)
    requires i < |src|
    ensures Progress(f, src, i)
  {
    var end := URLEnd(src, i);
    if end <= i then Nothing else One(end, WebSpan(env, src[i..end]))
  }

  /** The span of a link into Discord itself, if it is one. */
  function DiscordSpan(env: Env, raw: string): Option<Span> {
    if StartsWith(raw, CHANNELS) then
      var parts := SplitN(raw[|CHANNELS|..], '/', 4);
      if |parts| == 2 && ParseID(parts[0]).Some? && ParseID(parts[1]).Some? then
        Some(Linking(ChannelLink, "#" + env.channel(ParseID(parts[1]).value), ToChannel, parts[0] + "/" + parts[1]))
      else if |parts| == 3 && ParseID(parts[0]).Some? && ParseID(parts[1]).Some? && ParseID(parts[2]).Some? then
        Some(Linking(MessageLink, "#" + env.channel(ParseID(parts[1]).value) + " \U{21B7} " + parts[2], ToMessage,
                     parts[0] + "/" + parts[1] + "/" + parts[2]))
      else None
    else if ExtractInviteCode(raw) != "" then
      Some(Linking(InviteLink, "discord.gg/" + ExtractInviteCode(raw), Invite, ExtractInviteCode(raw)))
    else None
  }

  function FindDiscordURL(env: Env, src: string, i: nat): (f: Found)
    requires i < |src|
    ensures Progress(f, src, i)
  {
    var end := URLEnd(src, i);
    if end == i then Nothing
    else
      match DiscordSpan(env, src[i..end])
      case None => Nothing
      case Some(span) => One(end, span)
  }

  function FindLine(src: string, i: nat): (f: Found)
    requires i < |src|
    ensures Progress(f, src, i)
  {
    if !AtLineStart(src, i) then Nothing
    else if Has(src, i, "-#") then FindSmall(src, i)
    else if Has(src, i, "#") then FindHeader(src, i)
    else if src[i] == '>' then FindQuote(src, i)
    else Nothing
  }

  function FindInline(env: Env, src: string, i: nat): (f: Found)
    requires i < |src|
    ensures Progress(f, src, i)
  {
    if Has(src, i, "```") then FindFenced(src, i)
    else if src[i] == '`' then FindInlineCode(src, i)
    else if Has(src, i, "***") then FindDelimited(src, i, "***", {Bold, Italic})
    else if Has(src, i, "___") then FindDelimited(src, i, "___", {Underline, Italic})
    else if Has(src, i, "**") then FindDelimited(src, i, "**", {Bold})
    else if Has(src, i, "__") then FindDelimited(src, i, "__", {Underline})
    else if Has(src, i, "~~") then FindDelimited(src, i, "~~", {Strike})
    else if Has(src, i, "||") then FindDelimited(src, i, "||", {Spoiler})
    else if Has(src, i, "*") then FindDelimited(src, i, "*", {Italic})
    else if Has(src, i, "_") then FindDelimited(src, i, "_", {Italic})
    else if src[i] == '[' then FindLink(env, src, i)
    else if src[i] == '<' then FindEntity(env, src, i)
    else if Has(src, i, "https://discord.") then
      var f := FindDiscordURL(env, src, i);
      if f.Nothing? then FindWebURL(env, src, i) else f
    else if Has(src, i, "https://") || Has(src, i, "http://") then FindWebURL(env, src, i)
    else Nothing
  }

  function Find(env: Env, src: string, i: nat): (f: Found)
    requires i < |src|
    ensures Progress(f, src, i)
  {
    var line := FindLine(src, i);
    if line.Nothing? then FindInline(env, src, i) else line
  }

  // ---- whole texts

  function Flush(buf: string, format: Format): seq<Span> {
    if buf == "" then [] else [FormattedText(buf, format)]
  }

  /** The spans of the text from a position on, after plain text not yet made a span. */
  function Run(env: Env, src: string, i: nat, format: Format, buf: string): seq<Span>
    requires i <= |src|
    decreases |src|, |src| - i
  {
    if i == |src| then Flush(buf, format)
    else
      var f := Find(env, src, i);
      if f.Nothing? then Run(env, src, i + 1, format, buf + [src[i]])
      else Flush(buf, format) + Emitted(env, f, format, |src|) + Run(env, src, f.next, format, "")
  }

  function Emitted(env: Env, f: Found, format: Format, n: nat): seq<Span>
    requires Smaller(f, n)
    decreases n, 0, 1
  {
    match f
    case Nothing => []
    case One(_, span) => [ApplyFormat(span, format)]
    case Styled(_, inner, style) => Run(env, inner, 0, format + style, "")
    case Heading(_, level, inner) => HeadingSpans(Run(env, inner, 0, format, ""), level, format)
    case Quoted(_, lines) => QuotedSpans(env, lines, format, n)
  }

  function HeadingSpans(inner: seq<Span>, level: nat, format: Format): seq<Span> {
    if |inner| == 1 && inner[0].kind == Text then
      [ApplyFormat(Simple(Header, inner[0].text).(headerLevel := level), format)]
    else
      [ApplyFormat(Simple(Header, "").(headerLevel := level), format)] + Levelled(inner, level, format)
  }

  function Levelled(inner: seq<Span>, level: nat, format: Format): seq<Span> {
    if inner == [] then []
    else
      var n := |inner| - 1;
      Levelled(inner[..n], level, format) + [ApplyFormat(inner[n].(headerLevel := level), format)]
  }

  /** Each line behind a gutter, the later ones on a line of their own. */
  function QuotedSpans(env: Env, lines: seq<string>, format: Format, n: nat): seq<Span>
    requires forall l :: l in lines ==> |l| < n
    decreases n, 0, 0, |lines|
  {
    if lines == [] then []
    else
      var k := |lines| - 1;
      var gutter := ApplyFormat(Simple(Quote, if k > 0 then "\n" + GUTTER else GUTTER), format);
      QuotedSpans(env, lines[..k], format, n) + [gutter] + MarkQuoted(Run(env, lines[k], 0, format, ""))
  }

  function MarkQuoted(spans: seq<Span>): (q: seq<Span>)
    ensures |q| == |spans|
  {
    seq(|spans|, i requires 0 <= i < |spans| => spans[i].(quoted := true))
  }

  function Parse(content: string, env: Env): seq<Span> { Run(env, content, 0, {}, "") }
}
