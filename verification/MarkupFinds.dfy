/** Each construct of a message, written down, is found whole where it stands, whatever follows it. */
module MarkupFinds {
  import opened Collections
  import opened Search
  import opened Markup

  function Mark(style: Style): char {
    match style
    case Bold => '*'
    case Italic => '*'
    case Underline => '_'
    case Strike => '~'
    case Spoiler => '|'
  }

  function Delim(style: Style): string { [Mark(style), Mark(style)] }

  /** What makes text italic: one mark of bold or underline, or three of them for both styles. */
  function Slant(style: Style, triple: bool): string {
    if triple then [Mark(style), Mark(style), Mark(style)] else [Mark(style)]
  }

  function SlantFormat(style: Style, triple: bool): Format { if triple then {style, Italic} else {Italic} }

  predicate Slants(style: Style) { style == Bold || style == Underline }

  /** Characters that start a construct anywhere in a line. */
  predicate Opens(c: char) { c == '*' || c == '_' || c == '~' || c == '|' || c == '`' || c == '<' || c == '[' }

  predicate NoBreak(s: string) { forall k :: 0 <= k < |s| ==> s[k] != '\n' }

  function Breaks(n: nat): string { seq(n, _ => '\n') }

  predicate StartsURL(x: string, k: nat)
    requires k <= |x|
  {
    Has(x, k, "http://") || Has(x, k, "https://")
  }

  /** What starts a heading, a quote or small text at the start of a line. */
  predicate StartsLine(x: string, k: nat)
    requires k < |x|
  {
    x[k] == '#' || x[k] == '>' || Has(x, k, "-#")
  }

  /** What was written from a position on stands there, from `k` to `m`. */
  lemma InPlace(src: string, i: nat, front: string, text: string, rest: string, k: nat, m: nat)
    requires i <= |src| && src[i..] == front + text + rest && k == i + |front| && m == k + |text|
    ensures m <= |src| && Has(src, i, front) && src[k..] == text + rest && src[k..m] == text && src[m..] == rest
  {
    var x := src[i..];
    assert |x| == |src| - i;
    assert src[k..] == x[|front|..] && src[k..m] == x[|front|..|front| + |text|] && src[m..] == x[|front| + |text|..];
  }

  lemma Rejoin<T>(a: seq<T>, b: seq<T>, c: seq<T>)
    ensures a + b + c == a + (b + c) && [] + c == c
  {
  }

  lemma Apart(a: string, b: string, c: string, d: string)
    ensures a + b + c + d == a + b + (c + d) == a + (b + c + d)
  {
  }

  lemma FirstDiffers(src: string, i: nat, pat: string)
    requires i < |src| && pat != "" && src[i] != pat[0]
    ensures !Has(src, i, pat)
  {
    assert src[i..][0] == src[i];
  }

  lemma SecondDiffers(src: string, i: nat, pat: string, k: nat)
    requires i + k < |src| && k < |pat| && src[i + k] != pat[k]
    ensures !Has(src, i, pat)
  {
    assert src[i..][k] == src[i + k];
  }

  lemma FrontHas(src: string, i: nat, pat: string, longer: string)
    requires i <= |src| && |pat| <= |longer| && longer[..|pat|] == pat && Has(src, i, longer)
    ensures Has(src, i, pat)
  {
    assert src[i..][..|pat|] == src[i..][..|longer|][..|pat|];
  }

  /** A plain character starts nothing, unless an address or a line construct starts there. */
  lemma PlainIsLiteral(env: Env, src: string, i: nat)
    requires i < |src| && !Opens(src[i]) && !StartsURL(src, i) && (AtLineStart(src, i) ==> !StartsLine(src, i))
    ensures Find(env, src, i).Nothing?
  {
    if Has(src, i, "https://discord.") { FrontHas(src, i, "https://", "https://discord."); }
    hide Has;
    if src[i] != '#' { FirstDiffers(src, i, "#"); }
    FirstDiffers(src, i, "```");
    FirstDiffers(src, i, "***");
    FirstDiffers(src, i, "___");
    FirstDiffers(src, i, "**");
    FirstDiffers(src, i, "__");
    FirstDiffers(src, i, "~~");
    FirstDiffers(src, i, "||");
    FirstDiffers(src, i, "*");
    FirstDiffers(src, i, "_");
  }

  /** No construct of a whole line starts with a mark, a backquote or an angle bracket. */
  lemma NoLine(src: string, i: nat)
    requires i < |src| && Opens(src[i])
    ensures FindLine(src, i).Nothing?
  {
    FirstDiffers(src, i, "-#");
    FirstDiffers(src, i, "#");
  }

  lemma IndexOfMark(x: string, before: string, pat: string, rest: string)
    requires x == before + pat + rest && pat != "" && forall k :: 0 <= k < |before| ==> before[k] != pat[0]
    ensures IndexOf(x, pat) == |before|
  {
    forall j | 0 <= j < |before|
      ensures !Occurs(x, pat, j)
    {
      assert x[j + 0] == before[j];
    }
    assert forall k :: 0 <= k < |pat| ==> x[|before| + k] == pat[k];
    IndexIs(x, pat, |before|);
  }

  predicate Lacks(text: string, c: char) { forall i :: 0 <= i < |text| ==> text[i] != c }

  /** Text that neither starts nor ends with `m` nor doubles it. */
  predicate Clear(x: string, m: char) {
    x != "" && x[0] != m && x[|x| - 1] != m && forall i :: 0 <= i < |x| - 1 ==> x[i] != m || x[i + 1] != m
  }

  /** The first delimiter after such text is the one that follows it. */
  lemma DelimAfter(x: string, inner: string, style: Style, rest: string)
    requires x == inner + Delim(style) + rest && Clear(inner, Mark(style))
    ensures IndexOf(x, Delim(style)) == |inner|
  {
    var d := Delim(style);
    forall j | 0 <= j < |inner|
      ensures !Occurs(x, d, j)
    {
      assert x[j] == inner[j] && (j + 1 < |inner| ==> x[j + 1] == inner[j + 1]);
      assert x[j + 0] != d[0] || x[j + 1] != d[1];
    }
    assert forall k :: 0 <= k < |d| ==> x[|inner| + k] == d[k];
    IndexIs(x, d, |inner|);
  }

  /** A wrapper whose text does not contain its delimiter. */
  lemma WrapperFound(env: Env, src: string, i: nat, style: Style, inner: string, rest: string)
    requires i < |src| && src[i..] == Delim(style) + inner + Delim(style) + rest && style != Italic
    requires Clear(inner, Mark(style))
    ensures Find(env, src, i) == Styled(i + 4 + |inner|, inner, {style})
    ensures src[i + 4 + |inner|..] == rest
  {
    var d := Delim(style);
    var x := src[i..];
    assert x[0] == src[i] && x[1] == src[i + 1] && x[2] == src[i + 2];
    assert src[i] == Mark(style) == src[i + 1] && src[i + 2] == inner[0];
    NoLine(src, i);
    OnlyOwnDelim(src, i, style);
    assert src[i + 2..] == inner + d + rest by { assert src[i + 2..] == x[2..]; }
    DelimAfter(src[i + 2..], inner, style, rest);
    assert src[i + 2..][..|inner|] == inner;
    assert src[i + 2..i + 2 + |inner|] == inner;
    assert src[i + 4 + |inner|..] == x[4 + |inner|..];
    assert FindDelimited(src, i, d, {style}) == Styled(i + 4 + |inner|, inner, {style});
    OwnDelimiter(env, src, i, style);
  }

  lemma OnlyOwnDelim(src: string, i: nat, style: Style)
    requires i + 2 < |src| && src[i] == src[i + 1] == Mark(style) != src[i + 2]
    ensures Has(src, i, Delim(style)) && !Has(src, i, "***") && !Has(src, i, "___")
  {
    assert src[i..][..2] == Delim(style);
    if style == Underline {
      FirstDiffers(src, i, "***");
      SecondDiffers(src, i, "___", 2);
    } else if style == Bold || style == Italic {
      SecondDiffers(src, i, "***", 2);
      FirstDiffers(src, i, "___");
    } else {
      FirstDiffers(src, i, "***");
      FirstDiffers(src, i, "___");
    }
  }

  lemma OwnDelimiter(env: Env, src: string, i: nat, style: Style)
    requires i + 2 < |src| && src[i] == src[i + 1] == Mark(style) != src[i + 2] && style != Italic
    requires Has(src, i, Delim(style))
    ensures FindInline(env, src, i) == FindDelimited(src, i, Delim(style), {style})
  {
    hide FindDelimited, Has;
    OnlyOwnDelim(src, i, style);
    FirstDiffers(src, i, "```");
    match style {
      case Bold => assert Delim(style) == "**";
      case Underline =>
        assert Delim(style) == "__";
        FirstDiffers(src, i, "**");
      case Strike =>
        assert Delim(style) == "~~";
        FirstDiffers(src, i, "**");
        FirstDiffers(src, i, "__");
      case Spoiler =>
        assert Delim(style) == "||";
        FirstDiffers(src, i, "**");
        FirstDiffers(src, i, "__");
        FirstDiffers(src, i, "~~");
    }
  }

  /** The first run of such marks after the text is the one that follows it. */
  lemma SlantAfter(x: string, inner: string, style: Style, triple: bool, rest: string)
    requires x == inner + Slant(style, triple) + rest && Clear(inner, Mark(style))
    requires !triple ==> Lacks(inner, Mark(style))
    ensures IndexOf(x, Slant(style, triple)) == |inner|
  {
    var d := Slant(style, triple);
    forall j | 0 <= j < |inner|
      ensures !Occurs(x, d, j)
    {
      assert x[j] == inner[j] && (j + 1 < |inner| ==> x[j + 1] == inner[j + 1]);
      assert x[j + 0] != d[0] || (triple && x[j + 1] != d[1]);
    }
    assert forall k :: 0 <= k < |d| ==> x[|inner| + k] == d[k];
    IndexIs(x, d, |inner|);
  }

  lemma DelimitedIs(src: string, i: nat, d: string, inner: string, k: nat, end: nat, style: Format)
    requires i < |src| && d != "" && Has(src, i, d) && k == i + |d| && end == k + |inner| && end <= |src|
    requires inner != "" && src[k..end] == inner && IndexOf(src[k..], d) == |inner|
    ensures FindDelimited(src, i, d, style) == Styled(end + |d|, inner, style)
  {
    hide Has, IndexOf, Progress;
    assert k + IndexOf(src[k..], d) == end && |inner| > 0;
  }

  /** What a delimiter, a text, the same delimiter and more look like from inside. */
  lemma DelimitedAt(src: string, i: nat, d: string, inner: string, rest: string, k: nat, end: nat)
    requires i < |src| && src[i..] == d + inner + d + rest && k == i + |d| && end == k + |inner|
    ensures end + |d| <= |src| && Has(src, i, d) && src[k..end] == inner
    ensures src[k..] == inner + d + rest && src[end + |d|..] == rest
  {
    hide *;
    Apart(d, inner, d, rest);
    Rejoin(inner, d, rest);
    Rejoin(d, inner, d + rest);
    InPlace(src, i, d, inner, d + rest, k, end);
    Rejoin(d, inner, d);
    InPlace(src, i, d + inner, d, rest, end, end + |d|);
  }

  /** Italic text, alone or together with the style whose mark it takes. */
  lemma SlantFound(env: Env, src: string, i: nat, style: Style, triple: bool, inner: string, rest: string)
    requires i < |src| && src[i..] == Slant(style, triple) + inner + Slant(style, triple) + rest && Slants(style)
    requires Clear(inner, Mark(style)) && (!triple ==> Lacks(inner, Mark(style)))
    ensures var next := i + 2 * |Slant(style, triple)| + |inner|;
            Find(env, src, i) == Styled(next, inner, SlantFormat(style, triple)) && src[next..] == rest
  {
    var d := Slant(style, triple);
    var k := i + |d|;
    var end := k + |inner|;
    DelimitedAt(src, i, d, inner, rest, k, end);
    SlantAfter(src[k..], inner, style, triple, rest);
    DelimitedIs(src, i, d, inner, k, end, SlantFormat(style, triple));
    assert src[k] == src[k..][0] == inner[0] && src[i] == src[i..][0] == d[0];
    NoLine(src, i);
    hide FindInline, FindLine, FindDelimited, Has, IndexOf, Clear;
    SlantChosen(env, src, i, style, triple);
  }

  lemma SlantChosen(env: Env, src: string, i: nat, style: Style, triple: bool)
    requires Slants(style) && i < |src| && Has(src, i, Slant(style, triple))
    requires !triple ==> i + 1 < |src| && src[i + 1] != Mark(style)
    ensures FindInline(env, src, i) == FindDelimited(src, i, Slant(style, triple), SlantFormat(style, triple))
  {
    var d := Slant(style, triple);
    assert src[i] == src[i..][0] == src[i..][..|d|][0] == Mark(style);
    hide FindDelimited, Has;
    FirstDiffers(src, i, "```");
    FirstDiffers(src, i, "~~");
    FirstDiffers(src, i, "||");
    if style == Bold {
      FirstDiffers(src, i, "___");
      FirstDiffers(src, i, "__");
      if triple { assert d == "***"; } else {
        SecondDiffers(src, i, "***", 1);
        SecondDiffers(src, i, "**", 1);
        assert d == "*";
      }
    } else {
      FirstDiffers(src, i, "***");
      FirstDiffers(src, i, "**");
      FirstDiffers(src, i, "*");
      if triple { assert d == "___"; } else {
        SecondDiffers(src, i, "___", 1);
        SecondDiffers(src, i, "__", 1);
        assert d == "_";
      }
    }
  }

  lemma CodeFound(env: Env, src: string, i: nat, code: string, rest: string)
    requires i < |src| && src[i..] == "`" + code + "`" + rest
    requires code != "" && forall k :: 0 <= k < |code| ==> code[k] != '`'
    ensures Find(env, src, i) == One(i + 2 + |code|, Simple(Code, code))
    ensures src[i + 2 + |code|..] == rest
  {
    var x := src[i..];
    assert x[0] == src[i] && x[1] == src[i + 1] == code[0];
    NoLine(src, i);
    SecondDiffers(src, i, "```", 1);
    assert src[i + 1..] == code + "`" + rest by { assert src[i + 1..] == x[1..]; }
    IndexOfMark(src[i + 1..], code, "`", rest);
    assert src[i + 1..i + 1 + |code|] == code;
    assert src[i + 2 + |code|..] == x[2 + |code|..];
  }

  /** An entity whose body does not contain the closing bracket. */
  lemma EntityFound(env: Env, src: string, i: nat, body: string, span: Span, rest: string)
    requires i < |src| && src[i..] == "<" + body + ">" + rest
    requires forall k :: 0 <= k < |body| ==> body[k] != '>'
    requires EntitySpan(env, body) == Some(span)
    ensures Find(env, src, i) == One(i + 2 + |body|, span)
    ensures src[i + 2 + |body|..] == rest
  {
    hide EntitySpan;
    var x := src[i..];
    assert x[0] == src[i];
    NoLine(src, i);
    EntityAt(env, src, i);
    IndexOfMark(x, "<" + body, ">", rest);
    assert src[i + 1..i + 1 + |body|] == body by { assert x[1..1 + |body|] == body; }
    assert src[i + 2 + |body|..] == x[2 + |body|..];
  }

  lemma SplitNothing(s: string, sep: char, n: int)
    requires n != 0 && forall k :: 0 <= k < |s| ==> s[k] != sep
    ensures SplitN(s, sep, n) == [s]
  {
    IndexOfIsFirst(s, [sep]);
    if IndexOf(s, [sep]) >= 0 { OccursAt(s, sep, IndexOf(s, [sep])); }
  }

  lemma OccursAt(s: string, c: char, k: nat)
    requires Occurs(s, [c], k)
    ensures s[k] == c
  {
    assert s[k + 0] == [c][0];
  }

  lemma SplitFirst(first: string, sep: char, rest: string, n: int)
    requires (n < 0 || n > 1) && forall k :: 0 <= k < |first| ==> first[k] != sep
    ensures SplitN(first + [sep] + rest, sep, n) == [first] + SplitN(rest, sep, n - 1)
  {
    var s := first + [sep] + rest;
    IndexOfMark(s, first, [sep], rest);
    assert s[..|first|] == first && s[|first| + 1..] == rest;
  }

  /** The picker's emoji body splits into its name and identity. */
  lemma EmojiBody(env: Env, id: nat, name: string, animated: bool)
    requires name != "" && id < TWO64 && forall k :: 0 <= k < |name| ==> name[k] != ':'
    ensures EntitySpan(env, (if animated then "a:" else ":") + name + ":" + FormatUint(id)) ==
            Some(EmojiSpan(name, id, animated))
  {
    hide FormatUint, ParseID, SplitN, EntitySpan, StartsWith;
    var digits := FormatUint(id);
    var colon := ":" + name + ":" + digits;
    var body := (if animated then "a:" else ":") + name + ":" + digits;
    if animated { assert body[1..] == colon; } else { assert body == colon; }
    assert body[0] == if animated then 'a' else ':';
    assert SplitN(colon, ':', -1) == ["", name, digits] by {
      assert colon == "" + [':'] + (name + ":" + digits);
      SplitFirst("", ':', name + ":" + digits, -1);
      SplitFirst(name, ':', digits, -2);
      SplitNothing(digits, ':', -3);
    }
    ParseFormatsBack(id);
    EmojiEntity(env, body, animated);
  }

  lemma EmojiEntity(env: Env, body: string, animated: bool)
    requires body != "" && (if animated then |body| >= 2 && body[0] == 'a' && body[1] == ':' else body[0] == ':')
    ensures EntitySpan(env, body) ==
      match EmojiParts(body) case None => None case Some((name, id, moving)) => Some(EmojiSpan(name, id, moving))
    ensures StartsWith(body, "a") == animated
  {
    hide EmojiParts;
    assert body[..1] == [body[0]];
    if |body| >= 2 { assert body[..2] == [body[0], body[1]]; }
  }

  lemma EntityAt(env: Env, src: string, i: nat)
    requires i < |src| && src[i] == '<'
    ensures FindInline(env, src, i) == FindEntity(env, src, i)
  {
    hide Has, FindEntity;
    NoDelimiter(src, i);
  }

  // ---- entities

  /** Without a mark or a backquote at a position, no delimiter stands there. */
  lemma NoDelimiter(src: string, i: nat)
    requires i < |src| && src[i] != '`' && src[i] != '*' && src[i] != '_' && src[i] != '~' && src[i] != '|'
    ensures !Has(src, i, "```") && !Has(src, i, "***") && !Has(src, i, "___") && !Has(src, i, "**")
    ensures !Has(src, i, "__") && !Has(src, i, "~~") && !Has(src, i, "||") && !Has(src, i, "*") && !Has(src, i, "_")
  {
    hide Has;
    FirstDiffers(src, i, "```");
    FirstDiffers(src, i, "***");
    FirstDiffers(src, i, "___");
    FirstDiffers(src, i, "**");
    FirstDiffers(src, i, "__");
    FirstDiffers(src, i, "~~");
    FirstDiffers(src, i, "||");
    FirstDiffers(src, i, "*");
    FirstDiffers(src, i, "_");
  }

  /** User mentions come in two spellings, role and channel mentions in one each. */
  lemma IdBody(env: Env, sigil: string, id: nat)
    requires id < TWO64 && (sigil == "@" || sigil == "@!" || sigil == "@&" || sigil == "#")
    ensures EntitySpan(env, sigil + FormatUint(id)) ==
            Some(if sigil == "@&" then
                   Span(RoleMention, "@" + env.role(id).0, "", 0, false, {}, env.role(id).1, 0, false,
                        Some(Action(RoleDetails, FormatUint(id))))
                 else if sigil == "#" then
                   Span(ChannelMention, "#" + env.channel(id), "", 0, false, {}, 0, 0, false, None)
                 else
                   Span(Mention, "@" + env.member(id), "", 0, false, {}, 0, 0, false,
                        Some(Action(UserProfile, FormatUint(id)))))
  {
    hide FormatUint, ParseID;
    var digits := FormatUint(id);
    var body := sigil + digits;
    ParseFormatsBack(id);
    assert IsDigit(digits[0]);
    assert body[..2] == [body[0], body[1]] && body[..1] == [body[0]];
    if |sigil| == 2 { assert body[2..] == digits; } else { assert body[1..] == digits; }
  }

  /** A time without a style, or with an empty one, is shown as a short date and time. */
  lemma TimeBody(env: Env, unix: nat, style: Option<string>)
    requires unix < TWO64
    ensures EntitySpan(env, "t:" + FormatUint(unix) + if style.Some? then ":" + style.value else "") ==
            Some(Span(Timestamp,
                      env.timestamp(unix, if style.Some? && style.value != "" then style.value else "f"),
                      "", 0, false, {}, 0, 0, false, None))
  {
    hide FormatUint, ParseID;
    var digits := FormatUint(unix);
    var more := if style.Some? then ":" + style.value else "";
    var body := "t:" + digits + more;
    ParseFormatsBack(unix);
    assert body[..2] == [body[0], body[1]] == "t:" && body[..1] == "t" && body[2..] == digits + more;
    TimeParts(digits, style);
  }

  lemma TimeParts(digits: string, style: Option<string>)
    requires forall k :: 0 <= k < |digits| ==> IsDigit(digits[k])
    ensures TimestampParts(digits + if style.Some? then ":" + style.value else "") ==
            (digits, if style.Some? && style.value != "" then style.value else "f")
  {
    match style
    case None =>
      assert digits + "" == digits;
      IndexOfIsFirst(digits, ":");
      if IndexOf(digits, ":") >= 0 { OccursAt(digits, ':', IndexOf(digits, ":")); }
    case Some(s) =>
      var body := digits + (":" + s);
      assert body == digits + ":" + s;
      IndexOfMark(body, digits, ":", s);
      assert body[..|digits|] == digits && body[|digits| + 1..] == s;
  }

  // ---- links

  lemma LinkFound(env: Env, src: string, i: nat, title: string, address: string, rest: string)
    requires i < |src| && src[i..] == "[" + title + "](" + address + ")" + rest
    requires (forall k :: 0 <= k < |title| ==> title[k] != ']') && forall k :: 0 <= k < |address| ==> address[k] != ')'
    ensures Find(env, src, i) == One(i + 4 + |title| + |address|, LinkSpan(env, title, address))
    ensures src[i + 4 + |title| + |address|..] == rest
  {
    LinkBody(env, src, i, title, address, rest);
    assert src[i] == src[i..][0];
    NoLine(src, i);
    LinkAt(env, src, i);
    hide FindLine, FindInline, FindLink, LinkSpan;
  }

  lemma LinkBody(env: Env, src: string, i: nat, title: string, address: string, rest: string)
    requires i < |src| && src[i..] == "[" + title + "](" + address + ")" + rest && src[i] == '['
    requires (forall k :: 0 <= k < |title| ==> title[k] != ']') && forall k :: 0 <= k < |address| ==> address[k] != ')'
    ensures FindLink(env, src, i) == One(i + 4 + |title| + |address|, LinkSpan(env, title, address))
    ensures src[i + 4 + |title| + |address|..] == rest
  {
    hide *;
    var n, m := |title|, |address|;
    var behind := "(" + address + ")" + rest;
    Apart("[", title, "]", behind);
    assert src[i..] == "[" + title + "]" + behind;
    InPlace(src, i, "[", title, "]" + behind, i + 1, i + 1 + n);
    InPlace(src, i, "[" + title + "]", "(", address + ")" + rest, i + n + 2, i + n + 3);
    IndexOfMark(src[i..], "[" + title, "]", behind);
    assert src[i..] == "[" + title + "](" + address + (")" + rest);
    InPlace(src, i, "[" + title + "](", address, ")" + rest, i + n + 3, i + n + 3 + m);
    assert src[i + n + 3..] == address + ")" + rest;
    IndexOfMark(src[i + n + 3..], address, ")", rest);
    InPlace(src, i, "[" + title + "](" + address, ")", rest, i + n + 3 + m, i + n + 4 + m);
    assert src[i + n + 2] == src[i + n + 2..i + n + 3][0];
    LinkTo(env, src, i, n, m);
  }

  lemma LinkTo(env: Env, src: string, i: nat, n: nat, m: nat)
    requires i < |src| && src[i] == '[' && IndexOf(src[i..], "]") == n + 1
    requires i + n + 3 <= |src| && src[i + n + 2] == '(' && IndexOf(src[i + n + 3..], ")") == m &&
             i + n + 3 + m <= |src|
    ensures FindLink(env, src, i) ==
            One(i + n + 4 + m, LinkSpan(env, src[i + 1..i + 1 + n], src[i + n + 3..i + n + 3 + m]))
  {
    hide LinkSpan, IndexOf;
  }

  lemma LinkAt(env: Env, src: string, i: nat)
    requires i < |src| && src[i] == '['
    ensures FindInline(env, src, i) == FindLink(env, src, i)
  {
    hide Has, FindLink;
    NoDelimiter(src, i);
  }

  // ---- fenced code

  /** A fence begins at a place of the code, counting the closing fence's backquotes. */
  predicate OpensFence(code: string, k: nat)
    requires k < |code|
  {
    code[k] == '`' && (k + 1 < |code| ==> code[k + 1] == '`') && (k + 2 < |code| ==> code[k + 2] == '`')
  }

  predicate FenceClear(code: string) { forall k :: 0 <= k < |code| ==> !OpensFence(code, k) }

  lemma FencedFound(env: Env, src: string, i: nat, code: string, rest: string, end: nat)
    requires i < |src| && src[i..] == "```" + code + "```" + rest && FenceClear(code) && end == |code|
    ensures i + 6 + end <= |src| && src[i + 6 + end..] == rest
    ensures Find(env, src, i) == One(i + 6 + end, Simple(CodeBlock, TrimRight(TrimLeft(code, '\n'), '\n')))
  {
    FencedBody(src, i, code, rest, end);
    FencedAt(env, src, i);
    FenceStarts(src, i);
    NoLine(src, i);
    hide FindLine, FindInline, FindFenced, TrimLeft, TrimRight, FenceClear;
  }

  lemma FenceStarts(src: string, i: nat)
    requires i < |src| && Has(src, i, "```")
    ensures src[i] == '`'
  {
    assert src[i] == src[i..][..3][0];
  }

  lemma FencedBody(src: string, i: nat, code: string, rest: string, end: nat)
    requires i < |src| && src[i..] == "```" + code + "```" + rest && FenceClear(code) && end == |code|
    ensures i + 6 + end <= |src| && Has(src, i, "```") && src[i + 6 + end..] == rest
    ensures FindFenced(src, i) == One(i + 6 + end, Simple(CodeBlock, TrimRight(TrimLeft(code, '\n'), '\n')))
  {
    hide *;
    FencePlaces(src, i, code, rest, end);
    FenceIndex(src, i, code, rest);
    FencedIs(src, i, code, end);
  }

  lemma FencePlaces(src: string, i: nat, code: string, rest: string, end: nat)
    requires i < |src| && src[i..] == "```" + code + "```" + rest && end == |code|
    ensures i + 6 + end <= |src| && Has(src, i, "```") && src[i + 3..] == code + ("```" + rest)
    ensures src[i + 3..i + 3 + end] == code && src[i + 6 + end..] == rest
  {
    hide *;
    Apart("```", code, "```", rest);
    InPlace(src, i, "```", code, "```" + rest, i + 3, i + 3 + end);
    InPlace(src, i, "```" + code, "```", rest, i + 3 + end, i + 6 + end);
  }

  lemma FenceIndex(src: string, i: nat, code: string, rest: string)
    requires i + 3 <= |src| && src[i + 3..] == code + ("```" + rest) && FenceClear(code)
    ensures IndexOf(src[i + 3..], "```") == |code|
  {
    hide *;
    assert code + ("```" + rest) == code + "```" + rest;
    FenceAfter(src[i + 3..], code, rest);
  }

  lemma FencedIs(src: string, i: nat, code: string, end: nat)
    requires i < |src| && Has(src, i, "```") && IndexOf(src[i + 3..], "```") == end == |code|
    requires i + 3 + end <= |src| && src[i + 3..i + 3 + end] == code
    ensures FindFenced(src, i) == One(i + 6 + end, Simple(CodeBlock, TrimRight(TrimLeft(code, '\n'), '\n')))
  {
    hide *;
    FencedTo(src, i, end);
  }

  lemma FencedTo(src: string, i: nat, end: nat)
    requires i < |src| && Has(src, i, "```") && IndexOf(src[i + 3..], "```") == end && i + 3 + end <= |src|
    ensures FindFenced(src, i) ==
            One(i + 6 + end, Simple(CodeBlock, TrimRight(TrimLeft(src[i + 3..i + 3 + end], '\n'), '\n')))
  {
  }

  lemma FencedAt(env: Env, src: string, i: nat)
    requires i < |src| && Has(src, i, "```")
    ensures FindInline(env, src, i) == FindFenced(src, i)
  {
    hide FindFenced;
  }

  lemma FenceAfter(x: string, code: string, rest: string)
    requires x == code + "```" + rest && FenceClear(code)
    ensures IndexOf(x, "```") == |code|
  {
    forall j | 0 <= j < |code|
      ensures !Occurs(x, "```", j)
    {
      assert !OpensFence(code, j);
      var k := if code[j] != '`' then 0 else if j + 1 < |code| && code[j + 1] != '`' then 1 else 2;
      assert x[j + k] == code[j + k] != "```"[k];
    }
    assert forall k :: 0 <= k < 3 ==> x[|code| + k] == "```"[k];
    IndexIs(x, "```", |code|);
  }

  lemma BreaksStep(n: nat)
    requires n > 0
    ensures Breaks(n) == ['\n'] + Breaks(n - 1) == Breaks(n - 1) + ['\n']
  {
  }

  lemma {:induction false} TrimsBefore(n: nat, text: string)
    requires text == "" || text[0] != '\n'
    ensures TrimLeft(Breaks(n) + text, '\n') == text
  {
    if n > 0 {
      BreaksStep(n);
      assert (Breaks(n) + text)[1..] == Breaks(n - 1) + text;
      TrimsBefore(n - 1, text);
    } else {
      assert Breaks(0) + text == text;
    }
  }

  lemma {:induction false} TrimsAfter(text: string, n: nat)
    requires text == "" || text[|text| - 1] != '\n'
    ensures TrimRight(text + Breaks(n), '\n') == text
  {
    if n > 0 {
      var s := text + Breaks(n);
      BreaksStep(n);
      assert s[..|s| - 1] == text + Breaks(n - 1);
      TrimsAfter(text, n - 1);
    } else {
      assert text + Breaks(0) == text;
    }
  }

  lemma TrimsAround(before: nat, text: string, after: nat)
    requires text == "" || (text[0] != '\n' && text[|text| - 1] != '\n')
    ensures TrimRight(TrimLeft(Breaks(before) + text + Breaks(after), '\n'), '\n') == text
  {
    hide TrimLeft, TrimRight;
    if text == "" {
      assert Breaks(before) + text + Breaks(after) == Breaks(before + after) + "";
      TrimsBefore(before + after, "");
      TrimsAfter("", 0);
      assert "" + Breaks(0) == "";
    } else {
      assert Breaks(before) + text + Breaks(after) == Breaks(before) + (text + Breaks(after));
      TrimsBefore(before, text + Breaks(after));
      TrimsAfter(text, after);
    }
  }

  // ---- addresses

  /** White space, control characters, quotes, backquotes, and angle and square brackets. */
  predicate EndsAddress(c: char) { c <= ' ' || c in "\"'<>`[]" }

  predicate AllURL(s: string) { forall k :: 0 <= k < |s| ==> !EndsAddress(s[k]) }

  /** An address ends where the text goes on with something no address holds. */
  predicate Stops(rest: string) { rest == "" || EndsAddress(rest[0]) }

  lemma URLChars(c: char)
    ensures IsURLChar(c) <==> !EndsAddress(c)
  {
  }

  /** A letter, a digit or a hyphen. */
  predicate IsCodeChar(c: char) { 'a' <= c <= 'z' || 'A' <= c <= 'Z' || '0' <= c <= '9' || c == '-' }

  lemma {:induction false} URLEnds(src: string, i: nat, address: string, rest: string)
    requires i <= |src| && src[i..] == address + rest && AllURL(address) && Stops(rest)
    ensures URLEnd(src, i) == i + |address| && src[i..i + |address|] == address && src[i + |address|..] == rest
    decreases |address|
  {
    var n := |address|;
    assert "" + address + rest == address + rest;
    InPlace(src, i, "", address, rest, i, i + n);
    hide Has, Stops;
    if n == 0 {
      assert rest == src[i..];
      EndsHere(src, i, rest);
    } else {
      assert src[i] == src[i..][0] == address[0];
      URLChars(src[i]);
      assert src[i + 1..] == address[1..] + rest by { assert src[i + 1..] == src[i..][1..]; }
      URLEnds(src, i + 1, address[1..], rest);
    }
  }

  lemma EndsHere(src: string, i: nat, rest: string)
    requires i <= |src| && src[i..] == rest && Stops(rest)
    ensures URLEnd(src, i) == i
  {
    assert |rest| == |src| - i;
    if rest != "" {
      assert src[i] == rest[0];
      URLChars(src[i]);
    }
  }

  lemma WebAt(env: Env, src: string, i: nat)
    requires i < |src| && src[i] == 'h' && (Has(src, i, "http://") || Has(src, i, "https://"))
    ensures Find(env, src, i) ==
            if Has(src, i, "https://discord.") && !FindDiscordURL(env, src, i).Nothing?
            then FindDiscordURL(env, src, i) else FindWebURL(env, src, i)
  {
    hide FindDiscordURL, FindWebURL, Has;
    NoDelimiter(src, i);
    FirstDiffers(src, i, "-#");
    FirstDiffers(src, i, "#");
    assert FindLine(src, i).Nothing?;
    hide FindLine;
  }

  lemma HasAddress(src: string, i: nat, address: string, rest: string, pat: string)
    requires i < |src| && src[i..] == address + rest && StartsWith(address, pat)
    ensures Has(src, i, pat)
  {
    assert (address + rest)[..|pat|] == address[..|pat|];
  }

  /** An address into Discord itself. */
  lemma DiscordFound(env: Env, src: string, i: nat, address: string, rest: string, span: Span)
    requires i < |src| && src[i..] == address + rest && AllURL(address) && Stops(rest)
    requires StartsWith(address, "https://discord.") && DiscordSpan(env, address) == Some(span)
    ensures Find(env, src, i) == One(i + |address|, span) && src[i + |address|..] == rest
  {
    hide DiscordSpan;
    assert address[0] == address[..16][0] == 'h' && src[i] == src[i..][0];
    URLEnds(src, i, address, rest);
    HasAddress(src, i, address, rest, "https://discord.");
    FrontHas(src, i, "https://", "https://discord.");
    WebAt(env, src, i);
  }

  /** Any other address. */
  lemma WebFound(env: Env, src: string, i: nat, address: string, rest: string)
    requires i < |src| && src[i..] == address + rest && AllURL(address) && Stops(rest)
    requires StartsWith(address, "http://") || StartsWith(address, "https://")
    requires !StartsWith(address, "https://discord.")
    ensures Find(env, src, i) == One(i + |address|, WebSpan(env, address)) && src[i + |address|..] == rest
  {
    WebStarts(src, i, address, rest);
    URLEnds(src, i, address, rest);
    NotDiscord(env, address);
    WebAt(env, src, i);
    hide *;
    WebTo(env, src, i, address, i + |address|);
  }

  lemma WebTo(env: Env, src: string, i: nat, address: string, end: nat)
    requires i < end <= |src| && URLEnd(src, i) == end && src[i..end] == address && DiscordSpan(env, address).None?
    ensures FindWebURL(env, src, i) == One(end, WebSpan(env, address)) && FindDiscordURL(env, src, i).Nothing?
  {
    hide WebSpan, DiscordSpan, URLEnd;
  }

  lemma WebStarts(src: string, i: nat, address: string, rest: string)
    requires i < |src| && src[i..] == address + rest
    requires StartsWith(address, "http://") || StartsWith(address, "https://")
    ensures src[i] == 'h' && (Has(src, i, "http://") || Has(src, i, "https://")) && |address| >= 7
  {
    if StartsWith(address, "http://") {
      HasAddress(src, i, address, rest, "http://");
      assert address[0] == address[..7][0] == 'h';
    } else {
      HasAddress(src, i, address, rest, "https://");
      assert address[0] == address[..8][0] == 'h';
    }
    assert src[i] == src[i..][0];
  }

  lemma NotDiscord(env: Env, address: string)
    requires !StartsWith(address, "https://discord.")
    ensures DiscordSpan(env, address).None?
  {
    if StartsWith(address, CHANNELS) { PrefixOfPrefix(address, CHANNELS, "https://discord."); }
    if StartsWith(address, INVITE_SHORT) { PrefixOfPrefix(address, INVITE_SHORT, "https://discord."); }
    if StartsWith(address, INVITE_LONG) { PrefixOfPrefix(address, INVITE_LONG, "https://discord."); }
  }

  lemma PrefixOfPrefix(s: string, longer: string, pat: string)
    requires StartsWith(s, longer) && |pat| <= |longer| && longer[..|pat|] == pat
    ensures StartsWith(s, pat)
  {
    assert s[..|pat|] == s[..|longer|][..|pat|];
  }

  lemma StartDiffers(s: string, pat: string, k: nat)
    requires k < |pat| && k < |s| && s[k] != pat[k]
    ensures !StartsWith(s, pat)
  {
    assert |pat| <= |s| ==> s[..|pat|][k] == s[k];
  }

  lemma DigitsOnly(id: nat)
    ensures var d := FormatUint(id);
            forall k :: 0 <= k < |d| ==> d[k] != '/' && !EndsAddress(d[k])
  {
  }

  lemma ChannelAddress(env: Env, guild: nat, channel: nat)
    requires guild < TWO64 && channel < TWO64
    ensures var target := FormatUint(guild) + "/" + FormatUint(channel);
            DiscordSpan(env, "https://discord.com/channels/" + target) ==
            Some(Span(ChannelLink, "#" + env.channel(channel), "", 0, false, {}, 0, 0, false,
                      Some(Action(ToChannel, target))))
  {
    var g, c := FormatUint(guild), FormatUint(channel);
    DigitsOnly(guild);
    DigitsOnly(channel);
    ParseFormatsBack(guild);
    ParseFormatsBack(channel);
    hide *;
    SplitFirst(g, '/', c, 4);
    SplitNothing(c, '/', 3);
    ChannelParts(env, g, c);
  }

  lemma ChannelParts(env: Env, g: string, c: string)
    requires SplitN(g + "/" + c, '/', 4) == [g, c] && ParseID(g).Some? && ParseID(c).Some?
    ensures DiscordSpan(env, "https://discord.com/channels/" + (g + "/" + c)) ==
            Some(Span(ChannelLink, "#" + env.channel(ParseID(c).value), "", 0, false, {}, 0, 0, false,
                      Some(Action(ToChannel, g + "/" + c))))
  {
    hide ParseID, SplitN, ExtractInviteCode;
    var raw := "https://discord.com/channels/" + (g + "/" + c);
    assert raw[..|CHANNELS|] == CHANNELS && raw[|CHANNELS|..] == g + "/" + c;
  }

  lemma MessageAddress(env: Env, guild: nat, channel: nat, message: nat)
    requires guild < TWO64 && channel < TWO64 && message < TWO64
    ensures var target := FormatUint(guild) + "/" + FormatUint(channel) + "/" + FormatUint(message);
            DiscordSpan(env, "https://discord.com/channels/" + target) ==
            Some(Span(MessageLink, "#" + env.channel(channel) + " \U{21B7} " + FormatUint(message), "", 0, false, {},
                      0, 0, false, Some(Action(ToMessage, target))))
  {
    var g, c, m := FormatUint(guild), FormatUint(channel), FormatUint(message);
    DigitsOnly(guild);
    DigitsOnly(channel);
    DigitsOnly(message);
    ParseFormatsBack(guild);
    ParseFormatsBack(channel);
    ParseFormatsBack(message);
    hide *;
    ThreeParts(g, c, m);
    MessageParts(env, g, c, m);
  }

  lemma MessageParts(env: Env, g: string, c: string, m: string)
    requires SplitN(g + "/" + c + "/" + m, '/', 4) == [g, c, m]
    requires ParseID(g).Some? && ParseID(c).Some? && ParseID(m).Some?
    ensures DiscordSpan(env, "https://discord.com/channels/" + (g + "/" + c + "/" + m)) ==
            Some(Span(MessageLink, "#" + env.channel(ParseID(c).value) + " \U{21B7} " + m, "", 0, false, {}, 0, 0,
                      false, Some(Action(ToMessage, g + "/" + c + "/" + m))))
  {
    hide ParseID, SplitN, ExtractInviteCode;
    var path := g + "/" + c + "/" + m;
    var raw := "https://discord.com/channels/" + path;
    assert raw[..|CHANNELS|] == CHANNELS && raw[|CHANNELS|..] == path;
  }

  lemma ThreeParts(g: string, c: string, m: string)
    requires forall k :: 0 <= k < |g| ==> g[k] != '/'
    requires forall k :: 0 <= k < |c| ==> c[k] != '/'
    requires forall k :: 0 <= k < |m| ==> m[k] != '/'
    ensures SplitN(g + "/" + c + "/" + m, '/', 4) == [g, c, m]
  {
    hide SplitN;
    assert g + "/" + c + "/" + m == g + "/" + (c + "/" + m);
    SplitFirst(g, '/', c + "/" + m, 4);
    SplitFirst(c, '/', m, 3);
    SplitNothing(m, '/', 2);
  }

  lemma InviteAddress(env: Env, code: string, short: bool)
    requires code != "" && forall k :: 0 <= k < |code| ==> IsCodeChar(code[k])
    ensures DiscordSpan(env, (if short then "https://discord.gg/" else "https://discord.com/invite/") + code) ==
            Some(Span(InviteLink, "discord.gg/" + code, "", 0, false, {}, 0, 0, false, Some(Action(Invite, code))))
  {
    var raw := (if short then "https://discord.gg/" else "https://discord.com/invite/") + code;
    if short {
      assert raw[..|INVITE_SHORT|] == INVITE_SHORT && raw[|INVITE_SHORT|..] == code;
      StartDiffers(raw, CHANNELS, 16);
    } else {
      assert raw[..|INVITE_LONG|] == INVITE_LONG && raw[|INVITE_LONG|..] == code;
      StartDiffers(raw, CHANNELS, 20);
      StartDiffers(raw, INVITE_SHORT, 16);
    }
  }

  // ---- headings, small text and quotes, which take whole lines

  lemma LineEnds(src: string, start: nat, inner: string, rest: string)
    requires start <= |src| && src[start..] == inner + rest && NoBreak(inner) && (rest == "" || rest[0] == '\n')
    ensures LineEnd(src, start) == start + |inner| && src[start..start + |inner|] == inner
    ensures src[start + |inner|..] == rest
  {
    var x := src[start..];
    assert |x| == |src| - start;
    assert src[start..start + |inner|] == x[..|inner|] && src[start + |inner|..] == x[|inner|..];
    if rest == "" {
      IndexOfIsFirst(x, "\n");
      if IndexOf(x, "\n") >= 0 { OccursAt(x, '\n', IndexOf(x, "\n")); }
    } else {
      assert x == inner + "\n" + rest[1..];
      IndexOfMark(x, inner, "\n", rest[1..]);
    }
  }

  function Hashes(n: nat): string { seq(n, _ => '#') }

  lemma {:induction false} LevelRead(src: string, i: nat, n: nat, rest: string, most: nat)
    requires i <= |src| && src[i..] == Hashes(n) + " " + rest && n <= most
    ensures HeaderLevel(src, i, most) == n
    decreases n
  {
    var x := src[i..];
    assert |x| == |src| - i;
    if n == 0 {
      assert src[i] == x[0] == ' ';
    } else {
      assert src[i] == x[0] == '#';
      assert src[i + 1..] == x[1..] == Hashes(n - 1) + " " + rest;
      LevelRead(src, i + 1, n - 1, rest, most - 1);
    }
  }

  lemma HeaderFound(env: Env, src: string, i: nat, level: nat, inner: string, rest: string)
    requires i < |src| && AtLineStart(src, i) && 1 <= level <= 6
    requires src[i..] == Hashes(level) + " " + inner + rest && NoBreak(inner) && (rest == "" || rest[0] == '\n')
    ensures Find(env, src, i) == Heading(i + level + 1 + |inner|, level, inner)
    ensures src[i + level + 1 + |inner|..] == rest
  {
    hide *;
    Apart(Hashes(level), " ", inner, rest);
    LevelRead(src, i, level, inner + rest, 6);
    HashesStart(src, i, level, " " + inner + rest);
    InPlace(src, i, Hashes(level), " ", inner + rest, i + level, i + level + 1);
    assert src[i + level] == src[i + level..i + level + 1][0];
    LineEnds(src, i + level + 1, inner, rest);
    HeadingAt(env, src, i, level, i + level + 1 + |inner|);
  }

  lemma HashesStart(src: string, i: nat, n: nat, rest: string)
    requires n > 0 && i < |src| && src[i..] == Hashes(n) + rest
    ensures |Hashes(n)| == n && src[i] == '#'
  {
    assert src[i..][0] == '#';
  }

  lemma HeadingAt(env: Env, src: string, i: nat, level: nat, end: nat)
    requires i < |src| && AtLineStart(src, i) && src[i] == '#' && 1 <= level && HeaderLevel(src, i, 6) == level
    requires i + level < end <= |src| && src[i + level] == ' ' && LineEnd(src, i + level + 1) == end
    ensures Find(env, src, i) == Heading(end, level, src[i + level + 1..end])
  {
    hide HeaderLevel, LineEnd;
    assert src[i..][..1] == "#";
    FirstDiffers(src, i, "-#");
  }

  lemma SmallFound(env: Env, src: string, i: nat, text: string, rest: string)
    requires i < |src| && AtLineStart(src, i) && src[i..] == "-# " + text + rest
    requires NoBreak(text) && (rest == "" || rest[0] == '\n') && text + rest != ""
    ensures Find(env, src, i) == One(i + 3 + |text|, Span(Small, text, "", 0, false, {}, 0, 0, false, None))
    ensures src[i + 3 + |text|..] == rest
  {
    var x := src[i..];
    assert x[..2] == "-#" && x[2] == src[i + 2];
    assert src[i..i + 2] == x[..2];
    assert src[i + 3..] == text + rest by { assert src[i + 3..] == x[3..]; }
    LineEnds(src, i + 3, text, rest);
  }

  lemma QuoteAt(env: Env, src: string, i: nat)
    requires i < |src| && AtLineStart(src, i) && src[i] == '>' && !FindQuote(src, i).Nothing?
    ensures Find(env, src, i) == FindQuote(src, i)
  {
    hide FindQuote;
    FirstDiffers(src, i, "-#");
    FirstDiffers(src, i, "#");
  }

  lemma QuoteBody(src: string, i: nat, inner: string, rest: string, end: nat)
    requires i < |src| && src[i..] == "> " + inner + rest && NoBreak(inner) && (rest == "" || rest[0] == '\n')
    requires end == i + 2 + |inner|
    ensures end <= |src| && src[i] == '>' && FindQuote(src, i) == Quoted(end, [inner]) && src[end..] == rest
  {
    SplitNothing(inner, '\n', -1);
    hide *;
    Rejoin("> ", inner, rest);
    QuoteStarts(src, i, inner + rest);
    InPlace(src, i, "> ", inner, rest, i + 2, end);
    LineEnds(src, i + 2, inner, rest);
    QuoteTo(src, i, end);
  }

  lemma QuoteStarts(src: string, i: nat, text: string)
    requires i < |src| && src[i..] == "> " + text
    ensures src[i] == '>' && !Has(src, i, ">>> ")
  {
    var x := src[i..];
    assert x[0] == src[i] && x[1] == src[i + 1];
    SecondDiffers(src, i, ">>> ", 1);
  }

  lemma QuoteTo(src: string, i: nat, end: nat)
    requires i + 2 <= end <= |src| && Has(src, i, "> ") && !Has(src, i, ">>> ") && LineEnd(src, i + 2) == end
    ensures FindQuote(src, i) == Quoted(end, SplitN(src[i + 2..end], '\n', -1))
  {
    hide SplitN, LineEnd, Has;
  }

  lemma QuoteFound(env: Env, src: string, i: nat, inner: string, rest: string)
    requires i < |src| && AtLineStart(src, i) && src[i..] == "> " + inner + rest
    requires NoBreak(inner) && (rest == "" || rest[0] == '\n')
    ensures Find(env, src, i) == Quoted(i + 2 + |inner|, [inner]) && src[i + 2 + |inner|..] == rest
  {
    QuoteBody(src, i, inner, rest, i + 2 + |inner|);
    hide FindQuote;
    QuoteAt(env, src, i);
  }

  function JoinLines(lines: seq<string>): string {
    if lines == [] then "" else if |lines| == 1 then lines[0] else lines[0] + "\n" + JoinLines(lines[1..])
  }

  lemma {:induction false} LinesSplit(lines: seq<string>, n: int)
    requires n < 0 && lines != [] && forall l :: l in lines ==> NoBreak(l)
    ensures SplitN(JoinLines(lines), '\n', n) == lines
    decreases |lines|
  {
    assert lines[0] in lines;
    if |lines| == 1 {
      SplitNothing(lines[0], '\n', n);
    } else {
      SplitFirst(lines[0], '\n', JoinLines(lines[1..]), n);
      LinesSplit(lines[1..], n - 1);
    }
  }

  /** A quote of everything that follows, whose trailing line breaks are dropped. */
  lemma RestQuoteFound(env: Env, src: string, i: nat, lines: seq<string>, after: nat)
    requires i < |src| && AtLineStart(src, i) && src[i..] == ">>> " + JoinLines(lines) + Breaks(after)
    requires lines != [] && (forall l :: l in lines ==> NoBreak(l)) && (|lines| == 1 || lines[|lines| - 1] != "")
    ensures Find(env, src, i) == Quoted(|src|, lines)
  {
    RestQuoteBody(src, i, lines, after);
    hide FindQuote;
    QuoteAt(env, src, i);
  }

  lemma RestQuoteBody(src: string, i: nat, lines: seq<string>, after: nat)
    requires i < |src| && src[i..] == ">>> " + JoinLines(lines) + Breaks(after)
    requires lines != [] && (forall l :: l in lines ==> NoBreak(l)) && (|lines| == 1 || lines[|lines| - 1] != "")
    ensures src[i] == '>' && FindQuote(src, i) == Quoted(|src|, lines)
  {
    JoinEnds(lines);
    TrimsAfter(JoinLines(lines), after);
    LinesSplit(lines, -1);
    hide *;
    Rejoin(">>> ", JoinLines(lines), Breaks(after));
    RestTo(src, i, JoinLines(lines) + Breaks(after));
  }

  lemma RestTo(src: string, i: nat, text: string)
    requires i < |src| && src[i..] == ">>> " + text
    ensures src[i] == '>' && FindQuote(src, i) == Quoted(|src|, SplitN(TrimRight(text, '\n'), '\n', -1))
  {
    hide SplitN, TrimRight;
    var x := src[i..];
    assert x[..4] == ">>> " && x[0] == src[i];
    assert src[i + 4..] == text by { assert src[i + 4..] == x[4..]; }
  }

  lemma {:induction false} JoinEnds(lines: seq<string>)
    requires lines != [] && (forall l :: l in lines ==> NoBreak(l)) && (|lines| == 1 || lines[|lines| - 1] != "")
    ensures var s := JoinLines(lines);
            s == "" || s[|s| - 1] != '\n'
    ensures |lines| > 1 ==> JoinLines(lines) != ""
  {
    if |lines| > 1 {
      var rest := lines[1..];
      assert rest[|rest| - 1] == lines[|lines| - 1];
      JoinEnds(rest);
      if |rest| == 1 { assert rest[0] == lines[1] && JoinLines(rest) == lines[1]; }
    } else {
      assert lines[0] in lines;
    }
  }
}
