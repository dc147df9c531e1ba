/** internal/markup/parser.go: the scanner as it runs, with its text buffer and its spans. */
module MarkupParser {
  import opened Collections
  import opened Search
  import opened Markup

  class Parser {
    const src: string
    const env: Env
    const format: Format
    var buf: string
    var spans: seq<Span>

    constructor (src: string, env: Env, format: Format)
      ensures this.src == src && this.env == env && this.format == format
      ensures buf == "" && spans == []
    {
      this.src, this.env, this.format, buf, spans := src, env, format, "", [];
    }

    /** The parser has stepped over what `f` says, or done nothing when it says nothing. */
    twostate predicate Stepped(f: Found, i: nat, n: int)
      requires Smaller(f, |src|)
      reads this
    {
      if f.Nothing? then n == i && buf == old(buf) && spans == old(spans)
      else n == f.next && buf == "" && spans == old(spans) + Flush(old(buf), format) + Emitted(env, f, format, |src|)
    }

    method FlushText()
      modifies this`buf, this`spans
      ensures buf == "" && spans == old(spans) + Flush(old(buf), format)
    {
      if |buf| > 0 {
        spans := spans + [FormattedText(buf, format)];
        buf := "";
      }
    }

    method Emit(s: Span)
      modifies this`buf, this`spans
      ensures buf == "" && spans == old(spans) + Flush(old(buf), format) + [ApplyFormat(s, format)]
    {
      FlushText();
      spans := spans + [ApplyFormat(s, format)];
    }

    method ScanSmall(i: nat) returns (n: int)
      requires i < |src|
      modifies this`buf, this`spans
      ensures Stepped(FindSmall(src, i), i, n)
      decreases |src|, 0
    {
      if i + 3 >= |src| || src[i..i + 2] != "-#" || src[i + 2] != ' ' { return i; }
      var start := i + 3;
      n := LineEnd(src, start);
      Emit(Simple(Small, src[start..n]));
    }

    method ScanHeader(i: nat) returns (n: int)
      requires i < |src|
      modifies this`buf, this`spans
      ensures Stepped(FindHeader(src, i), i, n)
      decreases |src|, 0
    {
      hide Flush, ApplyFormat, Markup.Run, LineEnd, FormattedText;
      var level := CountHashes(src, i);
      var marker := i + level;
      if level == 0 || marker >= |src| || src[marker] != ' ' { return i; }
      n := LineEnd(src, marker + 1);
      var inner := new Parser(src[marker + 1..n], env, format);
      inner.Run();
      EmitHeading(inner.spans, level);
    }

    method EmitHeading(inner: seq<Span>, level: nat)
      modifies this`buf, this`spans
      ensures buf == ""
      ensures spans == old(spans) + Flush(old(buf), format) + HeadingSpans(inner, level, format)
    {
      hide FormattedText, ApplyFormat;
      if |inner| == 1 && inner[0].kind == Text {
        Emit(Simple(Header, inner[0].text).(headerLevel := level));
        return;
      }
      Emit(Simple(Header, "").(headerLevel := level));
      ghost var before := spans;
      for k := 0 to |inner|
        invariant buf == "" && spans == before + Levelled(inner[..k], level, format)
      {
        assert inner[..k + 1][..k] == inner[..k];
        Emit(inner[k].(headerLevel := level));
      }
      assert inner[..|inner|] == inner;
    }

    method ScanQuote(i: nat) returns (n: int)
      requires i < |src|
      modifies this`buf, this`spans
      ensures Stepped(FindQuote(src, i), i, n)
      decreases |src|, 0
    {
      hide Flush, Markup.Run, QuotedSpans, SplitN, IndexOf;
      if Has(src, i, ">>> ") {
        EmitQuotedLines(TrimRight(src[i + 4..], '\n'));
        return |src|;
      } else if Has(src, i, "> ") {
        n := LineEnd(src, i + 2);
        EmitQuotedLines(src[i + 2..n]);
      } else {
        n := i;
      }
    }

    method EmitQuotedLines(text: string)
      requires |text| < |src|
      modifies this`buf, this`spans
      ensures buf == "" && spans == old(spans) + Flush(old(buf), format) +
              QuotedSpans(env, SplitN(text, '\n', -1), format, |src|)
      decreases |src|, 0, 1
    {
      hide FormattedText, Markup.Run, ApplyFormat, SplitN, MarkQuoted, QuotedSpans;
      var lines := SplitN(text, '\n', -1);
      ghost var before := spans + Flush(buf, format);
      for i := 0 to |lines|
        invariant if i == 0 then buf == old(buf) && spans == old(spans)
                  else buf == "" && spans == before + QuotedSpans(env, lines[..i], format, |src|)
      {
        assert lines[i] in lines;
        EmitQuotedLine(lines[i], i > 0);
        QuotedNext(env, lines, i, format, |src|);
      }
      assert lines[..|lines|] == lines;
    }

    method EmitQuotedLine(line: string, later: bool)
      requires |line| < |src|
      modifies this`buf, this`spans
      ensures buf == ""
      ensures spans == old(spans) + Flush(old(buf), format)
                       + [ApplyFormat(Simple(Quote, if later then "\n" + GUTTER else GUTTER), format)]
                       + MarkQuoted(Markup.Run(env, line, 0, format, ""))
      decreases |src|, 0, 0
    {
      hide Flush, Markup.Run, ApplyFormat, MarkQuoted;
      var gutter := if later then "\n" + GUTTER else GUTTER;
      Emit(Simple(Quote, gutter));
      var inner := new Parser(line, env, format);
      inner.Run();
      spans := spans + MarkQuoted(inner.spans);
    }

    method ScanFenced(i: nat) returns (n: int)
      requires i < |src| && Has(src, i, "```")
      modifies this`buf, this`spans
      ensures Stepped(FindFenced(src, i), i, n)
      decreases |src|, 0
    {
      hide Flush, ApplyFormat, Markup.Run, IndexOf;
      var start := i + 3;
      var end := IndexOf(src[start..], "```");
      if end < 0 { return i; }
      Emit(Simple(CodeBlock, TrimRight(TrimLeft(src[start..start + end], '\n'), '\n')));
      n := start + end + 3;
    }

    method ScanInlineCode(i: nat) returns (n: int)
      requires i < |src|
      modifies this`buf, this`spans
      ensures Stepped(FindInlineCode(src, i), i, n)
      decreases |src|, 0
    {
      hide Flush, ApplyFormat, Markup.Run, IndexOf;
      var end := IndexOf(src[i + 1..], "`");
      if end < 0 { return i; }
      Emit(Simple(Code, src[i + 1..i + 1 + end]));
      n := i + 1 + end + 1;
    }

    method ScanDelimited(i: nat, delim: string, style: Format) returns (n: int)
      requires i < |src| && delim != "" && Has(src, i, delim)
      modifies this`buf, this`spans
      ensures Stepped(FindDelimited(src, i, delim, style), i, n)
      decreases |src|, 0
    {
      hide Flush, Markup.Run, IndexOf;
      var start := i + |delim|;
      var end := IndexOf(src[start..], delim);
      if end <= 0 { return i; }
      end := end + start;
      FlushText();
      var inner := new Parser(src[start..end], env, format + style);
      inner.Run();
      spans := spans + inner.spans;
      n := end + |delim|;
    }

    method ScanLink(i: nat) returns (n: int)
      requires i < |src| && src[i] == '['
      modifies this`buf, this`spans
      ensures Stepped(FindLink(env, src, i), i, n)
      decreases |src|, 0
    {
      hide Flush, ApplyFormat, Markup.Run, LinkSpan, IndexOf;
      var close := IndexOf(src[i..], "]");
      if close < 0 || i + close + 1 >= |src| || src[i + close + 1] != '(' { return i; }
      BracketApart(src, i);
      var name := src[i + 1..i + close];
      var start := i + close + 2;
      var end := IndexOf(src[start..], ")");
      if end < 0 { return i; }
      var url := src[start..start + end];
      Emit(LinkSpan(env, name, url));
      n := start + end + 1;
    }

    method ScanEntity(i: nat) returns (n: int)
      requires i < |src| && src[i] == '<'
      modifies this`buf, this`spans
      ensures Stepped(FindEntity(env, src, i), i, n)
      decreases |src|, 0
    {
      hide Flush, ApplyFormat, Markup.Run, EntitySpan, IndexOf;
      var close := IndexOf(src[i..], ">");
      if close < 0 { return i; }
      AngleApart(src, i);
      match EntitySpan(env, src[i + 1..i + close]) {
        case None => n := i;
        case Some(span) =>
          Emit(span);
          n := i + close + 1;
      }
    }

    method ScanWebURL(i: nat) returns (n: int)
      requires i < |src|
      modifies this`buf, this`spans
      ensures Stepped(FindWebURL(env, src, i), i, n)
      decreases |src|, 0
    {
      hide Flush, ApplyFormat, Markup.Run, WebSpan, URLEnd;
      n := EndOfURL(src, i);
      if n <= i { return; }
      Emit(WebSpan(env, src[i..n]));
    }

    method ScanDiscordURL(i: nat) returns (n: int)
      requires i < |src|
      modifies this`buf, this`spans
      ensures Stepped(FindDiscordURL(env, src, i), i, n)
      decreases |src|, 0
    {
      hide Flush, ApplyFormat, Markup.Run, DiscordSpan, URLEnd;
      var end := EndOfURL(src, i);
      if end == i { return i; }
      match DiscordSpan(env, src[i..end]) {
        case None => n := i;
        case Some(span) =>
          Emit(span);
          n := end;
      }
    }

    method MatchLine(i: nat) returns (n: int)
      requires i < |src|
      modifies this`buf, this`spans
      ensures Stepped(FindLine(src, i), i, n)
      decreases |src|, 1
    {
      n := i;
      if AtLineStart(src, i) {
        if Has(src, i, "-#") { n := ScanSmall(i); }
        else if Has(src, i, "#") { n := ScanHeader(i); }
        else if src[i] == '>' { n := ScanQuote(i); }
      }
    }

    method MatchInline(i: nat) returns (n: int)
      requires i < |src|
      modifies this`buf, this`spans
      ensures Stepped(FindInline(env, src, i), i, n)
      decreases |src|, 1
    {
      hide Flush, ApplyFormat, Markup.Run;
      if Has(src, i, "```") { n := ScanFenced(i); }
      else if src[i] == '`' { n := ScanInlineCode(i); }
      else if Has(src, i, "***") { n := ScanDelimited(i, "***", {Bold, Italic}); }
      else if Has(src, i, "___") { n := ScanDelimited(i, "___", {Underline, Italic}); }
      else if Has(src, i, "**") { n := ScanDelimited(i, "**", {Bold}); }
      else if Has(src, i, "__") { n := ScanDelimited(i, "__", {Underline}); }
      else if Has(src, i, "~~") { n := ScanDelimited(i, "~~", {Strike}); }
      else if Has(src, i, "||") { n := ScanDelimited(i, "||", {Spoiler}); }
      else if Has(src, i, "*") { n := ScanDelimited(i, "*", {Italic}); }
      else if Has(src, i, "_") { n := ScanDelimited(i, "_", {Italic}); }
      else if src[i] == '[' { n := ScanLink(i); }
      else if src[i] == '<' { n := ScanEntity(i); }
      else if Has(src, i, "https://discord.") {
        n := ScanDiscordURL(i);
        if n == i { n := ScanWebURL(i); }
      }
      else if Has(src, i, "https://") || Has(src, i, "http://") { n := ScanWebURL(i); }
      else { n := i; }
    }

    method MatchAt(i: nat) returns (n: int)
      requires i < |src|
      modifies this`buf, this`spans
      ensures Stepped(Find(env, src, i), i, n)
      decreases |src|, 2
    {
      n := MatchLine(i);
      if n == i { n := MatchInline(i); }
    }

    /** From a fresh parser: the spans of the whole text. */
    method Run()
      requires buf == "" && spans == []
      modifies this`buf, this`spans
      ensures spans == Markup.Run(env, src, 0, format, "")
      decreases |src|, 3
    {
      hide Flush, Find, Emitted;
      var i := 0;
      while i < |src|
        invariant i <= |src|
        invariant spans + Markup.Run(env, src, i, format, buf) == Markup.Run(env, src, 0, format, "")
        decreases |src| - i
      {
        var n := MatchAt(i);
        if n > i {
          i := n;
        } else {
          buf := buf + [src[i]];
          i := i + 1;
        }
      }
      FlushText();
    }
  }

  lemma QuotedNext(env: Env, lines: seq<string>, i: nat, format: Format, n: nat)
    requires i < |lines| && forall l :: l in lines ==> |l| < n
    ensures QuotedSpans(env, lines[..i + 1], format, n) ==
            (if i == 0 then [] else QuotedSpans(env, lines[..i], format, n))
            + [ApplyFormat(Simple(Quote, if i > 0 then "\n" + GUTTER else GUTTER), format)]
            + MarkQuoted(Markup.Run(env, lines[i], 0, format, ""))
  {
    hide ApplyFormat, MarkQuoted, Markup.Run;
    assert lines[..i + 1][..i] == lines[..i];
  }

  method CountHashes(s: string, i: nat) returns (level: nat)
    requires i <= |s|
    ensures level == HeaderLevel(s, i, 6)
  {
    level := 0;
    while level < 6 && i + level < |s| && s[i + level] == '#'
      invariant level <= 6 && i + level <= |s|
      invariant HeaderLevel(s, i, 6) == level + HeaderLevel(s, i + level, 6 - level)
    {
      level := level + 1;
    }
  }

  method EndOfURL(s: string, i: nat) returns (end: nat)
    requires i <= |s|
    ensures end == URLEnd(s, i)
  {
    end := i;
    while end < |s| && IsURLChar(s[end])
      invariant i <= end <= |s| && URLEnd(s, end) == URLEnd(s, i)
    {
      end := end + 1;
    }
  }

  method ParseMessage(content: string, env: Env) returns (spans: seq<Span>)
    ensures spans == Parse(content, env)
  {
    var p := new Parser(content, env, {});
    p.Run();
    spans := p.spans;
  }
}
