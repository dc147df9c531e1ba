/** When a wrapper inside another comes back from parsing, and when it does not. */
module MarkupNesting {
  import opened Collections
  import opened Search
  import opened Markup
  import opened MarkupFinds
  import opened MarkupRoundTrip

  predicate NoneOpens(pat: string) { forall k :: 0 <= k < |pat| ==> !Opens(pat[k]) }

  /** Such a pattern ends before the first opening character. */
  lemma PrefixCut(b: string, rest: string, pat: string)
    requires NoneOpens(pat) && rest != "" && Opens(rest[0]) && StartsWith(b + rest, pat)
    ensures StartsWith(b, pat)
  {
    var x := b + rest;
    assert forall k :: 0 <= k < |pat| ==> x[k] == x[..|pat|][k] == pat[k];
    assert x[|b|] == rest[0];
    assert |pat| <= |b|;
    assert b[..|pat|] == x[..|pat|];
  }

  lemma HasFront(a: string, b: string, k: nat, pat: string)
    requires k <= |a| && Has(a, k, pat)
    ensures Has(a + b, k, pat)
  {
    assert (a + b)[k..][..|pat|] == a[k..][..|pat|];
  }

  lemma HarmlessFront(a: string, b: string, start: bool)
    requires HarmlessAfter(a + b, start)
    ensures HarmlessAfter(a, start)
  {
    hide Has;
    forall k | 0 <= k < |a|
      ensures !StartsURL(a, k) && ((if k == 0 then start else a[k - 1] == '\n') ==> !StartsLine(a, k))
    {
      var x := a + b;
      if Has(a, k, "http://") { HasFront(a, b, k, "http://"); }
      if Has(a, k, "https://") { HasFront(a, b, k, "https://"); }
      if Has(a, k, "-#") { HasFront(a, b, k, "-#"); }
      assert !StartsURL(x, k) && ((if k == 0 then start else x[k - 1] == '\n') ==> !StartsLine(x, k));
    }
  }

  /** Text already scanned is read with the formatting around it, whatever follows. */
  lemma {:induction false} BufferReads(env: Env, src: string, i: nat, format: Format, buf: string)
    requires i <= |src|
    ensures Letters(buf, format) <= ReadAll(Run(env, src, i, format, buf))
    decreases |src| - i
  {
    hide Find, Emitted, Read;
    if i == |src| {
      ReadFlush(buf, format);
    } else if Find(env, src, i).Nothing? {
      BufferReads(env, src, i + 1, format, buf + [src[i]]);
      LettersAppend(buf, [src[i]], format);
    } else {
      ReadStep(env, src, i, format, buf);
    }
  }

  /** A wrapper with another around plain text among its nodes. */
  function Nested(s: Style, pre: seq<Node>, t: Style, b: string, post: seq<Node>): seq<Node> {
    [Wrapped(s, pre + [Wrapped(t, [Plain(b)])] + post)]
  }

  lemma {:induction false} PrintAllAppend(a: seq<Node>, b: seq<Node>)
    ensures PrintAll(a + b) == PrintAll(a) + PrintAll(b)
  {
    hide Print;
    if a == [] {
      assert a + b == b;
    } else {
      PrintAllAppend(a[1..], b);
      assert (a + b)[1..] == a[1..] + b;
    }
  }

  lemma {:induction false} AllPrintableAppend(a: seq<Node>, b: seq<Node>, used: Format)
    ensures AllPrintable(a + b, used) <==> AllPrintable(a, used) && AllPrintable(b, used)
  {
    hide Printable;
    if a == [] {
      assert a + b == b;
    } else {
      AllPrintableAppend(a[1..], b, used);
      assert (a + b)[1..] == a[1..] + b;
    }
  }

  lemma {:induction false} MeaningAllAppend(a: seq<Node>, b: seq<Node>, env: Env, format: Format)
    ensures MeaningAll(a + b, env, format) == MeaningAll(a, env, format) + MeaningAll(b, env, format)
  {
    hide Meaning;
    if a == [] {
      assert a + b == b;
    } else {
      MeaningAllAppend(a[1..], b, env, format);
      assert (a + b)[1..] == a[1..] + b;
    }
  }

  lemma NestedPrint(s: Style, pre: seq<Node>, t: Style, b: string, post: seq<Node>)
    ensures PrintAll(Nested(s, pre, t, b, post)) ==
            Delim(s) + PrintAll(pre) + Delim(t) + b + Delim(t) + PrintAll(post) + Delim(s)
  {
    hide Print, PrintAll, Delim;
    var inner := [Wrapped(t, [Plain(b)])];
    WrapperPrint(t, [Plain(b)]);
    PlainPrint(b);
    PrintAllAppend(pre, inner);
    PrintAllAppend(pre + inner, post);
    WrapperPrint(s, pre + inner + post);
    Regroup(Delim(s), PrintAll(pre), Delim(t), b, PrintAll(post));
  }

  lemma Regroup(d: string, p: string, e: string, b: string, q: string)
    ensures d + (p + (e + b + e) + q) + d == d + p + e + b + e + q + d
  {
    assert p + (e + b + e) == p + e + b + e;
    assert d + (p + e + b + e + q) == d + p + e + b + e + q;
  }

  lemma PlainPrint(b: string)
    ensures PrintAll([Plain(b)]) == b
  {
    assert PrintAll([Plain(b)]) == b + "";
  }

  lemma WrapperPrint(s: Style, body: seq<Node>)
    ensures PrintAll([Wrapped(s, body)]) == Delim(s) + PrintAll(body) + Delim(s)
  {
    hide Delim;
    assert PrintAll([Wrapped(s, body)]) == Delim(s) + PrintAll(body) + Delim(s) + "";
  }

  /** Its inner text, past what stands before it, carries the outer style. */
  lemma NestedMeaning(s: Style, pre: seq<Node>, b: string, post: seq<Node>, env: Env)
    requires b != ""
    ensures var m := MeaningAll(Nested(s, pre, s, b, post), env, {});
            MeaningAll(pre, env, {s}) + [Char(b[0], {s})] <= m
  {
    var inner := [Wrapped(s, [Plain(b)])];
    assert {} + {s} == {s} && {s} + {s} == {s};
    assert MeaningAll([Plain(b)], env, {s}) == Letters(b, {s}) + [];
    assert MeaningAll(inner, env, {s}) == Letters(b, {s}) + [];
    MeaningAllAppend(pre, inner, env, {s});
    MeaningAllAppend(pre + inner, post, env, {s});
    assert MeaningAll(Nested(s, pre, s, b, post), env, {}) == MeaningAll(pre + inner + post, env, {s}) + [];
  }

  lemma OuterFront(b: string, src: string, i: nat, rest: string)
    requires b != "" && Harmless(b) && i < |src| && src[i..] == b + rest && rest != "" && Opens(rest[0])
    ensures !StartsURL(src, i) && !StartsLine(src, i)
  {
    assert src[i] == src[i..][0] == b[0] && b[0..] == b;
    assert !StartsURL(b, 0) && !StartsLine(b, 0);
    if Has(src, i, "http://") { PrefixCut(b, rest, "http://"); }
    if Has(src, i, "https://") { PrefixCut(b, rest, "https://"); }
    if Has(src, i, "-#") { PrefixCut(b, rest, "-#"); }
  }

  /** Outside every wrapper a plain character reads without formatting. */
  lemma OuterLetter(env: Env, b: string, src: string, i: nat, rest: string)
    requires Printable(Plain(b), {}) && Harmless(b)
    requires i < |src| && src[i..] == b + rest && rest != "" && Opens(rest[0])
    ensures [Char(b[0], {})] <= ReadAll(Run(env, src, i, {}, ""))
  {
    hide Find, Emitted, Read, ReadAll;
    assert src[i] == src[i..][0] == b[0];
    OuterFront(b, src, i, rest);
    PlainIsLiteral(env, src, i);
    BufferReads(env, src, i + 1, {}, [b[0]]);
    assert Letters([b[0]], {}) == [Char(b[0], {})];
    assert "" + [src[i]] == [b[0]];
  }

  /** After other nodes, the opening mark of the inner wrapper closes the outer one. */
  lemma NestedLater(s: Style, pre: seq<Node>, b: string, post: seq<Node>, env: Env)
    requires s != Italic && pre != [] && BodyOk(pre, {s})
    requires Printable(Plain(b), {}) && Harmless(b)
    ensures MeaningAll(pre, env, {s}) + [Char(b[0], {})] <= ReadAll(Parse(PrintAll(Nested(s, pre, s, b, post)), env))
  {
    var d := Delim(s);
    var rest := d + PrintAll(post) + d;
    var src := d + PrintAll(pre) + d + (b + rest);
    assert rest != "" && Opens(rest[0]) && src != "";
    NestedPrint(s, pre, s, b, post);
    assert Parse(src, env) == Run(env, src, 0, {}, "");
    hide *;
    AfterOuter(d, PrintAll(pre), b, PrintAll(post));
    OuterCloses(env, src, s, pre, b, rest);
  }

  lemma AfterOuter(d: string, p: string, b: string, q: string)
    ensures d + p + d + b + d + q + d == d + p + d + (b + (d + q + d))
  {
  }

  lemma OuterCloses(env: Env, src: string, s: Style, pre: seq<Node>, b: string, rest: string)
    requires s != Italic && pre != [] && BodyOk(pre, {s}) && Printable(Plain(b), {}) && Harmless(b)
    requires src == Delim(s) + PrintAll(pre) + Delim(s) + (b + rest) && src != "" && rest != "" && Opens(rest[0])
    ensures MeaningAll(pre, env, {s}) + [Char(b[0], {})] <= ReadAll(Run(env, src, 0, {}, ""))
  {
    assert src[0..] == src && {} + {s} == {s};
    assert Printable(Wrapped(s, pre), {}) && b != "";
    NoLetters({});
    hide *;
    WrapperReads(env, src, 0, s, pre, b + rest, {}, {});
    ReadStep(env, src, 0, {}, "");
    var next := Find(env, src, 0).next;
    assert src[next..] != "" && next < |src|;
    OuterLetter(env, b, src, next, rest);
    assert [] + MeaningAll(pre, env, {s}) == MeaningAll(pre, env, {s});
  }

  /** A mark that starts nothing is read as a character. */
  lemma LiteralFirst(env: Env, src: string, format: Format)
    requires src != "" && Find(env, src, 0).Nothing?
    ensures [Char(src[0], format)] <= ReadAll(Run(env, src, 0, format, ""))
  {
    hide Find, Emitted, Read, ReadAll;
    BufferReads(env, src, 1, format, [src[0]]);
    assert Letters([src[0]], format) == [Char(src[0], format)];
    assert "" + [src[0]] == [src[0]];
  }

  /** The inner wrapper comes first: four marks in a row. */
  ghost predicate FourMarks(src: string, s: Style, b: string, more: string) {
    && s != Italic && Printable(Plain(b), {})
    && src == Delim(s) + Delim(s) + b + Delim(s) + more + Delim(s)
    && (more == "" || Clear(more, Mark(s)))
  }

  lemma MarkAlone(env: Env, src: string, s: Style, b: string)
    requires s != Italic && Printable(Plain(b), {}) && src == [Mark(s)] + b
    ensures Find(env, src, 0).Nothing?
  {
    hide FindInline, FindLine;
    NoLine(src, 0);
    NoDoubledMark(src, s, b);
    LoneMark(src, s, b);
    InlineNothing(env, src, s);
  }

  lemma NoDoubledMark(src: string, s: Style, b: string)
    requires s != Italic && Printable(Plain(b), {}) && src == [Mark(s)] + b
    ensures !Has(src, 0, "***") && !Has(src, 0, "___") && !Has(src, 0, "**") && !Has(src, 0, "__")
    ensures !Has(src, 0, "~~") && !Has(src, 0, "||")
  {
    assert src[1] == b[0] && !Opens(b[0]);
    hide Has, Printable;
    SecondDiffers(src, 0, "***", 1);
    SecondDiffers(src, 0, "___", 1);
    SecondDiffers(src, 0, "**", 1);
    SecondDiffers(src, 0, "__", 1);
    SecondDiffers(src, 0, "~~", 1);
    SecondDiffers(src, 0, "||", 1);
  }

  lemma InlineNothing(env: Env, src: string, s: Style)
    requires s != Italic && src != "" && src[0] == Mark(s)
    requires !Has(src, 0, "***") && !Has(src, 0, "___") && !Has(src, 0, "**") && !Has(src, 0, "__")
    requires !Has(src, 0, "~~") && !Has(src, 0, "||")
    requires Has(src, 0, [Mark(s)]) && FindDelimited(src, 0, [Mark(s)], {Italic}).Nothing?
    ensures FindInline(env, src, 0).Nothing?
  {
    hide FindDelimited, Has;
    FirstDiffers(src, 0, "```");
    if s == Bold {
      assert [Mark(s)] == "*";
    } else if s == Underline {
      assert [Mark(s)] == "_";
      FirstDiffers(src, 0, "*");
    } else {
      FirstDiffers(src, 0, "*");
      FirstDiffers(src, 0, "_");
      FirstDiffers(src, 0, "https://discord.");
      FirstDiffers(src, 0, "https://");
      FirstDiffers(src, 0, "http://");
    }
  }

  lemma LoneMark(src: string, s: Style, b: string)
    requires s != Italic && Printable(Plain(b), {}) && src == [Mark(s)] + b
    ensures Has(src, 0, [Mark(s)]) && FindDelimited(src, 0, [Mark(s)], {Italic}).Nothing?
  {
    var m := [Mark(s)];
    assert src[0..] == src && src[..1] == m && src[1..] == b;
    IndexOfIsFirst(b, m);
    if IndexOf(b, m) >= 0 { OccursAt(b, Mark(s), IndexOf(b, m)); }
  }

  function Triple(s: Style): string { [Mark(s), Mark(s), Mark(s)] }

  /** Bold and underline take three marks together with italic. */
  predicate HasTriple(s: Style) { s == Bold || s == Underline }

  lemma FourMarksAt(env: Env, src: string, s: Style, b: string, more: string)
    requires FourMarks(src, s, b, more)
    ensures if HasTriple(s) then
              Has(src, 0, Triple(s)) && Find(env, src, 0) == FindDelimited(src, 0, Triple(s), {s, Italic})
            else Find(env, src, 0).Nothing?
  {
    var m := Mark(s);
    assert src[0] == m && src[1] == m && src[2] == m && src[3] == m;
    assert src[0..] == src && src[..3] == Triple(s) && src[..2] == Delim(s);
    NoLine(src, 0);
    FirstDiffers(src, 0, "```");
    if s == Bold {
      assert Triple(s) == "***";
    } else if s == Underline {
      assert Triple(s) == "___";
      FirstDiffers(src, 0, "***");
    } else {
      FirstDiffers(src, 0, "***");
      FirstDiffers(src, 0, "___");
      FirstDiffers(src, 0, "**");
      FirstDiffers(src, 0, "__");
      ClosedAtOnce(src, s);
      if s == Spoiler { FirstDiffers(src, 0, "~~"); }
      assert Delim(s) == if s == Strike then "~~" else "||";
    }
  }

  lemma ClosedAtOnce(src: string, s: Style)
    requires |src| >= 4 && src[..2] == Delim(s) && src[2] == src[3] == Mark(s)
    ensures Has(src, 0, Delim(s)) && FindDelimited(src, 0, Delim(s), {s}).Nothing?
  {
    assert src[0..] == src;
    assert src[2..][0] == Mark(s) && src[2..][1] == Mark(s);
    assert Occurs(src[2..], Delim(s), 0);
    IndexIs(src[2..], Delim(s), 0);
  }

  lemma NoTriple(x: string, s: Style, k: nat, j: nat)
    requires j < 3 && k + j < |x| && x[k + j] != Mark(s)
    ensures !Occurs(x, Triple(s), k)
  {
    if k + 3 <= |x| { assert x[k + j] != Triple(s)[j]; }
  }

  /** With nothing after the inner wrapper, three marks close what three marks opened. */
  lemma TripleCloses(src: string, s: Style, b: string)
    requires FourMarks(src, s, b, "") && Has(src, 0, Triple(s))
    ensures FindDelimited(src, 0, Triple(s), {s, Italic}) == Styled(7 + |b|, [Mark(s)] + b, {s, Italic})
  {
    var m := Mark(s);
    var x := src[3..];
    assert x == [m] + b + Triple(s) + [m];
    forall k | 0 <= k < 1 + |b|
      ensures !Occurs(x, Triple(s), k)
    {
      assert if k == 0 then x[k + 1] == b[0] else x[k + 0] == b[k - 1];
      NoTriple(x, s, k, if k == 0 then 1 else 0);
    }
    assert Occurs(x, Triple(s), 1 + |b|) by {
      assert forall k :: 1 + |b| <= k < 4 + |b| ==> x[k] == m;
    }
    IndexIs(x, Triple(s), 1 + |b|);
    assert src[3..4 + |b|] == [m] + b;
  }

  /** With other nodes after it, no three marks stand together again. */
  lemma TripleStaysOpen(src: string, s: Style, b: string, more: string)
    requires FourMarks(src, s, b, more) && more != "" && Has(src, 0, Triple(s))
    ensures FindDelimited(src, 0, Triple(s), {s, Italic}).Nothing?
  {
    var m := Mark(s);
    var x := src[3..];
    assert x == [m] + b + [m, m] + more + [m, m];
    forall k | 0 <= k
      ensures !Occurs(x, Triple(s), k)
    {
      if k + 3 <= |x| { NoTripleAt(x, s, b, more, k); }
    }
    IndexOfIsFirst(x, Triple(s));
  }

  lemma NoTripleAt(x: string, s: Style, b: string, more: string, k: nat)
    requires x == [Mark(s)] + b + Delim(s) + more + Delim(s) && k + 3 <= |x|
    requires Printable(Plain(b), {}) && Clear(more, Mark(s))
    ensures !Occurs(x, Triple(s), k)
  {
    var n := |b| + 3;
    if k == 0 {
      assert x[1] == b[0];
      NoTriple(x, s, k, 1);
    } else if k <= |b| {
      assert x[k] == b[k - 1];
      NoTriple(x, s, k, 0);
    } else if k < n {
      assert x[n] == more[0];
      NoTriple(x, s, k, n - k);
    } else {
      assert x[k] == more[k - n];
      assert k + 1 < n + |more| ==> x[k + 1] == more[k + 1 - n];
      NoTriple(x, s, k, if x[k] != Mark(s) then 0 else 1);
    }
  }

  /** In front of everything else, the doubled opening marks are read as text. */
  lemma FourMarksRead(env: Env, src: string, s: Style, b: string, more: string)
    requires FourMarks(src, s, b, more)
    ensures exists format :: [Char(Mark(s), format)] <= ReadAll(Run(env, src, 0, {}, ""))
  {
    hide Find, FindDelimited, Emitted, Read, ReadAll, Letters, Run;
    assert src[0] == Mark(s);
    FourMarksAt(env, src, s, b, more);
    if HasTriple(s) && more == "" {
      TripleCloses(src, s, b);
      TripleReads(env, src, s, b);
    } else {
      if HasTriple(s) { TripleStaysOpen(src, s, b, more); }
      LiteralFirst(env, src, {});
    }
  }

  lemma TripleReads(env: Env, src: string, s: Style, b: string)
    requires FourMarks(src, s, b, "") && Find(env, src, 0) == Styled(7 + |b|, [Mark(s)] + b, {s, Italic})
    ensures [Char(Mark(s), {s, Italic})] <= ReadAll(Run(env, src, 0, {}, ""))
  {
    hide Find, Read, ReadAll, Letters;
    var inner := [Mark(s)] + b;
    MarkAlone(env, inner, s, b);
    LiteralFirst(env, inner, {s, Italic});
    ReadStep(env, src, 0, {}, "");
    assert {} + {s, Italic} == {s, Italic};
    assert Letters("", {}) == [];
  }

  lemma NestedFirst(s: Style, b: string, post: seq<Node>, env: Env)
    requires s != Italic && AllPrintable(post, {s}) && Printable(Plain(b), {})
    ensures exists format :: [Char(Mark(s), format)] <= ReadAll(Parse(PrintAll(Nested(s, [], s, b, post)), env))
  {
    hide Nested, AllPrintable, Run;
    var src := PrintAll(Nested(s, [], s, b, post));
    var more := PrintAll(post);
    NestedPrint(s, [], s, b, post);
    if post != [] { PrintAvoids(post, {s}, s); }
    assert PrintAll([]) == "" && Delim(s) + "" == Delim(s);
    assert src == Delim(s) + Delim(s) + b + Delim(s) + more + Delim(s);
    FourMarksRead(env, src, s, b, more);
  }

  lemma OutlineCons(n: Node, rest: seq<Node>)
    ensures Outline([n] + rest) == Sketch(n) + Outline(rest)
  {
    assert ([n] + rest)[1..] == rest;
  }

  lemma {:induction false} OutlineAppend(a: seq<Node>, b: seq<Node>)
    ensures Outline(a + b) == Outline(a) + Outline(b)
  {
    assert Outline([]) == "";
    hide Sketch, Outline;
    if a == [] {
      assert a + b == b;
      Rejoin("", "", Outline(b));
    } else {
      var rest := a[1..];
      OutlineAppend(rest, b);
      OutlineCons(a[0], rest);
      OutlineCons(a[0], rest + b);
      assert a == [a[0]] + rest;
      Rejoin([a[0]], rest, b);
      Rejoin(Sketch(a[0]), Outline(rest), Outline(b));
    }
  }

  lemma OneOutline(n: Node)
    ensures Outline([n]) == if n.Plain? then n.text else "`"
  {
    assert Outline([n][1..]) == "";
  }

  lemma MarksHarmless(x: string)
    requires forall k :: 0 <= k < |x| ==> x[k] == '`'
    ensures Harmless(x)
  {
    hide Has;
    forall k | 0 <= k < |x|
      ensures !StartsURL(x, k) && !StartsLine(x, k)
    {
      FirstDiffers(x, k, "http://");
      FirstDiffers(x, k, "https://");
      FirstDiffers(x, k, "-#");
    }
  }

  /** The outer wrapper's nodes. */
  function NestedBody(pre: seq<Node>, t: Style, b: string, post: seq<Node>): seq<Node> {
    pre + [Wrapped(t, [Plain(b)])] + post
  }

  lemma NestedPrintable(s: Style, pre: seq<Node>, t: Style, b: string, post: seq<Node>)
    requires s != Italic && t != Italic && s != t && Printable(Plain(b), {}) && Harmless(b)
    requires AllPrintable(pre, {s}) && AllPrintable(post, {s}) && Harmless(Outline(pre) + "`" + Outline(post))
    requires Joined(NestedBody(pre, t, b, post), true)
    ensures var nodes := Nested(s, pre, t, b, post);
            AllPrintable(nodes, {}) && Joined(nodes, true) && Harmless(Outline(nodes))
  {
    var wrapped := Wrapped(t, [Plain(b)]);
    var inner := [wrapped];
    var body := NestedBody(pre, t, b, post);
    JoinedAlone(Plain(b));
    JoinedAlone(Wrapped(s, body));
    hide Harmless, HarmlessAfter, Outline, AllPrintable, Avoids, Joined;
    OneOutline(Plain(b));
    OneOutline(wrapped);
    OneOutline(Wrapped(s, body));
    OutlineAppend(pre, inner);
    OutlineAppend(pre + inner, post);
    MarksHarmless("`");
    OnePrintable(Plain(b), {s} + {t});
    OnePrintable(wrapped, {s});
    OnePrintable(Wrapped(s, body), {});
    AllPrintableAppend(pre, inner, {s});
    AllPrintableAppend(pre + inner, post, {s});
    assert {} + {s} == {s};
  }

  lemma JoinedAlone(n: Node)
    requires !IsAddress(n) && !IsLine(n)
    ensures Joined([n], true)
  {
    assert Joined([n][1..], BreaksAtEnd(n));
  }

  /** Text and wrappers may follow each other in any order. */
  lemma {:induction false} JoinedFreely(nodes: seq<Node>, start: bool)
    requires forall n :: n in nodes ==> !IsAddress(n) && !IsLine(n)
    ensures Joined(nodes, start)
  {
    if nodes != [] { JoinedFreely(nodes[1..], BreaksAtEnd(nodes[0])); }
  }

  /** Inside a wrapper, what may stand together may also stand together without what follows. */
  lemma {:induction false} JoinedFront(a: seq<Node>, b: seq<Node>, used: Format, start: bool)
    requires AllPrintable(a, used) && used != {} && Joined(a + b, start)
    ensures Joined(a, start)
  {
    if a != [] {
      var rest := a[1..];
      assert (a + b)[0] == a[0] && (a + b)[1..] == rest + b;
      assert !IsLine(a[0]);
      hide Printable, Fits, Print, PrintAll;
      JoinedFront(rest, b, used, BreaksAtEnd(a[0]));
      PrintAllAppend(rest, b);
      FitsFront(a[0], start, PrintAll(rest), PrintAll(b));
    }
  }

  lemma FitsFront(n: Node, start: bool, x: string, y: string)
    requires !IsLine(n) && Fits(n, start, x + y)
    ensures Fits(n, start, x)
  {
  }

  /** Among printable nodes, a wrapper around plain text comes back from inside another exactly
      when the two are of different kinds. */
  lemma NestedComesBackIff(s: Style, pre: seq<Node>, t: Style, b: string, post: seq<Node>, env: Env)
    requires s != Italic && t != Italic && Printable(Plain(b), {}) && Harmless(b)
    requires AllPrintable(pre, {s}) && AllPrintable(post, {s}) && Harmless(Outline(pre) + "`" + Outline(post))
    requires Joined(NestedBody(pre, t, b, post), true)
    ensures var nodes := Nested(s, pre, t, b, post);
            ReadAll(Parse(PrintAll(nodes), env)) == MeaningAll(nodes, env, {}) <==> s != t
  {
    if s != t {
      NestedPrintable(s, pre, t, b, post);
      ParsingInvertsPrinting(Nested(s, pre, t, b, post), env);
    } else if pre == [] {
      SameFirst(s, b, post, env);
    } else {
      hide HarmlessAfter;
      assert Outline(pre) + "`" + Outline(post) == Outline(pre) + ("`" + Outline(post));
      HarmlessFront(Outline(pre), "`" + Outline(post), true);
      assert NestedBody(pre, t, b, post) == pre + ([Wrapped(t, [Plain(b)])] + post);
      JoinedFront(pre, [Wrapped(t, [Plain(b)])] + post, {s}, true);
      hide Nested, Parse, PrintAll, ReadAll, MeaningAll, Joined;
      SameLater(s, pre, b, post, env);
    }
  }

  lemma SameFirst(s: Style, b: string, post: seq<Node>, env: Env)
    requires s != Italic && Printable(Plain(b), {}) && AllPrintable(post, {s})
    ensures var nodes := Nested(s, [], s, b, post);
            ReadAll(Parse(PrintAll(nodes), env)) != MeaningAll(nodes, env, {})
  {
    NestedMeaning(s, [], b, post, env);
    NestedFirst(s, b, post, env);
    assert MeaningAll([], env, {s}) == [] && [] + [Char(b[0], {s})] == [Char(b[0], {s})];
    hide Nested, Parse, PrintAll, MeaningAll, ReadAll, AllPrintable;
    var read := ReadAll(Parse(PrintAll(Nested(s, [], s, b, post)), env));
    var meant := MeaningAll(Nested(s, [], s, b, post), env, {});
    assert !Opens(b[0]) && Opens(Mark(s)) && read[0].c == Mark(s) && meant[0].c == b[0];
  }

  lemma SameLater(s: Style, pre: seq<Node>, b: string, post: seq<Node>, env: Env)
    requires s != Italic && pre != [] && BodyOk(pre, {s}) && Printable(Plain(b), {}) && Harmless(b)
    ensures var nodes := Nested(s, pre, s, b, post);
            ReadAll(Parse(PrintAll(nodes), env)) != MeaningAll(nodes, env, {})
  {
    assert b != "";
    hide Nested, Parse, PrintAll, MeaningAll, ReadAll, BodyOk, Harmless, Printable;
    NestedMeaning(s, pre, b, post, env);
    NestedLater(s, pre, b, post, env);
    var read := ReadAll(Parse(PrintAll(Nested(s, pre, s, b, post)), env));
    var meant := MeaningAll(Nested(s, pre, s, b, post), env, {});
    var n := |MeaningAll(pre, env, {s})|;
    assert read[n] == Char(b[0], {}) && meant[n] == Char(b[0], {s});
  }

  /** Nesting more deeply, a wrapper can come back by accident: three bold texts in a row are
      printed the same way. */
  lemma DeeperNestingMayComeBack(a: string, env: Env)
    requires Printable(Plain(a), {}) && Harmless(a)
    ensures var nodes := [Wrapped(Bold, [Plain(a), Wrapped(Bold, [Wrapped(Bold, [Plain(a)])]), Plain(a)])];
            !AllPrintable(nodes, {}) && ReadAll(Parse(PrintAll(nodes), env)) == MeaningAll(nodes, env, {})
  {
    var bold := [Wrapped(Bold, [Plain(a)])];
    var body := [Plain(a), Wrapped(Bold, bold), Plain(a)];
    var row := bold + bold + bold;
    JoinedFreely([Plain(a)], true);
    JoinedFreely(row, true);
    hide AllPrintable, Print, Meaning, Harmless, HarmlessAfter, Outline, Joined;
    assert {} + {Bold} == {Bold};
    OneOutline(Plain(a));
    OneOutline(Wrapped(Bold, [Plain(a)]));
    OutlineAppend(bold, bold);
    OutlineAppend(bold + bold, bold);
    MarksHarmless("`" + "`" + "`");
    OnePrintable(Plain(a), {Bold});
    OnePrintable(Wrapped(Bold, [Plain(a)]), {});
    OnePrintable(Wrapped(Bold, body), {});
    OnePrintable(Wrapped(Bold, bold), {Bold});
    assert body == [Plain(a)] + [Wrapped(Bold, bold)] + [Plain(a)];
    AllPrintableAppend([Plain(a)], [Wrapped(Bold, bold)], {Bold});
    AllPrintableAppend([Plain(a)] + [Wrapped(Bold, bold)], [Plain(a)], {Bold});
    AllPrintableAppend(bold, bold, {});
    AllPrintableAppend(bold + bold, bold, {});
    RowPrints(a, bold, body, row);
    RowMeans(a, bold, body, row, env);
    ParsingInvertsPrinting(row, env);
  }

  lemma OnePrintable(n: Node, used: Format)
    ensures AllPrintable([n], used) <==> Printable(n, used)
  {
    hide Printable;
    assert AllPrintable([n][1..], used);
  }

  lemma RowPrints(a: string, bold: seq<Node>, body: seq<Node>, row: seq<Node>)
    requires bold == [Wrapped(Bold, [Plain(a)])] && row == bold + bold + bold
    requires body == [Plain(a), Wrapped(Bold, bold), Plain(a)]
    ensures PrintAll(row) == PrintAll([Wrapped(Bold, body)])
  {
    assert PrintAll([Plain(a)]) == a + "" == a;
    WrapperPrint(Bold, [Plain(a)]);
    WrapperPrint(Bold, bold);
    WrapperPrint(Bold, body);
    PrintAllAppend(bold, bold);
    PrintAllAppend(bold + bold, bold);
    assert body == [Plain(a)] + [Wrapped(Bold, bold)] + [Plain(a)];
    PrintAllAppend([Plain(a)], [Wrapped(Bold, bold)]);
    PrintAllAppend([Plain(a)] + [Wrapped(Bold, bold)], [Plain(a)]);
    hide PrintAll, Print;
    assert PrintAll(row) == ("**" + a + "**") + ("**" + a + "**") + ("**" + a + "**");
  }

  lemma RowMeans(a: string, bold: seq<Node>, body: seq<Node>, row: seq<Node>, env: Env)
    requires bold == [Wrapped(Bold, [Plain(a)])] && row == bold + bold + bold
    requires body == [Plain(a), Wrapped(Bold, bold), Plain(a)]
    ensures MeaningAll(row, env, {}) == MeaningAll([Wrapped(Bold, body)], env, {})
  {
    var letters := Letters(a, {Bold});
    assert {} + {Bold} == {Bold} && {Bold} + {Bold} == {Bold};
    assert MeaningAll([Plain(a)], env, {Bold}) == letters + [] == letters;
    assert MeaningAll(bold, env, {}) == letters + [] && MeaningAll(bold, env, {Bold}) == letters + [];
    assert MeaningAll([Wrapped(Bold, bold)], env, {Bold}) == letters + [];
    MeaningAllAppend(bold, bold, env, {});
    MeaningAllAppend(bold + bold, bold, env, {});
    assert body == [Plain(a)] + [Wrapped(Bold, bold)] + [Plain(a)];
    MeaningAllAppend([Plain(a)], [Wrapped(Bold, bold)], env, {Bold});
    MeaningAllAppend([Plain(a)] + [Wrapped(Bold, bold)], [Plain(a)], env, {Bold});
    assert MeaningAll([Wrapped(Bold, body)], env, {}) == MeaningAll(body, env, {Bold}) + [];
  }

  // ---- a heading of stacked styles

  /** A message that is one wrapper reads as its inner text with the wrapper's style. */
  lemma WrapperRun(env: Env, style: Style, inner: string, format: Format)
    requires style != Italic && Clear(inner, Mark(style))
    ensures Run(env, Delim(style) + inner + Delim(style), 0, format, "") == Run(env, inner, 0, format + {style}, "")
  {
    var src := Delim(style) + inner + Delim(style);
    assert src[0..] == src == Delim(style) + inner + Delim(style) + "";
    WrapperFound(env, src, 0, style, inner, "");
    hide Find, Clear;
    var f := Find(env, src, 0);
    assert f.next == |src| && Run(env, src, f.next, format, "") == [];
    assert Emitted(env, f, format, |src|) == Run(env, inner, 0, format + {style}, "");
    assert [] + Run(env, inner, 0, format + {style}, "") + [] == Run(env, inner, 0, format + {style}, "");
  }

  lemma PlainAlone(env: Env, x: string, format: Format)
    requires Printable(Plain(x), {}) && Harmless(x)
    ensures Run(env, x, 0, format, "") == [FormattedText(x, format)]
  {
    PlainPrint(x);
    OneOutline(Plain(x));
    OnePrintable(Plain(x), {});
    JoinedAlone(Plain(x));
    assert x[0..] == x && AtLineStart(x, 0) && "" + x == x;
    hide Run, Outline, PrintAll, Joined, AllPrintable, HarmlessAfter;
    PlainRun(env, x, 0, [Plain(x)], format, "");
  }

  lemma StackedRun(env: Env, s: Style, t: Style, x: string)
    requires s != Italic && t != Italic && s != t && Printable(Plain(x), {}) && Harmless(x)
    ensures Run(env, Delim(s) + (Delim(t) + x + Delim(t)) + Delim(s), 0, {}, "") ==
            [Simple(Text, x).(format := {s, t})]
  {
    var inner := Delim(t) + x + Delim(t);
    ClearLacks(x, Mark(t));
    ClearLacks(inner, Mark(s));
    PlainAlone(env, x, {s} + {t});
    assert {} + {s} == {s} && {s} + {t} == {s, t};
    TwoStyles(s, t, x);
    hide Run, Clear, Harmless, Printable, FormattedText;
    WrapperRun(env, s, inner, {});
    WrapperRun(env, t, x, {s});
  }

  lemma TwoStyles(s: Style, t: Style, x: string)
    requires s != t
    ensures FormattedText(x, {s, t}) == Simple(Text, x).(format := {s, t})
  {
    var f: Format := {s, t};
    assert s in f && t in f;
    assert forall u: Style :: f != {u} by {
      forall u: Style
        ensures f != {u}
      {
        assert s !in {u} || t !in {u};
      }
    }
  }

  /** Text in two styles at once is the one thing a heading does not keep: it comes out as a plain heading. */
  lemma StackedHeadingLosesStyles(level: nat, s: Style, t: Style, x: string, env: Env)
    requires 1 <= level <= 6 && s != Italic && t != Italic && s != t
    requires Printable(Plain(x), {}) && Harmless(x) && NoBreak(x)
    ensures Parse(PrintAll([Titled(level, [Wrapped(s, [Wrapped(t, [Plain(x)])])])]), env) == [HeaderOf(x, level)]
    ensures !HeadingKept([Wrapped(s, [Wrapped(t, [Plain(x)])])])
  {
    var inner := Delim(s) + (Delim(t) + x + Delim(t)) + Delim(s);
    var src := Hashes(level) + " " + inner;
    StackPrint(level, s, t, x);
    StackBreaks(s, t, x);
    StackShades(s, t, x);
    StackedRun(env, s, t, x);
    hide *;
    assert src[0..] == src == Hashes(level) + " " + inner + "" && src != "" && |inner| < |src|;
    StackFound(env, src, level, inner);
    HeadingForm([Simple(Text, x).(format := {s, t})], level);
    StackKind(x, {s, t});
    HeadingAlone(env, src, level, inner, x);
  }

  lemma StackKind(x: string, format: Format)
    ensures Simple(Text, x).(format := format).kind == Text && Simple(Text, x).(format := format).text == x
  {
  }

  lemma StackFound(env: Env, src: string, level: nat, inner: string)
    requires 1 <= level <= 6 && NoBreak(inner) && src == Hashes(level) + " " + inner
    ensures src != "" && Find(env, src, 0) == Found.Heading(|src|, level, inner)
  {
    assert |Hashes(level)| == level;
    assert src[0..] == src == Hashes(level) + " " + inner + "" && AtLineStart(src, 0);
    hide Find, Hashes, NoBreak;
    HeaderFound(env, src, 0, level, inner, "");
  }

  lemma StackPrint(level: nat, s: Style, t: Style, x: string)
    ensures PrintAll([Titled(level, [Wrapped(s, [Wrapped(t, [Plain(x)])])])]) ==
            Hashes(level) + " " + (Delim(s) + (Delim(t) + x + Delim(t)) + Delim(s))
  {
    hide PrintAll, Delim, Hashes;
    PlainPrint(x);
    WrapperPrint(t, [Plain(x)]);
    WrapperPrint(s, [Wrapped(t, [Plain(x)])]);
    TitlePrint(level, [Wrapped(s, [Wrapped(t, [Plain(x)])])]);
  }

  lemma StackBreaks(s: Style, t: Style, x: string)
    requires NoBreak(x)
    ensures NoBreak(Delim(s) + (Delim(t) + x + Delim(t)) + Delim(s))
  {
  }

  lemma TitlePrint(level: nat, body: seq<Node>)
    ensures PrintAll([Titled(level, body)]) == Hashes(level) + " " + PrintAll(body)
  {
    hide Hashes;
    assert PrintAll([Titled(level, body)]) == Hashes(level) + " " + PrintAll(body) + "";
  }

  lemma HeadingAlone(env: Env, src: string, level: nat, inner: string, x: string)
    requires src != "" && |inner| < |src| && Find(env, src, 0) == Found.Heading(|src|, level, inner)
    requires HeadingSpans(Run(env, inner, 0, {}, ""), level, {}) == [HeaderOf(x, level)]
    ensures Parse(src, env) == [HeaderOf(x, level)]
  {
    hide Find;
    var f := Find(env, src, 0);
    assert Run(env, src, f.next, {}, "") == [];
    assert Emitted(env, f, {}, |src|) == [HeaderOf(x, level)];
    assert [] + [HeaderOf(x, level)] + [] == [HeaderOf(x, level)];
  }

  lemma StackShades(s: Style, t: Style, x: string)
    requires s != t
    ensures !HeadingKept([Wrapped(s, [Wrapped(t, [Plain(x)])])])
  {
    var f: Format := {} + {s} + {t};
    var body := [Wrapped(s, [Wrapped(t, [Plain(x)])])];
    assert Shades([Plain(x)], f) == {Some(f)} + {};
    assert Shades([Wrapped(t, [Plain(x)])], {} + {s}) == {Some(f)} + {};
    assert Shades(body, {}) == {Some(f)} + {};
    assert {Some(f)} + {} == {Some(f)};
    assert f == {s, t} && |f| == 2;
    assert Some(f) in Shades(body, {});
  }
}
