/** Scanning what was printed: module StyleTags' render gives the text of the tree back, every character
    in the style its element inherits. */
module StyleRoundTrip {
  import opened Basics
  import opened StyleTags

  /** A character in its style; no style is the empty map. */
  datatype Glyph = Glyph(c: char, style: Style)

  function Paint(text: string, style: Style): seq<Glyph> {
    if text == "" then [] else [Glyph(text[0], style)] + Paint(text[1..], style)
  }

  /** The labels laid out one after the other. */
  function Flatten(labels: seq<Label>): seq<Glyph> {
    if labels == [] then [] else Flatten(labels[..|labels| - 1]) + Paint(Last(labels).text, Last(labels).style)
  }

  /** The labels that are not empty, and so take up space. */
  function Visible(labels: seq<Label>): seq<Label> {
    if labels == [] then [] else Visible(Front(labels)) + (if Last(labels).text == "" then [] else [Last(labels)])
  }

  /** What the tree says: its text, in the inherited styles. */
  function StyledNode(n: Node, parent: Style): seq<Glyph>
    decreases n, 1
  {
    match n
    case Text(text) => Paint(text, parent)
    case Element(block, own, _, children) => Styled(children, Inherit(own, parent)) + Paint(Tail(block), parent)
  }

  function Styled(ns: seq<Node>, parent: Style): seq<Glyph>
    decreases ns, 0
  {
    if ns == [] then [] else StyledNode(ns[0], parent) + Styled(ns[1..], parent)
  }

  /** The elements that inherit no style at all: they push nothing, yet their closing tags pop. */
  function UnstyledNode(n: Node, parent: Style): nat
    decreases n, 1
  {
    match n
    case Text(_) => 0
    case Element(_, own, _, children) =>
      (if Inherit(own, parent) == map[] then 1 else 0) + Unstyled(children, Inherit(own, parent))
  }

  function Unstyled(ns: seq<Node>, parent: Style): nat
    decreases ns, 0
  {
    if ns == [] then 0 else UnstyledNode(ns[0], parent) + Unstyled(ns[1..], parent)
  }

  // ---------------------------------------------------------------- printable trees

  predicate OpensTag(s: string) {
    s != "" && s[0] == '{' && (NextChar(s) == '@' || NextChar(s) == '/')
  }

  /** No tag seems to open inside `text` when `rest` follows it. */
  predicate PlainText(text: string, rest: string) {
    text == "" || (!OpensTag(text + rest) && PlainText(text[1..], rest))
  }

  /** The listing enumerates the inherited style in clean entries, and texts hold no tag openers. */
  predicate PrintableNode(n: Node, parent: Style, rest: string)
    decreases n, 1
  {
    match n
    case Text(text) => PlainText(text, rest)
    case Element(block, own, listing, children) =>
      && CleanListing(listing) && MapOf(listing) == Inherit(own, parent)
      && Printable(children, Inherit(own, parent), CLOSE_TAG + Tail(block) + rest)
  }

  predicate Printable(ns: seq<Node>, parent: Style, rest: string)
    decreases ns, 0
  {
    ns == [] || (PrintableNode(ns[0], parent, Print(ns[1..], parent) + rest) && Printable(ns[1..], parent, rest))
  }

  // ---------------------------------------------------------------- small steps

  /** Everything scanned so far, including the label still open. */
  function Seen(st: State): seq<Glyph> {
    Flatten(st.labels) + Paint(st.currText, Top(st.groups))
  }

  lemma {:induction false} PaintConcat(a: string, b: string, style: Style)
    ensures Paint(a + b, style) == Paint(a, style) + Paint(b, style)
  {
    if a == "" {
      assert a + b == b;
    } else {
      assert (a + b)[1..] == a[1..] + b;
      PaintConcat(a[1..], b, style);
    }
  }

  lemma FlushKeepsSeen(st: State)
    ensures Seen(st.Flush()) == Seen(st) && Flatten(st.Flush().labels) == Seen(st)
  {
    var st' := st.Flush();
    assert st'.labels[..|st'.labels| - 1] == st.labels;
  }

  lemma FlushShows(st: State)
    ensures Visible(st.Flush().labels)
         == Visible(st.labels) + if st.currText == "" then [] else [Label(st.currText, Top(st.groups))]
  {
    assert Front(st.Flush().labels) == st.labels;
  }

  lemma SeenWithoutText(st: State)
    requires st.currText == ""
    ensures Seen(st) == Flatten(st.labels)
  {
  }

  lemma ScanStep(st: State, c: char, rest: string)
    ensures Scan(st, [c] + rest) == Scan(st.Step(c, NextChar([c] + rest), AtEnd([c] + rest)), rest)
  {
    assert ([c] + rest)[1..] == rest;
  }

  /** A closing mark left by "@}" in a text makes no difference. */
  lemma StrayClosingIsHarmless(st: State, rest: string)
    requires st.Idle() && rest != "" && rest[0] == '}'
    ensures Scan(st.(isClosingStyle := true), rest) == Scan(st, rest)
  {
    assert Split("", '#') == [""] && Split("", '-') == [""];
    assert [""][..0] == [];
    assert ParseStyle("") == map[];
  }

  lemma ScanTextChar(st: State, c: char, rest: string) returns (st': State)
    requires st.Idle() && !OpensTag([c] + rest)
    ensures Scan(st, [c] + rest) == Scan(st', rest)
    ensures st'.Idle() && st'.groups == st.groups
    ensures Seen(st') == Seen(st) + [Glyph(c, Top(st.groups))]
    ensures rest == "" ==> (st'.currText == "" <==> Ascii(c))
    ensures st' == var typed := st.(currText := st.currText + [c]);
                   if c == ' ' || (rest == "" && Ascii(c)) then typed.Flush() else typed
  {
    ScanStep(st, c, rest);
    var s := [c] + rest;
    var typed := st.(currText := st.currText + [c]);
    PaintConcat(st.currText, [c], Top(st.groups));
    FlushKeepsSeen(typed);
    st' := if AtEnd(s) || c == ' ' then typed.Flush() else typed;
    if c == '@' && NextChar(s) == '}' {
      assert rest[0] == '}';
      StrayClosingIsHarmless(st', rest);
    }
  }

  lemma {:induction false} ScanText(st: State, text: string, rest: string) returns (st': State)
    requires st.Idle() && PlainText(text, rest)
    ensures Scan(st, text + rest) == Scan(st', rest)
    ensures st'.Idle() && st'.groups == st.groups
    ensures Seen(st') == Seen(st) + Paint(text, Top(st.groups))
    ensures rest == "" && text == "" ==> st' == st
    ensures rest == "" && text != "" ==> (st'.currText == "" <==> Ascii(Last(text)))
    decreases |text|
  {
    if text == "" {
      assert text + rest == rest;
      st' := st;
    } else {
      assert text + rest == [text[0]] + (text[1..] + rest);
      var mid := ScanTextChar(st, text[0], text[1..] + rest);
      st' := ScanText(mid, text[1..], rest);
      Associative(Seen(st), [Glyph(text[0], Top(st.groups))], Paint(text[1..], Top(st.groups)));
    }
  }

  // ---------------------------------------------------------------- tags

  /** Nothing ends a style block inside `s`. */
  predicate StyleBody(s: string, rest: string) {
    s == "" || (
      && !(s[0] == '@' && NextChar(s + rest) == '}')
      && !(s[0] == '{' && NextChar(s + rest) == '/')
      && StyleBody(s[1..], rest))
  }

  lemma StyleBodyStep(st: State, c: char, next: char, last: bool)
    requires st.inStyleBlock && !st.isClosingStyle && !st.isClosingBlock && st.currText == ""
    requires !(c == '@' && next == '}') && !(c == '{' && next == '/')
    ensures var st' := st.Step(c, next, last);
            && st'.inStyleBlock && !st'.isClosingStyle && !st'.isClosingBlock && st'.currText == ""
            && st'.groups == st.groups && st'.currStyle == st.currStyle + [c]
            && Flatten(st'.labels) == Flatten(st.labels) && Visible(st'.labels) == Visible(st.labels)
  {
    FlushKeepsSeen(st);
    FlushShows(st);
  }

  /** Inside a style block every character goes to the style string. */
  lemma {:induction false} ScanStyleBody(st: State, body: string, rest: string) returns (st': State)
    requires st.inStyleBlock && !st.isClosingStyle && !st.isClosingBlock && st.currText == ""
    requires StyleBody(body, rest)
    ensures Scan(st, body + rest) == Scan(st', rest)
    ensures st'.inStyleBlock && !st'.isClosingStyle && !st'.isClosingBlock && st'.currText == ""
    ensures st'.groups == st.groups && st'.currStyle == st.currStyle + body
    ensures Flatten(st'.labels) == Flatten(st.labels) && Visible(st'.labels) == Visible(st.labels)
    decreases |body|
  {
    hide Scan, Flatten, Visible, State.Step;
    if body == "" {
      assert body + rest == rest && st.currStyle + body == st.currStyle;
      st' := st;
    } else {
      var c, s := body[0], body + rest;
      assert s == [c] + (body[1..] + rest);
      ScanStep(st, c, body[1..] + rest);
      StyleBodyStep(st, c, NextChar(s), AtEnd(s));
      var next := st.Step(c, NextChar(s), AtEnd(s));
      assert next.currStyle + body[1..] == st.currStyle + body;
      st' := ScanStyleBody(next, body[1..], rest);
    }
  }

  lemma {:induction false} StyleBodyConcat(a: string, b: string, rest: string)
    requires StyleBody(a, b + rest) && StyleBody(b, rest)
    ensures StyleBody(a + b, rest)
    decreases |a|
  {
    if a == "" {
      assert a + b == b;
    } else {
      assert (a + b)[1..] == a[1..] + b && (a + b) + rest == a + (b + rest);
      StyleBodyConcat(a[1..], b, rest);
    }
  }

  /** A tag-free string is a body before anything that cannot complete a mark. */
  lemma {:induction false} TagFreeIsBody(s: string, rest: string)
    requires TagFree(s) && rest != "" && rest[0] != '}' && rest[0] != '/'
    ensures StyleBody(s, rest)
    decreases |s|
  {
    if s != "" {
      TagFreeIsBody(s[1..], rest);
    }
  }

  lemma SeparatorThenBody(d: char, others: string, after: string)
    requires d != '@' && d != '{' && StyleBody(others, after)
    ensures StyleBody([d, d] + others, after)
  {
    assert [d, d][1..] == [d] && [d][1..] == "";
    assert StyleBody([d], others + after);
    assert StyleBody([d, d], others + after);
    StyleBodyConcat([d, d], others, after);
  }

  lemma TextThenBody(s: string, others: string, after: string)
    requires TagFree(s) && StyleBody(others, after)
    requires others + after != "" && (others + after)[0] != '}' && (others + after)[0] != '/'
    ensures StyleBody(s + others, after)
  {
    TagFreeIsBody(s, others + after);
    StyleBodyConcat(s, others, after);
  }

  lemma {:induction false} StyleStringIsBody(listing: seq<(string, string)>, rest: string)
    requires CleanListing(listing)
    ensures StyleBody(StyleString(listing), "@}" + rest)
    decreases |listing|
  {
    if listing != [] {
      hide StyleBody, TagFree;
      StyleStringIsBody(listing[1..], rest);
      StyleStringParts(listing);
      StyleStringBegins(listing[1..], "@}" + rest);
      hide StyleString, CleanEntry;
      EntryIsBody(listing[0].0, listing[0].1, StyleString(listing[1..]), "@}" + rest);
    }
  }

  lemma StyleStringParts(listing: seq<(string, string)>)
    requires listing != []
    ensures StyleString(listing) == "##" + (listing[0].0 + ("--" + (listing[0].1 + StyleString(listing[1..]))))
  {
    FromTheRight("", "##", listing[0].0, "--", listing[0].1, StyleString(listing[1..]));
  }

  lemma StyleStringBegins(listing: seq<(string, string)>, after: string)
    requires after != ""
    ensures StyleString(listing) + after != ""
    ensures (StyleString(listing) + after)[0] == if listing == [] then after[0] else '#'
  {
  }

  lemma EntryIsBody(k: string, v: string, others: string, after: string)
    requires CleanEntry(k, v) && StyleBody(others, after)
    requires others + after != "" && (others + after)[0] != '}' && (others + after)[0] != '/'
    ensures StyleBody("##" + (k + ("--" + (v + others))), after)
  {
    hide StyleBody, TagFree;
    TextThenBody(v, others, after);
    SeparatorThenBody('-', v + others, after);
    TextThenBody(k, "--" + (v + others), after);
    SeparatorThenBody('#', k + ("--" + (v + others)), after);
  }

  /** An opening tag ends the current label and pushes its style, unless that is empty. */
  lemma ScanOpen(st: State, listing: seq<(string, string)>, rest: string) returns (st': State)
    requires st.Idle() && CleanListing(listing)
    ensures Scan(st, OpenTag(listing) + rest) == Scan(st', rest)
    ensures st'.Idle() && st'.currText == "" && Seen(st') == Seen(st)
    ensures Visible(st'.labels) == Visible(st.Flush().labels)
    ensures st'.groups == if MapOf(listing) == map[] then st.groups else st.groups + [MapOf(listing)]
  {
    hide Scan, Seen, Flatten, Visible, StyleBody, StyleString, ParseStyle;
    var body, after := "@@" + StyleString(listing), "@}" + rest;
    assert OpenTag(listing) + rest == ['{'] + (body + after);
    ScanStep(st, '{', body + after);
    FlushKeepsSeen(st);
    SeenWithoutText(st.Flush());
    var entered := st.Flush().(inStyleBlock := true, currStyle := "{");
    assert st.Step('{', '@', false) == entered;
    OpenTagIsBody(listing, rest);
    var inside := ScanStyleBody(entered, body, after);
    ScanTagEnd(inside, rest);
    st' := inside.(inStyleBlock := false, currStyle := "", groups := AddStyleGroup(inside.groups, inside.currStyle));
    SeenWithoutText(st');
    assert inside.currStyle == "{@@" + StyleString(listing);
    ParsePrinted(listing);
  }

  lemma OpenTagIsBody(listing: seq<(string, string)>, rest: string)
    requires CleanListing(listing)
    ensures StyleBody("@@" + StyleString(listing), "@}" + rest)
  {
    var s, after := StyleString(listing), "@}" + rest;
    StyleStringIsBody(listing, rest);
    assert "@@"[1..] == "@" && "@"[1..] == "";
    assert (s + after)[0] == if listing == [] then '@' else '#';
    assert StyleBody("@", s + after);
    assert StyleBody("@@", s + after);
    StyleBodyConcat("@@", s, after);
  }

  /** The "@}" that ends an opening tag. */
  lemma ScanTagEnd(st: State, rest: string)
    requires st.inStyleBlock && !st.isClosingStyle && !st.isClosingBlock
    ensures Scan(st, "@}" + rest)
         == Scan(st.(inStyleBlock := false, currStyle := "", groups := AddStyleGroup(st.groups, st.currStyle)), rest)
  {
    hide Scan, AddStyleGroup;
    assert "@}" + rest == ['@'] + (['}'] + rest);
    ScanStep(st, '@', ['}'] + rest);
    var marked := st.(isClosingStyle := true);
    assert st.Step('@', '}', false) == marked;
    ScanStep(marked, '}', rest);
  }

  /** A closing tag ends the current label and pops a style, if there is one. */
  lemma ScanClose(st: State, rest: string) returns (st': State)
    requires st.Idle()
    ensures Scan(st, CLOSE_TAG + rest) == Scan(st', rest)
    ensures st'.Idle() && st'.currText == "" && Seen(st') == Seen(st)
    ensures st' == st.Flush().(groups := RemoveLast(st.groups))
  {
    st' := st.Flush().(groups := RemoveLast(st.groups));
    FlushKeepsSeen(st);
    CloseSteps(st, NextChar("}" + rest), AtEnd("}" + rest));
    ScanFour(st, "{/@}", rest);
  }

  lemma CloseSteps(st: State, next: char, last: bool)
    requires st.Idle()
    ensures st.Step('{', '/', false).Step('/', '@', false).Step('@', '}', false).Step('}', next, last)
         == st.Flush().(groups := RemoveLast(st.groups))
  {
    NothingToAdd(RemoveLast(st.groups));
  }

  lemma ScanFour(st: State, tag: string, rest: string)
    requires |tag| == 4
    ensures Scan(st, tag + rest)
         == Scan(st.Step(tag[0], tag[1], false).Step(tag[1], tag[2], false).Step(tag[2], tag[3], false)
                   .Step(tag[3], NextChar([tag[3]] + rest), AtEnd([tag[3]] + rest)), rest)
  {
    var s1, s2, s3 := tag[1..] + rest, tag[2..] + rest, tag[3..] + rest;
    assert tag + rest == [tag[0]] + s1 && s1 == [tag[1]] + s2 && s2 == [tag[2]] + s3 && s3 == [tag[3]] + rest;
    ScanStep(st, tag[0], s1);
    var st1 := st.Step(tag[0], tag[1], false);
    ScanStep(st1, tag[1], s2);
    var st2 := st1.Step(tag[1], tag[2], false);
    ScanStep(st2, tag[2], s3);
    ScanStep(st2.Step(tag[2], tag[3], false), tag[3], rest);
  }

  lemma NothingToAdd(groups: seq<Style>)
    ensures AddStyleGroup(groups, "") == groups
  {
    assert Split("", '#') == [""] && Split("", '-') == [""];
    assert [""][..0] == [];
  }

  // ---------------------------------------------------------------- whole trees

  /** `groups` without its last `n` members. */
  function Drop(groups: seq<Style>, n: nat): seq<Style> {
    if n <= |groups| then groups[..|groups| - n] else []
  }

  /** Under a styled parent, that style is on top of the stack. */
  predicate Matches(groups: seq<Style>, parent: Style) {
    parent != map[] ==> groups != [] && Last(groups) == parent
  }

  /** Scanning `printed` from `st` ends in `st'`, with `unstyled` unmatched pops, having seen `glyphs`. */
  ghost predicate Scanned(st: State, printed: string, rest: string, parent: Style, unstyled: nat,
                          glyphs: seq<Glyph>, st': State) {
    && Scan(st, printed + rest) == Scan(st', rest)
    && st'.Idle() && st'.groups == Drop(st.groups, unstyled)
    && (parent != map[] || st.groups == [] ==> Seen(st') == Seen(st) + glyphs)
    && (rest == "" && printed == "" ==> st' == st)
    && (rest == "" && printed != "" ==> (st'.currText == "" <==> Ascii(Last(printed))))
  }

  /** A style is inherited by everything below, so under a styled element nothing is unstyled. */
  lemma {:induction false} StyledBelow(ns: seq<Node>, parent: Style)
    requires parent != map[]
    ensures Unstyled(ns, parent) == 0
    decreases ns, 0
  {
    if ns != [] {
      StyledNodeBelow(ns[0], parent);
      StyledBelow(ns[1..], parent);
    }
  }

  lemma {:induction false} StyledNodeBelow(n: Node, parent: Style)
    requires parent != map[]
    ensures UnstyledNode(n, parent) == 0
    decreases n, 1
  {
    if n.Element? {
      var k :| k in parent;
      assert k in Inherit(n.own, parent);
      StyledBelow(n.children, Inherit(n.own, parent));
    }
  }

  lemma {:induction false} ScanNodes(st: State, ns: seq<Node>, parent: Style, rest: string) returns (st': State)
    requires st.Idle() && Matches(st.groups, parent) && Printable(ns, parent, rest)
    ensures Scanned(st, Print(ns, parent), rest, parent, Unstyled(ns, parent), Styled(ns, parent), st')
    decreases ns, 0
  {
    hide Scanned, Matches, PrintNode, StyledNode, UnstyledNode, PrintableNode;
    if ns == [] {
      ScannedNothing(st, rest, parent);
      st' := st;
    } else {
      var more := Print(ns[1..], parent);
      var mid := ScanNode(st, ns[0], parent, more + rest);
      if parent != map[] {
        StyledNodeBelow(ns[0], parent);
      }
      ScannedMatches(st, PrintNode(ns[0], parent), more + rest, parent, UnstyledNode(ns[0], parent),
                     StyledNode(ns[0], parent), mid);
      st' := ScanNodes(mid, ns[1..], parent, rest);
      ScannedThen(st, PrintNode(ns[0], parent), more, rest, parent, UnstyledNode(ns[0], parent),
                  Unstyled(ns[1..], parent), StyledNode(ns[0], parent), Styled(ns[1..], parent), mid, st');
    }
  }

  lemma ScannedNothing(st: State, rest: string, parent: Style)
    requires st.Idle()
    ensures Scanned(st, "", rest, parent, 0, [], st)
  {
    assert "" + rest == rest && Seen(st) + [] == Seen(st);
  }

  lemma ScannedMatches(st: State, printed: string, rest: string, parent: Style, unstyled: nat,
                       glyphs: seq<Glyph>, st': State)
    requires Scanned(st, printed, rest, parent, unstyled, glyphs, st') && Matches(st.groups, parent)
    requires parent != map[] ==> unstyled == 0
    ensures st'.Idle() && Matches(st'.groups, parent)
  {
  }

  /** Two printings scanned one after the other. */
  lemma ScannedThen(st: State, a: string, b: string, rest: string, parent: Style, m: nat, n: nat,
                    glyphs: seq<Glyph>, glyphs': seq<Glyph>, mid: State, st': State)
    requires Scanned(st, a, b + rest, parent, m, glyphs, mid) && Scanned(mid, b, rest, parent, n, glyphs', st')
    requires parent != map[] ==> m == 0
    ensures Scanned(st, a + b, rest, parent, m + n, glyphs + glyphs', st')
  {
    Associative(a, b, rest);
    DropTwice(st.groups, m, n);
    Associative(Seen(st), glyphs, glyphs');
  }

  lemma DropTwice(groups: seq<Style>, m: nat, n: nat)
    ensures Drop(Drop(groups, m), n) == Drop(groups, m + n)
  {
  }

  lemma {:induction false} ScanNode(st: State, n: Node, parent: Style, rest: string) returns (st': State)
    requires st.Idle() && Matches(st.groups, parent) && PrintableNode(n, parent, rest)
    ensures Scanned(st, PrintNode(n, parent), rest, parent, UnstyledNode(n, parent), StyledNode(n, parent), st')
    decreases n, 1
  {
    match n
    case Text(text) =>
      st' := ScanText(st, text, rest);
    case Element(block, own, listing, children) =>
      st' := ScanElement(st, n, parent, rest);
  }

  lemma {:induction false} ScanElement(st: State, n: Node, parent: Style, rest: string) returns (st': State)
    requires n.Element? && st.Idle() && Matches(st.groups, parent) && PrintableNode(n, parent, rest)
    ensures Scanned(st, PrintNode(n, parent), rest, parent, UnstyledNode(n, parent), StyledNode(n, parent), st')
    decreases n, 0
  {
    hide Scan, Seen, PlainText, PrintableNode, Printable, UnstyledNode, Unstyled, StyledNode, Styled, Print, PrintNode;
    hide CleanListing, MapOf, Inherit, Tail, Drop, OpenTag;
    ElementParts(n, parent, rest);
    var style, tail := Inherit(n.own, parent), Tail(n.block);
    var inner, after := Print(n.children, style), tail + rest;
    var entered := ScanOpen(st, n.listing, inner + (CLOSE_TAG + after));
    Associative(CLOSE_TAG, tail, rest);
    var filled := ScanNodes(entered, n.children, style, CLOSE_TAG + after);
    var closed := ScanClose(filled, after);
    TailIsPlain(n.block, rest);
    st' := ScanText(closed, tail, rest);
    PrintedElement(n, parent, rest);
    if style != map[] {
      StyledBelow(n.children, style);
    }
    ElementGroups(st.groups, parent, style, Unstyled(n.children, style));
    ElementSeen(Seen(st), Seen(filled), Seen(st'), n, parent, closed.groups);
  }

  lemma ElementParts(n: Node, parent: Style, rest: string)
    requires n.Element? && PrintableNode(n, parent, rest)
    ensures var style := Inherit(n.own, parent);
            && CleanListing(n.listing) && MapOf(n.listing) == style && (parent != map[] ==> style != map[])
            && Printable(n.children, style, CLOSE_TAG + Tail(n.block) + rest)
            && UnstyledNode(n, parent) == (if style == map[] then 1 else 0) + Unstyled(n.children, style)
    ensures Tail(n.block) == "" || Last(Tail(n.block)) == ' '
    ensures Tail(n.block) == "" <==> !n.block
  {
    if parent != map[] {
      var k :| k in parent;
      assert k in Inherit(n.own, parent);
    }
  }

  /** The content in the element's style, then the tail in the parent's. */
  lemma ElementSeen(before: seq<Glyph>, filled: seq<Glyph>, after: seq<Glyph>, n: Node, parent: Style,
                    groups: seq<Style>)
    requires n.Element? && after == filled + Paint(Tail(n.block), Top(groups))
    ensures Top(groups) == parent && filled == before + Styled(n.children, Inherit(n.own, parent)) ==>
              after == before + StyledNode(n, parent)
  {
    Associative(before, Styled(n.children, Inherit(n.own, parent)), Paint(Tail(n.block), Top(groups)));
  }

  lemma TailIsPlain(block: bool, rest: string)
    ensures PlainText(Tail(block), rest)
  {
    if block {
      assert " \n "[1..] == "\n " && "\n "[1..] == " " && " "[1..] == "";
      assert PlainText(" ", rest);
      assert PlainText("\n ", rest);
    }
  }

  lemma PrintedElement(n: Node, parent: Style, rest: string)
    requires n.Element?
    ensures var inner := Print(n.children, Inherit(n.own, parent));
            PrintNode(n, parent) + rest
            == OpenTag(n.listing) + (inner + (CLOSE_TAG + (Tail(n.block) + rest)))
    ensures PrintNode(n, parent) != "" && Last(PrintNode(n, parent)) == if n.block then ' ' else '}'
    ensures !n.block ==> Tail(n.block) + rest == rest
  {
  }

  /** Push, unmatched pops of the content, pop. */
  lemma ElementGroups(groups: seq<Style>, parent: Style, style: Style, below: nat)
    requires style != map[] ==> below == 0
    ensures var entered := if style == map[] then groups else groups + [style];
            && RemoveLast(Drop(entered, below)) == Drop(groups, (if style == map[] then 1 else 0) + below)
            && (style != map[] || groups == [] ==> RemoveLast(Drop(entered, below)) == groups)
  {
  }

  // ---------------------------------------------------------------- the round trip

  /** Scanning a printed document with no styles pending gives its text in the inherited styles exactly
      when it is empty or ends in a one-byte character; a longer last character is lost. */
  lemma RenderRoundTrip(ns: seq<Node>)
    requires Printable(ns, map[], "")
    ensures var content := Print(ns, map[]);
            Flatten(Scan(Start([]), content).labels) == Styled(ns, map[])
            <==> content == "" || Ascii(Last(content))
  {
    var content := Print(ns, map[]);
    var end := ScanNodes(Start([]), ns, map[], "");
    assert content + "" == content;
    assert Seen(Start([])) + Styled(ns, map[]) == Styled(ns, map[]);
    PaintIsEmpty(end.currText, Top(end.groups));
    assert |Seen(end)| == |Flatten(end.labels)| + |Paint(end.currText, Top(end.groups))|;
  }

  lemma {:induction false} PaintIsEmpty(text: string, style: Style)
    ensures |Paint(text, style)| == |text|
  {
    if text != "" {
      PaintIsEmpty(text[1..], style);
    }
  }

  /** The style stack after a document: every element without any inherited style pops one style too
      many, so the stack is as before exactly when it was empty or there is no such element. */
  lemma StyleStackDiscipline(ns: seq<Node>, groups: seq<Style>)
    requires Printable(ns, map[], "")
    ensures Scan(Start(groups), Print(ns, map[])).groups == Drop(groups, Unstyled(ns, map[]))
    ensures Scan(Start(groups), Print(ns, map[])).groups == groups <==> groups == [] || Unstyled(ns, map[]) == 0
  {
    var end := ScanNodes(Start(groups), ns, map[], "");
    assert Print(ns, map[]) + "" == Print(ns, map[]);
  }

  /** After the content of a styled element the stack is what it was before: the closing tags inside take away
      nothing of the enclosing styles. */
  lemma ChainSurvivesContent(st: State, ns: seq<Node>, parent: Style, rest: string) returns (st': State)
    requires st.Idle() && parent != map[] && Matches(st.groups, parent) && Printable(ns, parent, rest)
    ensures Scan(st, Print(ns, parent) + rest) == Scan(st', rest)
    ensures st'.groups == st.groups && Top(st'.groups) == parent && Seen(st') == Seen(st) + Styled(ns, parent)
  {
    st' := ScanNodes(st, ns, parent, rest);
    StyledBelow(ns, parent);
  }

  /** A document that ends in a character of several bytes: its last word is never made into a label. */
  lemma LongLastCharacterIsLost(c: char)
    requires !Ascii(c)
    ensures Printable([Text([c])], map[], "") && Scan(Start([]), Print([Text([c])], map[])).labels == []
  {
    var ns := [Text([c])];
    assert ns[1..] == [] && [c][1..] == "" && [c] + "" == [c];
    assert Print(ns, map[]) == [c];
    assert BraceFree([]) && BraceFree(ns);
    assert Listed([], map[]) && Listed(ns, map[]);
    BraceFreeIsPrintable(ns, map[], "");
    ScanStep(Start([]), c, "");
  }

  /** An element without any style takes a pending style away. */
  lemma UnstyledElementPops(style: Style)
    ensures Scan(Start([style]), Print([Element(false, map[], [], [])], map[])).groups == []
  {
    var n := Element(false, map[], [], []);
    var none: Style := map[];
    assert [n][1..] == [] && Inherit(none, none) == none && MapOf([]) == none && CleanListing([]);
    assert PrintableNode(n, none, Print([], none) + "") && Printable([], none, "");
    assert Unstyled([], none) == 0 && UnstyledNode(n, none) == 1 && Unstyled([n], none) == 1;
    StyleStackDiscipline([n], [style]);
  }

  /** Labels break at spaces: none has a space before its last character, whatever the content. */
  lemma {:induction false} LabelsAreWords(st: State, s: string)
    requires Words(st)
    ensures Words(Scan(st, s))
    decreases |s|
  {
    if s != "" {
      StepKeepsWords(st, s[0], NextChar(s), AtEnd(s));
      hide State.Step, Words;
      LabelsAreWords(st.Step(s[0], NextChar(s), AtEnd(s)), s[1..]);
    }
  }

  lemma StepKeepsWords(st: State, c: char, next: char, last: bool)
    requires Words(st)
    ensures Words(st.Step(c, next, last))
  {
    hide AddStyleGroup, RemoveLast, Top;
    var st1 := st.OpenStyle(c, next).MarkClosing(c, next);
    assert Words(st1);
    var st2 := st1.TakeText(c, last);
    assert Words(st2);
    assert Words(st2.CloseBlock(c));
  }

  predicate Word(text: string) {
    forall i :: 0 <= i < |text| - 1 ==> text[i] != ' '
  }

  predicate Words(st: State) {
    (forall l :: l in st.labels ==> Word(l.text)) && ' ' !in st.currText
  }

  // ---------------------------------------------------------------- plain documents

  predicate BraceFree(ns: seq<Node>) {
    ns == [] || (
      && (match ns[0] case Text(text) => '{' !in text case Element(_, _, _, children) => BraceFree(children))
      && BraceFree(ns[1..]))
  }

  /** Every listing enumerates its element's inherited style in clean entries. */
  predicate Listed(ns: seq<Node>, parent: Style)
    decreases ns, 0
  {
    ns == [] || (
      && (match ns[0]
          case Text(_) => true
          case Element(_, own, listing, children) =>
            CleanListing(listing) && MapOf(listing) == Inherit(own, parent) && Listed(children, Inherit(own, parent)))
      && Listed(ns[1..], parent))
  }

  /** Documents whose texts hold no brace are printable. */
  lemma {:induction false} BraceFreeIsPrintable(ns: seq<Node>, parent: Style, rest: string)
    requires BraceFree(ns) && Listed(ns, parent)
    ensures Printable(ns, parent, rest)
    decreases ns, 0
  {
    if ns != [] {
      match ns[0] {
        case Text(text) => BraceFreeIsPlain(text, Print(ns[1..], parent) + rest);
        case Element(block, own, _, children) =>
          BraceFreeIsPrintable(children, Inherit(own, parent),
                               CLOSE_TAG + Tail(block) + (Print(ns[1..], parent) + rest));
      }
      BraceFreeIsPrintable(ns[1..], parent, rest);
    }
  }

  lemma {:induction false} BraceFreeIsPlain(text: string, rest: string)
    requires '{' !in text
    ensures PlainText(text, rest)
    decreases |text|
  {
    if text != "" {
      BraceFreeIsPlain(text[1..], rest);
    }
  }
}
