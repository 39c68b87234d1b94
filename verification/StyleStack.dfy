/** The style stack at every position of a printed document: it is the chain of the non-empty styles of the
    elements that enclose the position. */
module StyleStacks {
  import opened Basics
  import opened StyleRoundTrip
  import opened StyleTags

  /** An element that is entered, without its children, and its siblings. */
  datatype Frame = Frame(before: seq<Node>, block: bool, own: Style, listing: seq<(string, string)>, after: seq<Node>)

  /** The document in which `inner` is enclosed by the frames, the outermost first. */
  function Plug(frames: seq<Frame>, inner: seq<Node>): seq<Node> {
    if frames == [] then
      inner
    else
      var f := frames[0];
      f.before + ([Element(f.block, f.own, f.listing, Plug(frames[1..], inner))] + f.after)
  }

  /** The style that the innermost frame hands down. */
  function StyleAt(frames: seq<Frame>, parent: Style): Style {
    if frames == [] then parent else StyleAt(frames[1..], Inherit(frames[0].own, parent))
  }

  /** The non-empty inherited styles of the frames, the outermost first. */
  function Chain(frames: seq<Frame>, parent: Style): seq<Style> {
    if frames == [] then
      []
    else
      var style := Inherit(frames[0].own, parent);
      (if style == map[] then [] else [style]) + Chain(frames[1..], style)
  }

  /** What is printed before the content of the innermost frame. */
  function Upto(frames: seq<Frame>, parent: Style): string {
    if frames == [] then
      ""
    else
      var f := frames[0];
      Print(f.before, parent) + (OpenTag(f.listing) + Upto(frames[1..], Inherit(f.own, parent)))
  }

  /** What is printed after the content of the innermost frame. */
  function Beyond(frames: seq<Frame>, parent: Style): string {
    if frames == [] then
      ""
    else
      var f := frames[0];
      Beyond(frames[1..], Inherit(f.own, parent)) + (CLOSE_TAG + Tail(f.block) + Print(f.after, parent))
  }

  /** The elements without any style that have been closed before the innermost frame was entered. */
  function Closed(frames: seq<Frame>, parent: Style): nat {
    if frames == [] then
      0
    else
      Unstyled(frames[0].before, parent) + Closed(frames[1..], Inherit(frames[0].own, parent))
  }

  // ---------------------------------------------------------------- printing in parts

  lemma {:induction false} PrintConcat(a: seq<Node>, b: seq<Node>, parent: Style)
    ensures Print(a + b, parent) == Print(a, parent) + Print(b, parent)
  {
    if a == [] {
      assert a + b == b;
    } else {
      assert (a + b)[1..] == a[1..] + b;
      PrintConcat(a[1..], b, parent);
      Associative(PrintNode(a[0], parent), Print(a[1..], parent), Print(b, parent));
    }
  }

  lemma {:induction false} PrintableConcat(a: seq<Node>, b: seq<Node>, parent: Style, rest: string)
    requires Printable(a + b, parent, rest)
    ensures Printable(a, parent, Print(b, parent) + rest) && Printable(b, parent, rest)
  {
    if a == [] {
      assert a + b == b;
    } else {
      assert (a + b)[1..] == a[1..] + b;
      PrintableConcat(a[1..], b, parent, rest);
      PrintConcat(a[1..], b, parent);
      Associative(Print(a[1..], parent), Print(b, parent), rest);
    }
  }

  lemma PrintSingle(n: Node, parent: Style, rest: string)
    ensures Print([n], parent) == PrintNode(n, parent)
    ensures Printable([n], parent, rest) ==> PrintableNode(n, parent, rest)
  {
    assert [n][1..] == [] && Print([], parent) + rest == rest;
  }

  lemma {:induction false} PlainCut(text: string, rest: string, n: nat, r: string)
    requires PlainText(text, rest) && n <= |text| && r <= text[n..] + rest
    ensures PlainText(text[..n], r)
    decreases |text|
  {
    if n > 0 {
      assert text[..n][1..] == text[1..][..n - 1] && text[1..][n - 1..] == text[n..];
      PlainCut(text[1..], rest, n - 1, r);
      SameNextChar(text, rest, n, r);
    }
  }

  lemma SameNextChar(text: string, rest: string, n: nat, r: string)
    requires 0 < n <= |text| && r <= text[n..] + rest
    ensures (text[..n] + r)[0] == text[0]
    ensures |text[..n] + r| >= 2 ==> NextChar(text[..n] + r) == NextChar(text + rest)
  {
    assert text + rest == text[..n] + (text[n..] + rest);
  }

  /** What is printable stays so when what follows is cut off. */
  lemma {:induction false} PrintableTruncated(ns: seq<Node>, parent: Style, rest: string, r: string)
    requires Printable(ns, parent, rest) && r <= rest
    ensures Printable(ns, parent, r)
    decreases ns, 0
  {
    if ns != [] {
      var more := Print(ns[1..], parent);
      NodeTruncated(ns[0], parent, more + rest, more + r);
      PrintableTruncated(ns[1..], parent, rest, r);
    }
  }

  lemma {:induction false} NodeTruncated(n: Node, parent: Style, rest: string, r: string)
    requires PrintableNode(n, parent, rest) && r <= rest
    ensures PrintableNode(n, parent, r)
    decreases n, 1
  {
    match n
    case Text(text) =>
      assert text[..|text|] == text && text[|text|..] + rest == rest;
      PlainCut(text, rest, |text|, r);
    case Element(block, own, listing, children) =>
      PrintableTruncated(children, Inherit(own, parent), CLOSE_TAG + Tail(block) + rest, CLOSE_TAG + Tail(block) + r);
  }

  /** What the outermost frame asks of its parts. */
  lemma FrameParts(f: Frame, children: seq<Node>, parent: Style, rest: string)
    requires Printable(f.before + ([Element(f.block, f.own, f.listing, children)] + f.after), parent, rest)
    ensures var style, close := Inherit(f.own, parent), CLOSE_TAG + Tail(f.block) + (Print(f.after, parent) + rest);
            && Printable(f.before, parent, OpenTag(f.listing) + (Print(children, style) + close))
            && Printable(children, style, close) && CleanListing(f.listing) && MapOf(f.listing) == style
            && Print(f.before + ([Element(f.block, f.own, f.listing, children)] + f.after), parent) + rest
               == Print(f.before, parent) + (OpenTag(f.listing) + (Print(children, style) + close))
  {
    hide Print, Printable;
    var n := Element(f.block, f.own, f.listing, children);
    var printed := PrintNode(n, parent);
    PrintableConcat(f.before, [n] + f.after, parent, rest);
    PrintableConcat([n], f.after, parent, rest);
    PrintSingle(n, parent, Print(f.after, parent) + rest);
    PrintConcat(f.before, [n] + f.after, parent);
    PrintConcat([n], f.after, parent);
    PrintedFrame(f, children, parent, rest);
    Associative(Print(f.before, parent), printed + Print(f.after, parent), rest);
    Associative(printed, Print(f.after, parent), rest);
  }

  lemma PrintedFrame(f: Frame, children: seq<Node>, parent: Style, rest: string)
    ensures var close := CLOSE_TAG + Tail(f.block) + (Print(f.after, parent) + rest);
            PrintNode(Element(f.block, f.own, f.listing, children), parent) + (Print(f.after, parent) + rest)
            == OpenTag(f.listing) + (Print(children, Inherit(f.own, parent)) + close)
  {
    PrintedElement(Element(f.block, f.own, f.listing, children), parent, Print(f.after, parent) + rest);
    Associative(CLOSE_TAG, Tail(f.block), Print(f.after, parent) + rest);
  }

  /** A document is printed as what comes before a position, the content there, and what comes after. */
  lemma {:induction false} PrintedPlug(frames: seq<Frame>, inner: seq<Node>, parent: Style, rest: string)
    requires Printable(Plug(frames, inner), parent, rest)
    ensures Printable(inner, StyleAt(frames, parent), Beyond(frames, parent) + rest)
    ensures Print(Plug(frames, inner), parent) + rest
         == Upto(frames, parent) + (Print(inner, StyleAt(frames, parent)) + (Beyond(frames, parent) + rest))
    decreases |frames|
  {
    if frames == [] {
      assert Beyond(frames, parent) + rest == rest;
      Associative("", Print(inner, parent), rest);
    } else {
      var f, style := frames[0], Inherit(frames[0].own, parent);
      var close := CLOSE_TAG + Tail(f.block) + (Print(f.after, parent) + rest);
      FrameParts(f, Plug(frames[1..], inner), parent, rest);
      PrintedPlug(frames[1..], inner, style, close);
      BeyondStep(frames, parent, rest);
      UptoStep(frames, parent, Print(inner, StyleAt(frames, parent)) + (Beyond(frames, parent) + rest));
    }
  }

  lemma BeyondStep(frames: seq<Frame>, parent: Style, rest: string)
    requires frames != []
    ensures Beyond(frames, parent) + rest
         == Beyond(frames[1..], Inherit(frames[0].own, parent))
            + (CLOSE_TAG + Tail(frames[0].block) + (Print(frames[0].after, parent) + rest))
  {
    var f := frames[0];
    var tag := CLOSE_TAG + Tail(f.block);
    Associative(Beyond(frames[1..], Inherit(f.own, parent)), tag + Print(f.after, parent), rest);
    Associative(tag, Print(f.after, parent), rest);
  }

  lemma UptoStep(frames: seq<Frame>, parent: Style, r: string)
    requires frames != []
    ensures Upto(frames, parent) + r
         == Print(frames[0].before, parent)
            + (OpenTag(frames[0].listing) + (Upto(frames[1..], Inherit(frames[0].own, parent)) + r))
  {
    var f := frames[0];
    var more := Upto(frames[1..], Inherit(f.own, parent));
    Associative(Print(f.before, parent), OpenTag(f.listing) + more, r);
    Associative(OpenTag(f.listing), more, r);
  }

  // ---------------------------------------------------------------- the stack at a position

  lemma {:induction false} NothingClosed(frames: seq<Frame>, parent: Style)
    requires parent != map[]
    ensures Closed(frames, parent) == 0
    decreases |frames|
  {
    if frames != [] {
      var k :| k in parent;
      assert k in Inherit(frames[0].own, parent);
      StyledBelow(frames[0].before, parent);
      NothingClosed(frames[1..], Inherit(frames[0].own, parent));
    }
  }

  /** Entering one frame: the siblings before it pop what they pop, and its style is pushed unless empty. */
  lemma StackStep(groups: seq<Style>, frames: seq<Frame>, parent: Style, entered: seq<Style>, end: seq<Style>)
    requires frames != [] && Matches(groups, parent)
    requires var style, mid := Inherit(frames[0].own, parent), Drop(groups, Unstyled(frames[0].before, parent));
             && entered == (if style == map[] then mid else mid + [style])
             && end == Drop(entered, Closed(frames[1..], style)) + Chain(frames[1..], style)
    ensures end == Drop(groups, Closed(frames, parent)) + Chain(frames, parent)
  {
    var style, mid := Inherit(frames[0].own, parent), Drop(groups, Unstyled(frames[0].before, parent));
    var m, n, chain := Unstyled(frames[0].before, parent), Closed(frames[1..], style), Chain(frames[1..], style);
    assert Closed(frames, parent) == m + n;
    assert Chain(frames, parent) == (if style == map[] then [] else [style]) + chain;
    if style != map[] {
      NothingClosed(frames[1..], style);
    }
    hide Closed, Chain, Unstyled, Inherit;
    PushThenDrop(groups, m, n, if style == map[] then [] else [style], chain);
    assert mid + [] == mid;
  }

  /** A style that is pushed stays, as nothing is dropped after it; without one the drops add up. */
  lemma PushThenDrop(groups: seq<Style>, m: nat, n: nat, pushed: seq<Style>, chain: seq<Style>)
    requires pushed != [] ==> n == 0
    ensures Drop(Drop(groups, m) + pushed, n) + chain == Drop(groups, m + n) + (pushed + chain)
  {
    if pushed == [] {
      assert Drop(groups, m) + pushed == Drop(groups, m) && pushed + chain == chain;
      DropTwice(groups, m, n);
    } else {
      assert Drop(Drop(groups, m) + pushed, 0) == Drop(groups, m) + pushed;
      Associative(Drop(groups, m), pushed, chain);
    }
  }

  /** Scanning up to the content of the innermost frame, whatever part of the rest follows. */
  lemma {:induction false} ScanInto(st: State, frames: seq<Frame>, inner: seq<Node>, parent: Style, rest: string,
                                    r: string) returns (st': State)
    requires st.Idle() && Matches(st.groups, parent) && Printable(Plug(frames, inner), parent, rest)
    requires r <= Print(inner, StyleAt(frames, parent)) + (Beyond(frames, parent) + rest)
    ensures Scan(st, Upto(frames, parent) + r) == Scan(st', r)
    ensures st'.Idle() && Matches(st'.groups, StyleAt(frames, parent))
    ensures st'.groups == Drop(st.groups, Closed(frames, parent)) + Chain(frames, parent)
    decreases |frames|
  {
    hide Scan, Matches, Printable;
    if frames == [] {
      assert "" + r == r;
      assert Drop(st.groups, 0) + [] == st.groups;
      st' := st;
    } else {
      var f, style := frames[0], Inherit(frames[0].own, parent);
      var close := CLOSE_TAG + Tail(f.block) + (Print(f.after, parent) + rest);
      var more := Upto(frames[1..], style) + r;
      FrameParts(f, Plug(frames[1..], inner), parent, rest);
      BeyondStep(frames, parent, rest);
      PrintedPlug(frames[1..], inner, style, close);
      PrefixAfter(Upto(frames[1..], style), r,
                  Print(inner, StyleAt(frames, parent)) + (Beyond(frames, parent) + rest));
      PrefixAfter(OpenTag(f.listing), more, Print(Plug(frames[1..], inner), style) + close);
      var entered := ScanFrame(st, f, parent,
                               OpenTag(f.listing) + (Print(Plug(frames[1..], inner), style) + close), more);
      UptoStep(frames, parent, r);
      st' := ScanInto(entered, frames[1..], inner, style, close, r);
      StackStep(st.groups, frames, parent, entered.groups, st'.groups);
    }
  }

  lemma PrefixAfter(a: string, b: string, c: string)
    requires b <= c
    ensures a + b <= a + c
  {
  }

  /** The siblings before a frame and its opening tag. */
  lemma ScanFrame(st: State, f: Frame, parent: Style, rest: string, more: string) returns (st': State)
    requires st.Idle() && Matches(st.groups, parent) && Printable(f.before, parent, rest)
    requires CleanListing(f.listing) && MapOf(f.listing) == Inherit(f.own, parent)
    requires OpenTag(f.listing) + more <= rest
    ensures Scan(st, Print(f.before, parent) + (OpenTag(f.listing) + more)) == Scan(st', more)
    ensures st'.Idle() && Matches(st'.groups, Inherit(f.own, parent))
    ensures var style, mid := Inherit(f.own, parent), Drop(st.groups, Unstyled(f.before, parent));
            st'.groups == if style == map[] then mid else mid + [style]
  {
    hide Scan, Printable, Print, Unstyled, CleanListing, Seen, Visible, Styled, OpenTag, MapOf, Inherit;
    PrintableTruncated(f.before, parent, rest, OpenTag(f.listing) + more);
    var mid := ScanNodes(st, f.before, parent, OpenTag(f.listing) + more);
    st' := ScanOpen(mid, f.listing, more);
  }

  /** Between two siblings, `before` having been read and `after` not: the stack is the chain of the enclosing
      styles, on what pending styles the elements without style closed so far have left.  What follows may be
      cut off anywhere. */
  lemma StackAtPosition(groups: seq<Style>, frames: seq<Frame>, before: seq<Node>, after: seq<Node>, r: string)
    returns (st: State)
    requires Printable(Plug(frames, before + after), map[], "")
    requires r <= Print(after, StyleAt(frames, map[])) + Beyond(frames, map[])
    ensures var read := Upto(frames, map[]) + Print(before, StyleAt(frames, map[]));
            && Print(Plug(frames, before + after), map[])
               == read + (Print(after, StyleAt(frames, map[])) + Beyond(frames, map[]))
            && read + r <= Print(Plug(frames, before + after), map[])
            && Scan(Start(groups), read + r) == Scan(st, r)
    ensures st.Idle()
    ensures st.groups
         == Drop(groups, Closed(frames, map[]) + Unstyled(before, StyleAt(frames, map[]))) + Chain(frames, map[])
  {
    hide Scan, Printable, Print, Upto, Beyond, Plug, Unstyled, Closed, Chain, StyleAt, Drop;
    var style, beyond := StyleAt(frames, map[]), Beyond(frames, map[]);
    var first, follow := Print(before, style), Print(after, style);
    NothingMore(beyond);
    NothingMore(Print(Plug(frames, before + after), map[]));
    AtTheStart(groups);
    PrintedPlug(frames, before + after, map[], "");
    PrintableConcat(before, after, style, beyond);
    PrintConcat(before, after, style);
    Associative(first, follow, beyond);
    Associative(Upto(frames, map[]), first, follow + beyond);
    PrefixAfter(first, r, follow + beyond);
    PrefixAfter(Upto(frames, map[]) + first, r, follow + beyond);
    var inside := ScanInto(Start(groups), frames, before + after, map[], "", first + r);
    Associative(Upto(frames, map[]), first, r);
    PrintableTruncated(before, style, follow + beyond, r);
    st := ScanNodes(inside, before, style, r);
    if style != map[] {
      StyledBelow(before, style);
    }
    ClosedThen(groups, frames, style, Unstyled(before, style));
  }

  lemma NothingMore(s: string)
    ensures s + "" == s
  {
  }

  lemma AtTheStart(groups: seq<Style>)
    ensures Start(groups).Idle() && Start(groups).groups == groups && Matches(groups, map[])
  {
  }

  lemma ClosedThen(groups: seq<Style>, frames: seq<Frame>, style: Style, n: nat)
    requires style == StyleAt(frames, map[]) && (style != map[] ==> n == 0)
    ensures Drop(Drop(groups, Closed(frames, map[])) + Chain(frames, map[]), n)
         == Drop(groups, Closed(frames, map[]) + n) + Chain(frames, map[])
  {
    if style == map[] {
      NoChain(frames, map[]);
      DropTwice(groups, Closed(frames, map[]), n);
    }
  }

  /** Where no style is handed down, no enclosing element has one. */
  lemma {:induction false} NoChain(frames: seq<Frame>, parent: Style)
    requires StyleAt(frames, parent) == map[]
    ensures Chain(frames, parent) == [] && parent == map[]
    decreases |frames|
  {
    if frames != [] {
      NoChain(frames[1..], Inherit(frames[0].own, parent));
      NothingInherited(frames[0].own, parent);
    }
  }

  lemma NothingInherited(own: Style, parent: Style)
    requires Inherit(own, parent) == map[]
    ensures parent == map[]
  {
    assert forall k :: k in parent ==> k in Inherit(own, parent);
  }

  // ---------------------------------------------------------------- the stack is always the chain

  /** The stack when the scanner has read `read` of a content that began with an empty stack. */
  function StackAfter(read: string): seq<Style> {
    Scan(Start([]), read).groups
  }

  /** The loop's state when `s` has been read and `rest` has not. */
  function ScanPart(st: State, s: string, rest: string): State
    decreases |s|
  {
    if s == "" then st else ScanPart(st.Step(s[0], NextChar(s + rest), AtEnd(s + rest)), s[1..], rest)
  }

  lemma {:induction false} ScanGoesOn(st: State, s: string, rest: string)
    ensures Scan(st, s + rest) == Scan(ScanPart(st, s, rest), rest)
    decreases |s|
  {
    if s == "" {
      assert s + rest == rest;
    } else {
      assert (s + rest)[1..] == s[1..] + rest;
      ScanGoesOn(st.Step(s[0], NextChar(s + rest), AtEnd(s + rest)), s[1..], rest);
    }
  }

  /** Looking ahead makes no difference to the stack, so StackAfter is the loop's stack at that point. */
  lemma {:induction false} StackNeedsNoLookahead(st: State, s: string, rest: string)
    ensures ScanPart(st, s, rest).groups == Scan(st, s).groups
    decreases |s|
  {
    if |s| == 1 {
      assert s[1..] == "";
      LookaheadKeepsStack(st, s[0], NextChar(s + rest), AtEnd(s + rest), NextChar(s), AtEnd(s));
    } else if |s| > 1 {
      StackNeedsNoLookahead(st.Step(s[0], NextChar(s), AtEnd(s)), s[1..], rest);
    }
  }

  lemma LookaheadKeepsStack(st: State, c: char, next: char, last: bool, next': char, last': bool)
    ensures st.Step(c, next, last).groups == st.Step(c, next', last').groups
  {
    var part := st.OpenStyle(c, next).MarkClosing(c, next).TakeText(c, last);
    var part' := st.OpenStyle(c, next').MarkClosing(c, next').TakeText(c, last');
    assert part.groups == st.groups == part'.groups;
    assert c == '}' ==> part' == part.(labels := part'.labels, currText := part'.currText);
    ClosingHalf(part, part', c);
  }

  /** The second half of a turn looks neither ahead nor at the labels. */
  lemma ClosingHalf(st: State, st': State, c: char)
    requires st.groups == st'.groups && (c == '}' ==> st' == st.(labels := st'.labels, currText := st'.currText))
    ensures st.CloseBlock(c).TakeStyle(c).CloseStyle(c).groups == st'.CloseBlock(c).TakeStyle(c).CloseStyle(c).groups
  {
    hide AddStyleGroup, RemoveLast, Top;
  }

  /** Between siblings, anywhere in a document, the stack is exactly the chain of the non-empty enclosing
      styles. */
  lemma StackIsChain(frames: seq<Frame>, before: seq<Node>, after: seq<Node>)
    requires Printable(Plug(frames, before + after), map[], "")
    ensures var read := Upto(frames, map[]) + Print(before, StyleAt(frames, map[]));
            read <= Print(Plug(frames, before + after), map[]) && StackAfter(read) == Chain(frames, map[])
  {
    hide Scan, Printable, Print, Upto, Beyond, Plug, Unstyled, Closed, Chain, StyleAt;
    var st := StackAtPosition([], frames, before, after, "");
    NothingMore(Upto(frames, map[]) + Print(before, StyleAt(frames, map[])));
    ScanNothing(st);
  }

  /** So it is at every character of a text. */
  lemma StackIsChainInText(frames: seq<Frame>, before: seq<Node>, text: string, n: nat, after: seq<Node>)
    requires Printable(Plug(frames, before + ([Text(text)] + after)), map[], "") && n <= |text|
    ensures var read := Upto(frames, map[]) + Print(before, StyleAt(frames, map[])) + text[..n];
            && read <= Print(Plug(frames, before + ([Text(text)] + after)), map[])
            && StackAfter(read) == Chain(frames, map[])
  {
    hide Scan, Printable, Print, Upto, Beyond, Plug, Unstyled, Closed, Chain, StyleAt, PlainText;
    var style, beyond := StyleAt(frames, map[]), Beyond(frames, map[]);
    InnerIsPrintable(frames, before, [Text(text)] + after);
    PrintConcat([Text(text)], after, style);
    TextIsPrinted(text, style, Print(after, style) + beyond);
    Associative(text, Print(after, style), beyond);
    PrintableConcat([Text(text)], after, style, beyond);
    TakePrefix(text, n, Print(after, style) + beyond);
    var st := StackAtPosition([], frames, before, [Text(text)] + after, text[..n]);
    PlainCut(text, Print(after, style) + beyond, n, "");
    var st' := ScanText(st, text[..n], "");
    NothingMore(text[..n]);
    ScanNothing(st');
  }

  lemma TextIsPrinted(text: string, style: Style, rest: string)
    ensures Print([Text(text)], style) == text
    ensures Printable([Text(text)], style, rest) ==> PlainText(text, rest)
  {
    PrintSingle(Text(text), style, rest);
  }

  lemma TakePrefix(s: string, n: nat, rest: string)
    requires n <= |s|
    ensures s[..n] <= s + rest && "" <= s[n..] + rest
  {
  }

  lemma InnerIsPrintable(frames: seq<Frame>, before: seq<Node>, after: seq<Node>)
    requires Printable(Plug(frames, before + after), map[], "")
    ensures Printable(after, StyleAt(frames, map[]), Beyond(frames, map[]))
  {
    PrintedPlug(frames, before + after, map[], "");
    assert Beyond(frames, map[]) + "" == Beyond(frames, map[]);
    PrintableConcat(before, after, StyleAt(frames, map[]), Beyond(frames, map[]));
  }

  /** And inside an opening tag, up to the brace that ends it. */
  lemma StackIsChainInOpenTag(frames: seq<Frame>, before: seq<Node>, n: Node, k: nat, after: seq<Node>)
    requires n.Element? && k < |OpenTag(n.listing)|
    requires Printable(Plug(frames, before + ([n] + after)), map[], "")
    ensures var read := Upto(frames, map[]) + Print(before, StyleAt(frames, map[])) + OpenTag(n.listing)[..k];
            read <= Print(Plug(frames, before + ([n] + after)), map[]) && StackAfter(read) == Chain(frames, map[])
  {
    hide Scan, Printable, Print, PrintNode, Upto, Beyond, Plug, Unstyled, Closed, Chain, StyleAt, OpenTag, CleanListing;
    var style, beyond := StyleAt(frames, map[]), Beyond(frames, map[]);
    InnerIsPrintable(frames, before, [n] + after);
    PrintConcat([n], after, style);
    PrintableConcat([n], after, style, beyond);
    ElementBegins(n, style, Print(after, style) + beyond);
    Associative(PrintNode(n, style), Print(after, style), beyond);
    var st := StackAtPosition([], frames, before, [n] + after, OpenTag(n.listing)[..k]);
    OpenTagActsAtItsEnd(st, n.listing, k);
  }

  lemma ElementBegins(n: Node, style: Style, rest: string)
    requires n.Element? && Printable([n], style, rest)
    ensures Print([n], style) == PrintNode(n, style) && CleanListing(n.listing)
    ensures forall k :: 0 <= k <= |OpenTag(n.listing)| ==> OpenTag(n.listing)[..k] <= PrintNode(n, style) + rest
  {
    PrintSingle(n, style, rest);
    PrintedElement(n, style, rest);
  }

  lemma OpenTagActsAtItsEnd(st: State, listing: seq<(string, string)>, k: nat)
    requires st.Idle() && CleanListing(listing) && k < |OpenTag(listing)|
    ensures Scan(st, OpenTag(listing)[..k]).groups == st.groups
  {
    var body := "@@" + StyleString(listing);
    if k > 0 {
      OpenTagIsBody(listing, "");
      OpenTagCut(listing, k);
      if k - 1 <= |body| {
        BodyKeepsStack(st, body, "@}" + "", k - 1, "");
      } else {
        BodyKeepsStack(st, body, "@}" + "", |body|, "@");
        assert body[..|body|] == body;
      }
    }
  }

  lemma OpenTagCut(listing: seq<(string, string)>, k: nat)
    requires 0 < k < |OpenTag(listing)|
    ensures var body := "@@" + StyleString(listing);
            OpenTag(listing)[..k] == ['{'] + (if k - 1 <= |body| then body[..k - 1] + "" else body + "@")
  {
  }

  /** The first `n` characters of a style block, and at most a mark that may end it. */
  lemma BodyKeepsStack(st: State, body: string, rest: string, n: nat, r: string)
    requires st.Idle() && StyleBody(body, rest) && n <= |body| && body != "" && body[0] == '@'
    requires r == "" || (r == "@" && n > 0)
    requires r <= body[n..] + rest
    ensures Scan(st, ['{'] + (body[..n] + r)).groups == st.groups
  {
    ScanStep(st, '{', body[..n] + r);
    if n == 0 {
      assert body[..0] + r == "";
    } else {
      var entered := st.Step('{', '@', false);
      EnterKeepsStack(st);
      BodyCut(body, rest, n, r);
      var inside := ScanStyleBody(entered, body[..n], r);
      MarkKeepsStack(inside, r);
    }
  }

  lemma EnterKeepsStack(st: State)
    requires st.Idle()
    ensures var st' := st.Step('{', '@', false);
            && st'.inStyleBlock && !st'.isClosingStyle && !st'.isClosingBlock && st'.currText == ""
            && st'.groups == st.groups
  {
  }

  lemma MarkKeepsStack(st: State, r: string)
    requires r == "" || r == "@"
    ensures Scan(st, r).groups == st.groups
  {
    if r == "@" {
      assert "@"[1..] == "" && ['@'] + "" == "@";
      ScanStep(st, '@', "");
    }
  }

  lemma {:induction false} BodyCut(body: string, rest: string, n: nat, r: string)
    requires StyleBody(body, rest) && n <= |body| && r <= body[n..] + rest
    ensures StyleBody(body[..n], r)
    decreases |body|
  {
    if n > 0 {
      assert body[..n][1..] == body[1..][..n - 1] && body[1..][n - 1..] == body[n..];
      BodyCut(body[1..], rest, n - 1, r);
      SameNextChar(body, rest, n, r);
    }
  }

  /** And inside a closing tag, up to its end. */
  lemma StackIsChainInCloseTag(frames: seq<Frame>, before: seq<Node>, k: nat)
    requires Printable(Plug(frames, before), map[], "") && frames != [] && k < |CLOSE_TAG|
    ensures var read := Upto(frames, map[]) + Print(before, StyleAt(frames, map[])) + CLOSE_TAG[..k];
            read <= Print(Plug(frames, before), map[]) && StackAfter(read) == Chain(frames, map[])
  {
    hide Scan, Printable, Upto, Beyond, Plug, Unstyled, Closed, Chain, StyleAt;
    assert before + [] == before;
    BeyondBegins(frames, map[]);
    assert Print([], StyleAt(frames, map[])) + Beyond(frames, map[]) == Beyond(frames, map[]);
    var st := StackAtPosition([], frames, before, [], CLOSE_TAG[..k]);
    NoBraceKeepsStack(st, CLOSE_TAG[..k]);
  }

  lemma {:induction false} BeyondBegins(frames: seq<Frame>, parent: Style)
    requires frames != []
    ensures CLOSE_TAG <= Beyond(frames, parent)
    decreases |frames|
  {
    if |frames| > 1 {
      BeyondBegins(frames[1..], Inherit(frames[0].own, parent));
    }
  }

  lemma {:induction false} NoBraceKeepsStack(st: State, s: string)
    requires '}' !in s
    ensures Scan(st, s).groups == st.groups
    decreases |s|
  {
    if s != "" {
      NoBraceKeepsStack(st.Step(s[0], NextChar(s), AtEnd(s)), s[1..]);
    }
  }

  /** A block element reads like a plain one with a text after it, so positions in the tail of a block are
      positions in a text. */
  lemma TailIsText(n: Node, parent: Style, rest: string)
    requires n.Element? && n.block && PrintableNode(n, parent, rest)
    ensures Print([n.(block := false), Text(" \n ")], parent) == PrintNode(n, parent)
    ensures Printable([n.(block := false), Text(" \n ")], parent, rest)
  {
    var plain, tail := n.(block := false), Text(" \n ");
    var inner := OpenTag(n.listing) + Print(n.children, Inherit(n.own, parent)) + CLOSE_TAG;
    assert PrintNode(n, parent) == inner + " \n " && PrintNode(plain, parent) == inner + "";
    assert PrintNode(plain, parent) == inner;
    PrintConcat([plain], [tail], parent);
    PrintSingle(plain, parent, "");
    PrintSingle(tail, parent, rest);
    assert [plain, tail] == [plain] + [tail] && [plain, tail][1..] == [tail] && [tail][1..] == [];
    assert CLOSE_TAG + Tail(false) + (" \n " + rest) == CLOSE_TAG + Tail(true) + rest;
    assert PrintableNode(plain, parent, " \n " + rest);
    TailIsPlain(true, rest);
    assert Printable([], parent, rest) && PlainText(" \n ", Print([], parent) + rest) by {
      assert Print([], parent) + rest == rest;
    }
    assert PrintableNode(tail, parent, Print([], parent) + rest);
    assert Printable([tail], parent, rest);
  }
}
