/** Where labels begin and end: rendering a printed document makes one label of every word between two tags. */
module StyleLabels {
  import opened Basics
  import opened StyleRoundTrip
  import opened StyleTags

  // ---------------------------------------------------------------- the labels of a document

  /** One more character of a text in pieces: a space ends the last one. */
  function Typed(p: seq<string>, c: char): (p': seq<string>)
    requires p != []
    ensures p' != []
  {
    Front(p) + if c == ' ' then [Last(p) + [c], ""] else [Last(p) + [c]]
  }

  /** A text cut after every space; the last piece holds none and may be empty. */
  function Pieces(text: string): (p: seq<string>)
    ensures p != []
  {
    if text == "" then [""] else Typed(Pieces(Front(text)), Last(text))
  }

  /** The text from one tag to the next, in its style. */
  datatype Run = Run(text: string, style: Style)

  /** The last text of `a` and the first of `b` are one, without a tag between them. */
  function Glue(a: seq<Run>, b: seq<Run>): seq<Run>
    requires a != [] && b != []
  {
    Front(a) + [Run(Last(a).text + b[0].text, Last(a).style)] + b[1..]
  }

  function NodeRuns(n: Node, parent: Style): (r: seq<Run>)
    ensures r != []
    decreases n, 1
  {
    match n
    case Text(text) => [Run(text, parent)]
    case Element(block, own, _, children) =>
      [Run("", parent)] + Runs(children, Inherit(own, parent)) + [Run(Tail(block), parent)]
  }

  function Runs(ns: seq<Node>, parent: Style): (r: seq<Run>)
    ensures r != []
    decreases ns, 0
  {
    if ns == [] then [Run("", parent)] else Glue(NodeRuns(ns[0], parent), Runs(ns[1..], parent))
  }

  function Spread(pieces: seq<string>, style: Style): (l: seq<Label>)
    ensures |l| == |pieces|
  {
    seq(|pieces|, i requires 0 <= i < |pieces| => Label(pieces[i], style))
  }

  function LabelsOf(runs: seq<Run>): (l: seq<Label>)
    ensures runs != [] ==> l != []
  {
    if runs == [] then [] else Spread(Pieces(runs[0].text), runs[0].style) + LabelsOf(runs[1..])
  }

  // ---------------------------------------------------------------- cutting at spaces

  function Concat(p: seq<string>): string {
    if p == [] then "" else Concat(Front(p)) + Last(p)
  }

  /** `p` makes up the text; each piece but the last ends in its only space, and the last has none. */
  predicate Words(p: seq<string>, text: string) {
    && p != [] && Concat(p) == text && ' ' !in Last(p)
    && forall i :: 0 <= i < |p| - 1 ==> p[i] != "" && Last(p[i]) == ' ' && ' ' !in Front(p[i])
  }

  lemma {:induction false} PiecesAreWords(text: string)
    ensures Words(Pieces(text), text)
  {
    if text == "" {
      assert Front([""]) == [];
    } else {
      PiecesAreWords(Front(text));
      TypedWords(Pieces(Front(text)), Front(text), Last(text));
    }
  }

  lemma TypedWords(p: seq<string>, text: string, c: char)
    requires text + [c] != "" && Words(p, text)
    ensures Words(Typed(p, c), text + [c])
  {
    var w := Last(p) + [c];
    assert p == Front(p) + [Last(p)] && Front(w) == Last(p);
    ConcatSnoc(Front(p), Last(p));
    ConcatSnoc(Front(p), w);
    ConcatSnoc(Front(p) + [w], "");
    Associative(Concat(Front(p)), Last(p), [c]);
    assert Front(p) + [w, ""] == Front(p) + [w] + [""];
  }

  lemma ConcatSnoc(p: seq<string>, w: string)
    ensures Concat(p + [w]) == Concat(p) + w
  {
    assert Front(p + [w]) == p;
  }

  lemma {:induction false} OnePiece(text: string)
    requires ' ' !in text
    ensures Pieces(text) == [text]
  {
    if text != "" {
      assert text == Front(text) + [Last(text)] && Last(text) in text;
      OnePiece(Front(text));
      assert Front([Front(text)]) == [];
    }
  }

  lemma PiecesSnoc(text: string, c: char)
    ensures Pieces(text + [c]) == Typed(Pieces(text), c)
  {
    assert Front(text + [c]) == text;
  }

  lemma {:induction false} PiecesConcat(a: string, b: string)
    ensures Pieces(a + b) == Front(Pieces(a)) + Pieces(Last(Pieces(a)) + b)
    decreases |b|
  {
    hide Pieces, Typed;
    var p := Pieces(a);
    PiecesAreWords(a);
    if b == "" {
      assert a + b == a && Last(p) + b == Last(p);
      OnePiece(Last(p));
    } else {
      var b', c := Front(b), Last(b);
      assert b == b' + [c];
      Associative(a, b', [c]);
      Associative(Last(p), b', [c]);
      PiecesConcat(a, b');
      PiecesSnoc(a + b', c);
      PiecesSnoc(Last(p) + b', c);
      TypedAfter(Front(p), Pieces(Last(p) + b'), c);
    }
  }

  lemma TypedAfter(before: seq<string>, p: seq<string>, c: char)
    requires p != []
    ensures Typed(before + p, c) == before + Typed(p, c)
  {
    assert Front(before + p) == before + Front(p);
  }

  lemma SpreadConcat(a: seq<string>, b: seq<string>, style: Style)
    ensures Spread(a + b, style) == Spread(a, style) + Spread(b, style)
  {
  }

  lemma {:induction false} VisibleConcat(a: seq<Label>, b: seq<Label>)
    ensures Visible(a + b) == Visible(a) + Visible(b)
    decreases |b|
  {
    if b == [] {
      assert a + b == a;
    } else {
      VisibleConcat(a, Front(b));
      VisibleSnoc(a + b);
      VisibleSnoc(b);
      hide Visible;
      assert Front(a + b) == a + Front(b) && Last(a + b) == Last(b);
      Associative(Visible(a), Visible(Front(b)), if Last(b).text == "" then [] else [Last(b)]);
      return;
    }
  }

  lemma VisibleSnoc(l: seq<Label>)
    requires l != []
    ensures Visible(l) == Visible(Front(l)) + if Last(l).text == "" then [] else [Last(l)]
  {
  }

  // ---------------------------------------------------------------- runs one after the other

  /** The text already read in front of the first run. */
  function Prepend(text: string, runs: seq<Run>): seq<Run>
    requires runs != []
  {
    [Run(text + runs[0].text, runs[0].style)] + runs[1..]
  }

  lemma {:induction false} LabelsConcat(a: seq<Run>, b: seq<Run>)
    ensures LabelsOf(a + b) == LabelsOf(a) + LabelsOf(b)
    decreases |a|
  {
    if a == [] {
      assert a + b == b;
    } else {
      assert (a + b)[1..] == a[1..] + b;
      LabelsConcat(a[1..], b);
    }
  }

  lemma LabelsOfOne(text: string, style: Style)
    ensures LabelsOf([Run(text, style)]) == Spread(Pieces(text), style)
  {
    assert [Run(text, style)][1..] == [];
  }

  /** The labels end with those of the last run, the last of which holds no space. */
  lemma LastLabel(runs: seq<Run>)
    requires runs != []
    ensures Last(LabelsOf(runs)) == Label(Last(Pieces(Last(runs).text)), Last(runs).style)
    ensures ' ' !in Last(LabelsOf(runs)).text
    ensures Front(LabelsOf(runs)) == LabelsOf(Front(runs)) + Spread(Front(Pieces(Last(runs).text)), Last(runs).style)
  {
    hide LabelsOf, Pieces, Spread;
    var init, text, style := Front(runs), Last(runs).text, Last(runs).style;
    assert runs == init + [Run(text, style)];
    LabelsConcat(init, [Run(text, style)]);
    LabelsOfOne(text, style);
    PiecesAreWords(text);
    SpreadEnds(LabelsOf(init), Pieces(text), style);
  }

  lemma SpreadEnds(before: seq<Label>, p: seq<string>, style: Style)
    requires p != []
    ensures before + Spread(p, style) != []
    ensures Last(before + Spread(p, style)) == Label(Last(p), style)
    ensures Front(before + Spread(p, style)) == before + Spread(Front(p), style)
  {
    assert Front(before + Spread(p, style)) == before + Front(Spread(p, style));
    assert Front(Spread(p, style)) == Spread(Front(p), style);
  }

  /** Without a tag between them, the last label of `a` goes on into the first of `b`. */
  lemma GlueLabels(a: seq<Run>, b: seq<Run>)
    requires a != [] && b != [] && Last(a).style == b[0].style
    ensures LabelsOf(Glue(a, b)) == Front(LabelsOf(a)) + LabelsOf(Prepend(Last(LabelsOf(a)).text, b))
  {
    var x, y, style := Last(a).text, b[0].text, b[0].style;
    var before, left := LabelsOf(Front(a)), Last(Pieces(x));
    LastLabel(a);
    PiecesConcat(x, y);
    SpreadConcat(Front(Pieces(x)), Pieces(left + y), style);
    GlueParts(a, b);
    LabelsOfOne(x + y, style);
    LabelsOfOne(left + y, style);
    LabelsConcat([Run(left + y, style)], b[1..]);
    hide LabelsOf, Pieces, Spread;
    Associative(before, Spread(Front(Pieces(x)), style), Spread(Pieces(left + y), style) + LabelsOf(b[1..]));
    Associative(Spread(Front(Pieces(x)), style), Spread(Pieces(left + y), style), LabelsOf(b[1..]));
  }

  lemma GlueParts(a: seq<Run>, b: seq<Run>)
    requires a != [] && b != []
    ensures LabelsOf(Glue(a, b))
         == LabelsOf(Front(a)) + (LabelsOf([Run(Last(a).text + b[0].text, Last(a).style)]) + LabelsOf(b[1..]))
  {
    var joint := [Run(Last(a).text + b[0].text, Last(a).style)];
    LabelsConcat(Front(a) + joint, b[1..]);
    LabelsConcat(Front(a), joint);
    Associative(LabelsOf(Front(a)), LabelsOf(joint), LabelsOf(b[1..]));
  }

  lemma PrependGlue(text: string, a: seq<Run>, b: seq<Run>)
    requires a != [] && b != []
    ensures Prepend(text, Glue(a, b)) == Glue(Prepend(text, a), b)
    ensures Last(Prepend(text, a)).style == Last(a).style
  {
    if |a| == 1 {
      Associative(text, a[0].text, b[0].text);
    }
  }

  /** The runs of a document begin and end in the style around it. */
  lemma {:induction false} RunsStyle(ns: seq<Node>, parent: Style)
    ensures Runs(ns, parent)[0].style == Last(Runs(ns, parent)).style == parent
    decreases |ns|
  {
    if ns != [] {
      RunsStyle(ns[1..], parent);
    }
  }

  lemma {:induction false} NothingPrinted(ns: seq<Node>, parent: Style)
    requires Print(ns, parent) == ""
    ensures Runs(ns, parent) == [Run("", parent)]
    decreases |ns|
  {
    if ns != [] {
      assert PrintNode(ns[0], parent) == "" && Print(ns[1..], parent) == "";
      NothingPrinted(ns[1..], parent);
    }
  }

  // ---------------------------------------------------------------- scanning into labels

  /** The end of the content has ended the last label. */
  predicate Ended(printed: string, rest: string, last: Label) {
    rest == "" && printed != "" && Ascii(Last(printed)) && last.text != ""
  }

  /** Scanning `printed` from `st` to `st'` makes the labels of `runs`, the first joined to the text read before; the
      last label is still open unless the content has ended. */
  ghost predicate Laid(st: State, runs: seq<Run>, printed: string, rest: string, st': State)
    requires runs != []
  {
    var all := LabelsOf(Prepend(st.currText, runs));
    && Scan(st, printed + rest) == Scan(st', rest)
    && st'.Idle() && st'.groups == st.groups && ' ' !in st'.currText
    && if Ended(printed, rest, Last(all)) then
         Visible(st'.labels) == Visible(st.labels) + Visible(all) && st'.currText == ""
       else
         Visible(st'.labels) == Visible(st.labels) + Visible(Front(all)) && st'.currText == Last(all).text
  }

  lemma OpenLabel(u: string, style: Style)
    requires ' ' !in u
    ensures LabelsOf(Prepend(u, [Run("", style)])) == [Label(u, style)]
  {
    assert u + "" == u && Prepend(u, [Run("", style)]) == [Run(u, style)];
    LabelsOfOne(u, style);
    OnePiece(u);
  }

  lemma LayNothing(st: State, rest: string, style: Style)
    requires st.Idle() && ' ' !in st.currText
    ensures Laid(st, [Run("", style)], "", rest, st)
  {
    OpenLabel(st.currText, style);
    assert "" + rest == rest && Visible(st.labels) + [] == Visible(st.labels);
  }

  /** The labels of the open one and a character after it. */
  lemma CharLabels(u: string, c: char, style: Style)
    requires ' ' !in u
    ensures LabelsOf(Prepend(u, [Run([c], style)]))
         == if c == ' ' then [Label(u + [c], style), Label("", style)] else [Label(u + [c], style)]
  {
    assert Prepend(u, [Run([c], style)]) == [Run(u + [c], style)] && Front(u + [c]) == u;
    OnePiece(u);
    LabelsOfOne(u + [c], style);
    assert Front([u]) == [];
  }

  lemma LayChar(st: State, c: char, rest: string) returns (st': State)
    requires st.Idle() && !OpensTag([c] + rest) && ' ' !in st.currText
    ensures Laid(st, [Run([c], Top(st.groups))], [c], rest, st')
  {
    hide Scan, Visible, LabelsOf;
    var style := Top(st.groups);
    var typed := st.(currText := st.currText + [c]);
    st' := ScanTextChar(st, c, rest);
    CharLabels(st.currText, c, style);
    FlushShows(typed);
    VisibleOne(typed.currText, style);
    VisibleNone(Visible(st.labels), Label(typed.currText, style));
    assert Front([Label(typed.currText, style), Label("", style)]) == [Label(typed.currText, style)];
  }

  lemma VisibleOne(text: string, style: Style)
    ensures Visible([]) == [] && Visible([Label(text, style)]) == if text == "" then [] else [Label(text, style)]
  {
    assert Front([Label(text, style)]) == [];
  }

  /** Two printings scanned one after the other, without a tag between them. */
  lemma LaidThen(st: State, a: seq<Run>, s: string, b: seq<Run>, t: string, rest: string, mid: State, st': State)
    requires a != [] && b != [] && Last(a).style == b[0].style && (t == "" ==> b == [Run("", b[0].style)])
    requires Laid(st, a, s, t + rest, mid) && Laid(mid, b, t, rest, st')
    ensures Laid(st, Glue(a, b), s + t, rest, st')
  {
    hide Scan, LabelsOf, Visible, Glue, Pieces;
    var first, more := LabelsOf(Prepend(st.currText, a)), LabelsOf(Prepend(mid.currText, b));
    Associative(s, t, rest);
    JoinedRuns(st.currText, a, b);
    if t == "" {
      assert s + t == s && t + rest == rest;
      OpenLabel(Last(first).text, b[0].style);
      OpenLabel(mid.currText, b[0].style);
      VisibleNone(Visible(mid.labels), Label(mid.currText, b[0].style));
      assert Front(first) + [Last(first)] == first;
    } else {
      assert Last(s + t) == Last(t);
    }
    JoinLabels(Visible(st.labels), first, more);
  }

  lemma JoinedRuns(u: string, a: seq<Run>, b: seq<Run>)
    requires a != [] && b != [] && Last(a).style == b[0].style
    ensures var first := LabelsOf(Prepend(u, a));
            && LabelsOf(Prepend(u, Glue(a, b))) == Front(first) + LabelsOf(Prepend(Last(first).text, b))
            && ' ' !in Last(first).text && Last(first).style == b[0].style
  {
    PrependGlue(u, a, b);
    GlueLabels(Prepend(u, a), b);
    LastLabel(Prepend(u, a));
  }

  lemma JoinLabels(before: seq<Label>, first: seq<Label>, more: seq<Label>)
    requires first != [] && more != []
    ensures before + Visible(Front(first)) + Visible(more) == before + Visible(Front(first) + more)
    ensures before + Visible(Front(first)) + Visible(Front(more)) == before + Visible(Front(Front(first) + more))
    ensures |more| == 1 ==> Front(Front(first) + more) == Front(first)
  {
    var init := Front(first);
    assert Front(init + more) == init + Front(more);
    VisibleConcat(init, more);
    VisibleConcat(init, Front(more));
    Associative(before, Visible(init), Visible(more));
    Associative(before, Visible(init), Visible(Front(more)));
    assert |more| == 1 ==> init + Front(more) == init;
  }

  lemma VisibleNone(before: seq<Label>, l: Label)
    ensures before + Visible(Front([l])) == before
  {
  }

  lemma {:induction false} LayText(st: State, text: string, rest: string) returns (st': State)
    requires st.Idle() && PlainText(text, rest) && ' ' !in st.currText
    ensures Laid(st, [Run(text, Top(st.groups))], text, rest, st')
    decreases |text|
  {
    hide Scan, Visible, LabelsOf;
    var style := Top(st.groups);
    if text == "" {
      LayNothing(st, rest, style);
      st' := st;
    } else {
      var c, more := text[0], text[1..];
      assert text + rest == [c] + (more + rest) && text == [c] + more;
      var mid := LayChar(st, c, more + rest);
      LaidKeeps(st, [Run([c], style)], [c], more + rest, mid);
      hide Laid;
      st' := LayText(mid, more, rest);
      LaidThen(st, [Run([c], style)], [c], [Run(more, style)], more, rest, mid, st');
      assert Glue([Run([c], style)], [Run(more, style)]) == [Run(text, style)];
    }
  }

  // ---------------------------------------------------------------- elements

  lemma {:induction false} LayNodes(st: State, ns: seq<Node>, parent: Style, rest: string) returns (st': State)
    requires st.Idle() && Printable(ns, parent, rest) && ' ' !in st.currText
    requires Top(st.groups) == parent && (parent == map[] ==> st.groups == [])
    ensures Laid(st, Runs(ns, parent), Print(ns, parent), rest, st')
    decreases ns, 0
  {
    if ns == [] {
      LayNothing(st, rest, parent);
      st' := st;
    } else {
      var more := Print(ns[1..], parent);
      var mid := LayNode(st, ns[0], parent, more + rest);
      LaidKeeps(st, NodeRuns(ns[0], parent), PrintNode(ns[0], parent), more + rest, mid);
      hide Laid;
      st' := LayNodes(mid, ns[1..], parent, rest);
      NodeStyle(ns[0], parent);
      RunsStyle(ns[1..], parent);
      if more == "" {
        NothingPrinted(ns[1..], parent);
      }
      LaidThen(st, NodeRuns(ns[0], parent), PrintNode(ns[0], parent), Runs(ns[1..], parent), more, rest, mid, st');
    }
  }

  lemma LaidKeeps(st: State, runs: seq<Run>, printed: string, rest: string, st': State)
    requires runs != [] && Laid(st, runs, printed, rest, st')
    ensures st'.Idle() && st'.groups == st.groups && ' ' !in st'.currText
  {
  }

  lemma NodeStyle(n: Node, parent: Style)
    ensures Last(NodeRuns(n, parent)).style == parent
  {
  }

  lemma {:induction false} LayNode(st: State, n: Node, parent: Style, rest: string) returns (st': State)
    requires st.Idle() && PrintableNode(n, parent, rest) && ' ' !in st.currText
    requires Top(st.groups) == parent && (parent == map[] ==> st.groups == [])
    ensures Laid(st, NodeRuns(n, parent), PrintNode(n, parent), rest, st')
    decreases n, 1
  {
    match n
    case Text(text) =>
      st' := LayText(st, text, rest);
    case Element(block, own, listing, children) =>
      st' := LayElement(st, n, parent, rest);
  }

  lemma {:induction false} LayElement(st: State, n: Node, parent: Style, rest: string) returns (st': State)
    requires n.Element? && st.Idle() && PrintableNode(n, parent, rest) && ' ' !in st.currText
    requires Top(st.groups) == parent && (parent == map[] ==> st.groups == [])
    ensures Laid(st, NodeRuns(n, parent), PrintNode(n, parent), rest, st')
    decreases n, 0
  {
    hide Scan, Seen, PlainText, PrintableNode, Printable, Print, PrintNode, CleanListing, MapOf, Inherit, Tail, OpenTag;
    hide Visible, LabelsOf, Runs, NodeRuns, Prepend;
    ElementParts(n, parent, rest);
    var style, tail := Inherit(n.own, parent), Tail(n.block);
    var inner, after := Print(n.children, style), tail + rest;
    Associative(CLOSE_TAG, tail, rest);
    TailIsPlain(n.block, rest);
    PrintedElement(n, parent, rest);
    var entered := ScanOpen(st, n.listing, inner + (CLOSE_TAG + after));
    FlushShows(st);
    var filled := LayNodes(entered, n.children, style, CLOSE_TAG + after);
    var closed := ScanClose(filled, after);
    FlushShows(filled);
    st' := LayText(closed, tail, rest);
    ElementLabels(st, n, parent, entered, filled, closed, st', rest);
  }

  /** The label before the element, those of its content, the last of which its closing tag ends, and its tail's. */
  lemma ElementLabels(st: State, n: Node, parent: Style, entered: State, filled: State, closed: State, st': State,
                      rest: string)
    requires n.Element? && ' ' !in st.currText && entered.currText == closed.currText == ""
    requires Top(st.groups) == Top(closed.groups) == parent && Top(filled.groups) == Inherit(n.own, parent)
    requires Visible(entered.labels) == Visible(st.Flush().labels) && closed.labels == filled.Flush().labels
    requires closed.groups == st.groups
    requires Laid(entered, Runs(n.children, Inherit(n.own, parent)), Print(n.children, Inherit(n.own, parent)),
                  CLOSE_TAG + (Tail(n.block) + rest), filled)
    requires Laid(closed, [Run(Tail(n.block), parent)], Tail(n.block), rest, st')
    requires Scan(st, PrintNode(n, parent) + rest) == Scan(st', rest)
    ensures Laid(st, NodeRuns(n, parent), PrintNode(n, parent), rest, st')
  {
    hide Scan, Visible, LabelsOf;
    var runs, tail := Runs(n.children, Inherit(n.own, parent)), [Run(Tail(n.block), parent)];
    var c, t := LabelsOf(runs), LabelsOf(tail);
    NothingBefore(runs);
    NothingBefore(tail);
    FlushShows(st);
    FlushShows(filled);
    RunsStyle(n.children, Inherit(n.own, parent));
    LastLabel(runs);
    LastLabel(tail);
    ElementRuns(st.currText, n, parent);
    hide Runs, NodeRuns, Print;
    PrintedElement(n, parent, rest);
    hide PrintNode, Pieces, Prepend;
    VisibleOne(st.currText, parent);
    VisibleOne(filled.currText, Inherit(n.own, parent));
    JoinElement(Visible(st.labels), Label(st.currText, parent), c, t);
  }

  lemma NothingBefore(runs: seq<Run>)
    requires runs != []
    ensures Prepend("", runs) == runs
  {
    assert "" + runs[0].text == runs[0].text;
  }

  lemma ElementRuns(u: string, n: Node, parent: Style)
    requires n.Element? && ' ' !in u
    ensures LabelsOf(Prepend(u, NodeRuns(n, parent)))
         == [Label(u, parent)] + (LabelsOf(Runs(n.children, Inherit(n.own, parent)))
                                  + LabelsOf([Run(Tail(n.block), parent)]))
  {
    var runs, tail := Runs(n.children, Inherit(n.own, parent)), [Run(Tail(n.block), parent)];
    var first := Prepend(u, [Run("", parent)]);
    assert Prepend(u, [Run("", parent)] + runs + tail) == first + (runs + tail);
    OpenLabel(u, parent);
    LabelsConcat(first, runs + tail);
    LabelsConcat(runs, tail);
  }

  lemma JoinElement(before: seq<Label>, l: Label, c: seq<Label>, t: seq<Label>)
    requires c != [] && t != []
    ensures before + Visible([l]) + Visible(Front(c)) + Visible([Last(c)]) + Visible(t)
         == before + Visible([l] + (c + t))
    ensures before + Visible([l]) + Visible(Front(c)) + Visible([Last(c)]) + Visible(Front(t))
         == before + Visible(Front([l] + (c + t)))
    ensures Last([l] + (c + t)) == Last(t)
  {
    assert c == Front(c) + [Last(c)] && Front([l] + (c + t)) == [l] + (c + Front(t));
    VisibleConcat(Front(c), [Last(c)]);
    JoinFour(before, [l], c, t);
    JoinFour(before, [l], c, Front(t));
  }

  lemma JoinFour(before: seq<Label>, l: seq<Label>, c: seq<Label>, t: seq<Label>)
    requires c != [] && Visible(c) == Visible(Front(c)) + Visible([Last(c)])
    ensures before + Visible(l) + Visible(Front(c)) + Visible([Last(c)]) + Visible(t) == before + Visible(l + (c + t))
  {
    VisibleConcat(c, t);
    VisibleConcat(l, c + t);
    hide Visible;
    Associative(before + Visible(l), Visible(Front(c)), Visible([Last(c)]));
    Associative(before + Visible(l), Visible(c), Visible(t));
    Associative(before, Visible(l), Visible(c) + Visible(t));
  }

  /** Whatever the content, a character ends a label only as a space, at the end of the content, or with a tag; and
      outside all tags it then does. */
  lemma StepEndsLabel(st: State, c: char, next: char, last: bool)
    ensures st.Step(c, next, last).labels != st.labels ==> c == ' ' || last || (c == '{' && next == '@') || c == '}'
    ensures st.Idle() && !(c == '{' && next == '/') ==>
              (st.Step(c, next, last).labels != st.labels <==> c == ' ' || last || (c == '{' && next == '@'))
  {
    hide AddStyleGroup, RemoveLast, Top;
  }

  // ---------------------------------------------------------------- whole documents

  /** Rendering a printed document makes, besides empty labels, exactly one label of every word between two tags, in
      the style inherited there; the very last one is missing when the content ends in a character of several bytes. */
  lemma LabelsAreThose(ns: seq<Node>)
    requires Printable(ns, map[], "")
    ensures var content, all := Print(ns, map[]), LabelsOf(Runs(ns, map[]));
            Visible(Scan(Start([]), content).labels)
            == Visible(if content == "" || Ascii(Last(content)) then all else Front(all))
  {
    var content, runs := Print(ns, map[]), Runs(ns, map[]);
    var end := LayNodes(Start([]), ns, map[], "");
    NothingBefore(runs);
    ScanNothing(end);
    if content == "" {
      NothingPrinted(ns, map[]);
      OpenLabel("", map[]);
    }
    assert content + "" == content;
    hide Scan, Runs, Print, Printable, LabelsOf, Visible, Prepend;
    EndLabels(LabelsOf(runs));
  }

  /** After a block element comes a label with a line break, which belongs to no word of the text. */
  lemma BlockEndsLine(style: Style)
    ensures Visible(LabelsOf([Run(Tail(true), style)])) == [Label(" ", style), Label("\n ", style)]
    ensures Visible(LabelsOf([Run(Tail(false), style)])) == []
  {
    LabelsOfOne(Tail(true), style);
    LabelsOfOne(Tail(false), style);
    TailPieces();
    hide Pieces, LabelsOf, Tail, Visible;
    var space, line, none := Label(" ", style), Label("\n ", style), Label("", style);
    assert Spread([" ", "\n ", ""], style) == [space] + [line] + [none];
    assert Spread([""], style) == [none];
    VisibleConcat([space] + [line], [none]);
    VisibleConcat([space], [line]);
    VisibleOne(" ", style);
    VisibleOne("\n ", style);
    VisibleOne("", style);
  }

  lemma TailPieces()
    ensures Pieces(Tail(true)) == [" ", "\n ", ""] && Pieces(Tail(false)) == [""]
  {
    hide Pieces, Typed;
    OnePiece("");
    assert "" + [' '] == " " && " " + ['\n'] == " \n" && " \n" + [' '] == " \n ";
    assert "" + ['\n'] == "\n" && "\n" + [' '] == "\n ";
    PiecesSnoc("", ' ');
    TypedOn([], "", ' ');
    PiecesSnoc(" ", '\n');
    TypedOn([" "], "", '\n');
    PiecesSnoc(" \n", ' ');
    TypedOn([" "], "\n", ' ');
    assert [] + [""] == [""] && [] + [" ", ""] == [" ", ""] == [" "] + [""];
    assert [" "] + ["\n"] == [" ", "\n"] && [" "] + ["\n ", ""] == [" ", "\n ", ""];
  }

  lemma TypedOn(before: seq<string>, w: string, c: char)
    ensures Typed(before + [w], c) == before + if c == ' ' then [w + [c], ""] else [w + [c]]
  {
    assert Front(before + [w]) == before;
  }

  lemma EndLabels(all: seq<Label>)
    requires all != []
    ensures Visible([]) + Visible(all) == Visible(all) && Visible([]) + Visible(Front(all)) == Visible(Front(all))
    ensures Last(all).text == "" ==> Visible(all) == Visible(Front(all))
  {
  }
}
