/** The style tags of ui/renderers/html.go: how an element tree is printed, and how the tag string is
    scanned back. */
module StyleTags {
  import opened Basics

  type Style = map<string, string>

  // ---------------------------------------------------------------- printing

  /** A node of the document.  `listing` is the order in which ranging over the element's inherited style
      map produced its entries, which is arbitrary. */
  datatype Node =
    | Text(text: string)
    | Element(block: bool, own: Style, listing: seq<(string, string)>, children: seq<Node>)

  /** The own entries win; those of the parent fill in. */
  function Inherit(own: Style, parent: Style): Style {
    parent + own
  }

  lemma OwnEntriesWin(own: Style, parent: Style, k: string)
    ensures k in Inherit(own, parent) <==> k in own || k in parent
    ensures k in own ==> Inherit(own, parent)[k] == own[k]
    ensures k in parent && k !in own ==> Inherit(own, parent)[k] == parent[k]
  {
  }

  function StyleString(listing: seq<(string, string)>): string {
    if listing == [] then "" else "##" + listing[0].0 + "--" + listing[0].1 + StyleString(listing[1..])
  }

  function MapOf(listing: seq<(string, string)>): Style {
    if listing == [] then map[] else MapOf(listing[..|listing| - 1])[Last(listing).0 := Last(listing).1]
  }

  function OpenTag(listing: seq<(string, string)>): string {
    "{@@" + StyleString(listing) + "@}"
  }

  const CLOSE_TAG := "{/@}"

  function Tail(block: bool): string {
    if block then " \n " else ""
  }

  function PrintNode(n: Node, parent: Style): string
    decreases n, 1
  {
    match n
    case Text(text) => text
    case Element(block, own, listing, children) =>
      OpenTag(listing) + Print(children, Inherit(own, parent)) + CLOSE_TAG + Tail(block)
  }

  function Print(ns: seq<Node>, parent: Style): string
    decreases ns, 0
  {
    if ns == [] then "" else PrintNode(ns[0], parent) + Print(ns[1..], parent)
  }

  // ---------------------------------------------------------------- scanning

  /** strings.Split with the two-character separator `d` `d`. */
  function Split(s: string, d: char): (parts: seq<string>)
    ensures parts != []
    decreases |s|
  {
    var i := FirstPair(s, d);
    if i == |s| then [s] else [s[..i]] + Split(s[i + 2..], d)
  }

  /** The index of the first `d` `d` in `s`, or the length of `s`. */
  function FirstPair(s: string, d: char): (i: nat)
    ensures i == |s| || i + 2 <= |s|
  {
    if |s| < 2 then |s| else if s[0] == d && s[1] == d then 0 else 1 + FirstPair(s[1..], d)
  }

  /** The map that addStyleGroup builds from the parts of a style string. */
  function StyleOfParts(parts: seq<string>): Style {
    if parts == [] then
      map[]
    else
      var before, part := StyleOfParts(parts[..|parts| - 1]), Last(parts);
      if part != " " && part != "{" && |Split(part, '-')| == 2 then
        before[Split(part, '-')[0] := Split(part, '-')[1]]
      else
        before
  }

  function ParseStyle(s: string): Style {
    StyleOfParts(Split(s, '#'))
  }

  function AddStyleGroup(groups: seq<Style>, s: string): seq<Style> {
    var style := ParseStyle(s);
    if style != map[] then groups + [style] else groups
  }

  function RemoveLast(groups: seq<Style>): seq<Style> {
    if groups == [] then [] else groups[..|groups| - 1]
  }

  /** The style a label gets: that of the innermost group, or none. */
  function Top(groups: seq<Style>): Style {
    if groups == [] then map[] else Last(groups)
  }

  datatype Label = Label(text: string, style: Style)

  /** The variables of the scanning loop. */
  datatype State = State(labels: seq<Label>, inStyleBlock: bool, isClosingStyle: bool, isClosingBlock: bool,
                         currStyle: string, currText: string, groups: seq<Style>) {

    /** Ends the current label. */
    function Flush(): State {
      this.(labels := labels + [Label(currText, Top(groups))], currText := "")
    }

    /** Outside all tags. */
    predicate Idle() {
      !inStyleBlock && !isClosingStyle && !isClosingBlock && currStyle == ""
    }

    function OpenStyle(c: char, next: char): State {
      if c == '{' && next == '@' then Flush().(inStyleBlock := true) else this
    }

    function MarkClosing(c: char, next: char): State {
      this.(isClosingStyle := isClosingStyle || (c == '@' && next == '}'),
            isClosingBlock := isClosingBlock || (c == '{' && next == '/'))
    }

    function TakeText(c: char, last: bool): State {
      if !inStyleBlock && !isClosingBlock then
        var s := this.(currText := currText + [c]);
        if last || c == ' ' then s.Flush() else s
      else
        this
    }

    function CloseBlock(c: char): State {
      if isClosingBlock && c == '}' then
        var s := Flush();
        s.(groups := RemoveLast(s.groups), isClosingBlock := false)
      else
        this
    }

    function TakeStyle(c: char): State {
      if inStyleBlock && !isClosingStyle then this.(currStyle := currStyle + [c]) else this
    }

    function CloseStyle(c: char): State {
      if isClosingStyle && c == '}' then
        this.(isClosingStyle := false, inStyleBlock := false,
              groups := AddStyleGroup(groups, currStyle), currStyle := "")
      else
        this
    }

    /** One turn of the loop, on character `c` before `next`. */
    function Step(c: char, next: char, last: bool): State {
      OpenStyle(c, next).MarkClosing(c, next).TakeText(c, last).CloseBlock(c).TakeStyle(c).CloseStyle(c)
    }
  }

  /** getNextChar: the character after the first, or zero. */
  function NextChar(s: string): char {
    if |s| >= 2 then s[1] else '\0'
  }

  predicate Ascii(c: char) {
    c < 128 as char
  }

  /** The end-of-content test compares byte offsets, so it sees the end only after a one-byte character. */
  predicate AtEnd(s: string)
    requires s != ""
  {
    |s| == 1 && Ascii(s[0])
  }

  function Scan(st: State, s: string): State
    decreases |s|
  {
    if s == "" then st else Scan(st.Step(s[0], NextChar(s), AtEnd(s)), s[1..])
  }

  lemma ScanNothing(st: State)
    ensures Scan(st, "") == st
  {
  }

  function Start(groups: seq<Style>): State {
    State([], false, false, false, "", "", groups)
  }

  // ---------------------------------------------------------------- style strings

  /** No `d` `d` in `s`, and none made by the separator that follows. */
  predicate Unsplit(s: string, d: char) {
    (forall i :: 0 <= i < |s| - 1 ==> !(s[i] == d && s[i + 1] == d)) && (s != "" ==> Last(s) != d)
  }

  predicate NoPair(s: string, d: char) {
    forall i :: 0 <= i < |s| - 1 ==> !(s[i] == d && s[i + 1] == d)
  }

  /** No "@}" and no "{/" in `s`. */
  predicate TagFree(s: string) {
    forall i :: 0 <= i < |s| - 1 ==> !(s[i] == '@' && s[i + 1] == '}') && !(s[i] == '{' && s[i + 1] == '/')
  }

  /** A style entry that survives being printed between the separators. */
  predicate CleanEntry(k: string, v: string) {
    && Unsplit(k, '-') && NoPair(v, '-') && NoPair(k, '#') && Unsplit(v, '#')
    && TagFree(k) && TagFree(v)
  }

  predicate CleanListing(listing: seq<(string, string)>) {
    forall i :: 0 <= i < |listing| ==> CleanEntry(listing[i].0, listing[i].1)
  }

  lemma {:induction false} FirstPairOf(w: string, d: char, rest: string)
    requires Unsplit(w, d)
    ensures FirstPair(w + [d, d] + rest, d) == |w|
    ensures FirstPair(w, d) == |w|
  {
    var s := w + [d, d] + rest;
    if w != "" {
      assert s[1..] == w[1..] + [d, d] + rest;
      if |w| > 1 {
        assert Last(w[1..]) == Last(w);
      }
      FirstPairOf(w[1..], d, rest);
    }
  }

  lemma SplitFirst(w: string, d: char, rest: string)
    requires Unsplit(w, d)
    ensures Split(w + [d, d] + rest, d) == [w] + Split(rest, d)
  {
    var s := w + [d, d] + rest;
    FirstPairOf(w, d, rest);
    assert s[..|w|] == w && s[|w| + 2..] == rest;
  }

  lemma {:induction false} SplitNone(w: string, d: char)
    requires NoPair(w, d)
    ensures Split(w, d) == [w]
  {
    NoFirstPair(w, d);
  }

  lemma {:induction false} NoFirstPair(w: string, d: char)
    requires NoPair(w, d)
    ensures FirstPair(w, d) == |w|
  {
    if |w| >= 2 {
      NoFirstPair(w[1..], d);
    }
  }

  function Part(entry: (string, string)): string {
    entry.0 + "--" + entry.1
  }

  function Parts(listing: seq<(string, string)>): seq<string> {
    seq(|listing|, i requires 0 <= i < |listing| => Part(listing[i]))
  }

  lemma PartIsClean(entry: (string, string))
    requires CleanEntry(entry.0, entry.1)
    ensures Unsplit(Part(entry), '#') && Split(Part(entry), '-') == [entry.0, entry.1]
    ensures Part(entry) != " " && Part(entry) != "{"
  {
    var k, v := entry.0, entry.1;
    var w := Part(entry);
    assert "--" == ['-', '-'];
    SplitFirst(k, '-', v);
    SplitNone(v, '-');
    assert w[|k|] == '-';
  }

  /** Splitting a printed style string gives its entries back. */
  lemma {:induction false} SplitPrinted(first: string, listing: seq<(string, string)>)
    requires Unsplit(first, '#') && CleanListing(listing)
    ensures Split(first + StyleString(listing), '#') == [first] + Parts(listing)
    decreases |listing|
  {
    if listing == [] {
      assert first + StyleString(listing) == first;
      SplitNone(first, '#');
    } else {
      hide Split, StyleString, Part, Parts, Unsplit, CleanEntry;
      PartIsClean(listing[0]);
      StyleStringCons(first, listing);
      SplitFirst(first, '#', Part(listing[0]) + StyleString(listing[1..]));
      SplitPrinted(Part(listing[0]), listing[1..]);
      PartsCons(first, listing);
    }
  }

  lemma PartsCons(first: string, listing: seq<(string, string)>)
    requires listing != []
    ensures [first] + Parts(listing) == [first] + ([Part(listing[0])] + Parts(listing[1..]))
  {
  }

  lemma StyleStringCons(first: string, listing: seq<(string, string)>)
    requires listing != []
    ensures first + StyleString(listing) == first + ['#', '#'] + (Part(listing[0]) + StyleString(listing[1..]))
  {
    assert "##" == ['#', '#'];
    FromTheRight(first, "##", listing[0].0, "--", listing[0].1, StyleString(listing[1..]));
  }

  lemma FromTheRight(first: string, a: string, b: string, c: string, d: string, rest: string)
    ensures first + (a + b + c + d + rest) == first + a + (b + c + d + rest)
    ensures a + b + c + d + rest == a + (b + (c + (d + rest)))
  {
    Associative(a, b, c);
    Associative(a, b + c, d);
    Associative(a, b + c + d, rest);
    Associative(first, a, b + c + d + rest);
    Associative(b, c, d);
    Associative(b, c + d, rest);
    Associative(c, d, rest);
  }

  /** A value that itself holds the separator is lost. */
  lemma DashedValueIsLost(k: string, a: string, b: string)
    requires Unsplit(k, '-') && Unsplit(a, '-') && NoPair(b, '-') && NoPair(Part((k, a + "--" + b)), '#')
    ensures ParseStyle("{@@##" + Part((k, a + "--" + b))) == map[]
  {
    var part := Part((k, a + "--" + b));
    assert "--" == ['-', '-'] && "{@@##" == "{@@" + ['#', '#'];
    SplitFirst("{@@", '#', part);
    SplitNone(part, '#');
    SplitNone("{@@", '-');
    assert part == k + ['-', '-'] + (a + ['-', '-'] + b);
    SplitFirst(k, '-', a + ['-', '-'] + b);
    SplitFirst(a, '-', b);
    SplitNone(b, '-');
    hide Split, Part, NoPair, Unsplit;
    TwoParts("{@@", part);
  }

  lemma TwoParts(first: string, second: string)
    requires |Split(first, '-')| != 2 && |Split(second, '-')| != 2
    ensures StyleOfParts([first] + [second]) == map[]
  {
    hide Split;
    assert ([first] + [second])[..1] == [first] && [first][..0] == [];
    assert StyleOfParts([first]) == map[];
  }

  lemma {:induction false} StyleOfPrinted(listing: seq<(string, string)>)
    requires CleanListing(listing)
    ensures StyleOfParts(["{@@"] + Parts(listing)) == MapOf(listing)
    decreases |listing|
  {
    var parts := ["{@@"] + Parts(listing);
    if listing == [] {
      assert parts == ["{@@"] && parts[..0] == [];
      SplitNone("{@@", '-');
    } else {
      var n := |listing| - 1;
      PartIsClean(Last(listing));
      assert Last(parts) == Part(Last(listing));
      assert parts[..|parts| - 1] == ["{@@"] + Parts(listing[..n]);
      StyleOfPrinted(listing[..n]);
    }
  }

  /** addStyleGroup reads back what styleMapToString printed, whatever the order of the entries. */
  lemma ParsePrinted(listing: seq<(string, string)>)
    requires CleanListing(listing)
    ensures ParseStyle("{@@" + StyleString(listing)) == MapOf(listing)
  {
    SplitPrinted("{@@", listing);
    StyleOfPrinted(listing);
  }
}
