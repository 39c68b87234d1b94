/** The imperative side of ui/renderers/html.go: the maps it ranges over and the scanning loop. */
module HtmlProviders {
  import opened StyleTags

  /** styleMapToString: ranging over the map yields its entries in some order. */
  method StyleMapToString(style: Style) returns (str: string, listing: seq<(string, string)>)
    ensures MapOf(listing) == style && |listing| == |style.Keys|
    ensures str == StyleString(listing)
  {
    str, listing := "", [];
    var todo := style.Keys;
    while todo != {}
      invariant todo <= style.Keys && MapOf(listing) == style - todo
      invariant |listing| + |todo| == |style.Keys|
      invariant str == StyleString(listing)
      decreases |todo|
    {
      hide StyleString, MapOf;
      var k :| k in todo;
      str := str + "##" + k + "--" + style[k];
      StyleStringSnoc(listing, (k, style[k]));
      MapOfSnoc(listing, (k, style[k]));
      MoveKey(style, todo, k);
      listing := listing + [(k, style[k])];
      todo := todo - {k};
    }
  }

  lemma MapOfSnoc(listing: seq<(string, string)>, entry: (string, string))
    ensures MapOf(listing + [entry]) == MapOf(listing)[entry.0 := entry.1]
  {
    assert (listing + [entry])[..|listing|] == listing;
  }

  lemma MoveKey(style: Style, todo: set<string>, k: string)
    requires k in todo && todo <= style.Keys
    ensures (style - todo)[k := style[k]] == style - (todo - {k})
  {
  }

  lemma {:induction false} StyleStringSnoc(listing: seq<(string, string)>, entry: (string, string))
    ensures StyleString(listing + [entry]) == StyleString(listing) + "##" + entry.0 + "--" + entry.1
    decreases |listing|
  {
    if listing == [] {
      assert listing + [entry] == [entry] && [entry][1..] == [];
      assert StyleString([entry]) == "##" + entry.0 + "--" + entry.1 + "";
    } else {
      assert (listing + [entry])[1..] == listing[1..] + [entry];
      StyleStringSnoc(listing[1..], entry);
      var head := "##" + listing[0].0 + "--" + listing[0].1;
      Snoc4(head, StyleString(listing[1..]), entry.0, entry.1);
    }
  }

  lemma Snoc4(a: string, b: string, k: string, v: string)
    ensures a + (b + "##" + k + "--" + v) == a + b + "##" + k + "--" + v
  {
  }

  /** The start of setNodeStyle: what the node lacks it takes from its parent. */
  method InheritStyle(own: Style, parent: Style) returns (style: Style)
    ensures style == Inherit(own, parent)
  {
    hide Filled, Inherit;
    style := own;
    var todo := parent.Keys;
    NothingFilled(own, parent);
    while todo != {}
      invariant todo <= parent.Keys && style == Filled(own, parent, todo)
      decreases |todo|
    {
      var k :| k in todo;
      FillKey(own, parent, todo, k);
      if k !in style {
        style := style[k := parent[k]];
      }
      todo := todo - {k};
    }
    AllFilled(own, parent);
  }

  /** The own entries and those of the parent that are done with. */
  function Filled(own: Style, parent: Style, todo: set<string>): Style {
    (parent - todo) + own
  }

  lemma NothingFilled(own: Style, parent: Style)
    ensures Filled(own, parent, parent.Keys) == own
  {
    var none: Style := map[];
    assert parent - parent.Keys == none;
    assert none + own == own;
  }

  lemma AllFilled(own: Style, parent: Style)
    ensures Filled(own, parent, {}) == Inherit(own, parent)
  {
    assert parent - {} == parent;
  }

  lemma FillKey(own: Style, parent: Style, todo: set<string>, k: string)
    requires k in todo && todo <= parent.Keys
    ensures k in Filled(own, parent, todo) <==> k in own
    ensures Filled(own, parent, todo - {k})
         == if k in own then Filled(own, parent, todo) else Filled(own, parent, todo)[k := parent[k]]
  {
    MoveKey(parent, todo, k);
    var before := parent - todo;
    if k in own {
      assert before[k := parent[k]] + own == before + own;
    } else {
      assert before[k := parent[k]] + own == (before + own)[k := parent[k]];
    }
  }

  lemma ScanNext(st: State, content: string, i: nat)
    requires i < |content|
    ensures Scan(st, content[i..])
         == Scan(st.Step(content[i], NextChar(content[i..]), AtEnd(content[i..])), content[i + 1..])
  {
    assert content[i..][1..] == content[i + 1..];
  }

  class HtmlProvider {
    var styleGroups: seq<Style>
    var prefix: string

    method RemoveLastStyleGroup()
      modifies this`styleGroups
      ensures styleGroups == RemoveLast(old(styleGroups))
    {
      if |styleGroups| > 0 {
        styleGroups := styleGroups[..|styleGroups| - 1];
      }
    }

    method AddGroup(str: string)
      modifies this`styleGroups
      ensures styleGroups == AddStyleGroup(old(styleGroups), str)
    {
      var parts := Split(str, '#');
      var styleMap: Style := map[];
      var i := 0;
      while i < |parts|
        invariant i <= |parts| && styleMap == StyleOfParts(parts[..i])
      {
        assert parts[..i + 1][..i] == parts[..i];
        if parts[i] != " " && parts[i] != "{" {
          var styleParts := Split(parts[i], '-');
          if |styleParts| == 2 {
            styleMap := styleMap[styleParts[0] := styleParts[1]];
          }
        }
        i := i + 1;
      }
      assert parts[..i] == parts;
      if |styleMap| > 0 {
        styleGroups := styleGroups + [styleMap];
      }
    }

    function GetLabel(text: string): Label
      reads this
    {
      Label(text, Top(styleGroups))
    }

    /** The scanning loop of render. */
    method Render(text: string) returns (labels: seq<Label>)
      modifies this`styleGroups
      ensures var content := if prefix != "" then prefix + " " + text else text;
              labels == Scan(Start(old(styleGroups)), content).labels
              && styleGroups == Scan(Start(old(styleGroups)), content).groups
    {
      var content := text;
      if prefix != "" {
        content := prefix + " " + content;
      }
      var inStyleBlock, isClosingStyle, isClosingBlock := false, false, false;
      var currStyle, currText := "", "";
      labels := [];
      ghost var end := Scan(Start(styleGroups), content);
      var i := 0;
      assert content[0..] == content;
      hide Scan;
      while i < |content|
        invariant i <= |content|
        invariant Scan(State(labels, inStyleBlock, isClosingStyle, isClosingBlock, currStyle, currText, styleGroups),
                       content[i..]) == end
      {
        ghost var st := State(labels, inStyleBlock, isClosingStyle, isClosingBlock, currStyle, currText, styleGroups);
        var curr, next := content[i], NextChar(content[i..]);
        ScanNext(st, content, i);
        if curr == '{' && next == '@' {
          inStyleBlock := true;
          labels := labels + [GetLabel(currText)];
          currText := "";
        }
        if curr == '@' && next == '}' {
          isClosingStyle := true;
        }
        if curr == '{' && next == '/' {
          isClosingBlock := true;
        }
        if !inStyleBlock && !isClosingBlock {
          currText := currText + [curr];
          if AtEnd(content[i..]) || curr == ' ' {
            labels := labels + [GetLabel(currText)];
            currText := "";
          }
        }
        if isClosingBlock && curr == '}' {
          labels := labels + [GetLabel(currText)];
          currText := "";
          RemoveLastStyleGroup();
          isClosingBlock := false;
        }
        if inStyleBlock && !isClosingStyle {
          currStyle := currStyle + [curr];
        }
        if isClosingStyle && curr == '}' {
          isClosingStyle := false;
          inStyleBlock := false;
          AddGroup(currStyle);
          currStyle := "";
        }
        assert State(labels, inStyleBlock, isClosingStyle, isClosingBlock, currStyle, currText, styleGroups)
            == st.Step(curr, next, AtEnd(content[i..]));
        i := i + 1;
      }
      assert content[i..] == "";
      ScanNothing(State(labels, inStyleBlock, isClosingStyle, isClosingBlock, currStyle, currText, styleGroups));
    }
  }
}
