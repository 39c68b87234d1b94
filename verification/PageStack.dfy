/** The page stack of app/pagestack.go and the lifecycle callbacks it makes. */
module PageStacks {
  import opened Basics

  /** A page object: `instance` tells objects with the same ID apart. */
  datatype Page = Page(id: string, instance: nat, closable: bool)

  /** The callbacks of pages, in order.  Entered is no callback: it records that a page is put on a
      stack. */
  datatype Event =
    | Entered(page: Page)
    | Attached(page: Page)
    | NavigatedTo(page: Page)
    | NavigatedFrom(page: Page)
    | Closed(page: Page)

  // ---------------------------------------------------------------- what the operations do

  datatype Stack = Stack(pages: seq<Page>, log: seq<Event>)

  /** A page leaves for good. */
  function Leave(p: Page): seq<Event> {
    [NavigatedFrom(p)] + (if p.closable then [Closed(p)] else [])
  }

  function LeaveAll(ps: seq<Page>): seq<Event> {
    if ps == [] then [] else LeaveAll(ps[..|ps| - 1]) + Leave(ps[|ps| - 1])
  }

  function EnterAll(ps: seq<Page>): seq<Event> {
    if ps == [] then [] else EnterAll(ps[..|ps| - 1]) + [Entered(ps[|ps| - 1])]
  }

  function Top(ps: seq<Page>): Page
    requires ps != []
  {
    ps[|ps| - 1]
  }

  /** The index of the first page with this ID, or the number of pages. */
  function IndexOf(ps: seq<Page>, id: string): (i: nat)
    ensures i <= |ps|
    ensures i < |ps| ==> ps[i].id == id
    ensures forall j :: 0 <= j < i ==> ps[j].id != id
  {
    if ps == [] || ps[0].id == id then 0 else 1 + IndexOf(ps[1..], id)
  }

  /** The index of the last page that matches, or -1. */
  function LastMatch(ps: seq<Page>, matcher: Page -> bool): (i: int)
    ensures -1 <= i < |ps|
    ensures i >= 0 ==> matcher(ps[i])
    ensures forall j :: i < j < |ps| ==> !matcher(ps[j])
  {
    if ps == [] then -1
    else if matcher(Top(ps)) then |ps| - 1
    else LastMatch(ps[..|ps| - 1], matcher)
  }

  function Without(ps: seq<Page>, i: nat): seq<Page>
    requires i <= |ps|
  {
    if i < |ps| then ps[..i] + ps[i + 1..] else ps
  }

  function Push(s: Stack, p: Page): Stack {
    if s.pages != [] && Top(s.pages).id == p.id then
      s
    else
      var hidden := if s.pages != [] then [NavigatedFrom(Top(s.pages))] else [];
      var i := IndexOf(s.pages, p.id);
      var replaced := if i < |s.pages| then Leave(s.pages[i]) else [];
      Stack(Without(s.pages, i) + [p], s.log + hidden + replaced + [Entered(p), Attached(p), NavigatedTo(p)])
  }

  function Pop(s: Stack): Stack {
    if s.pages == [] then
      s
    else
      var rest := s.pages[..|s.pages| - 1];
      Stack(rest, s.log + Leave(Top(s.pages)) + (if rest != [] then [NavigatedTo(Top(rest))] else []))
  }

  function PopAfter(s: Stack, matcher: Page -> bool): Stack {
    var i := LastMatch(s.pages, matcher);
    if i == -1 then
      s
    else
      Stack(s.pages[..i + 1], s.log + LeaveAll(s.pages[i + 1..]) + [NavigatedTo(s.pages[i])])
  }

  function Reset(s: Stack, newPages: seq<Page>): Stack {
    Stack(newPages, s.log + LeaveAll(s.pages) + EnterAll(newPages)
                    + (if newPages != [] then [NavigatedTo(Top(newPages))] else []))
  }

  // ---------------------------------------------------------------- what every operation keeps

  predicate DistinctIds(ps: seq<Page>) {
    forall i, j :: 0 <= i < j < |ps| ==> ps[i].id != ps[j].id
  }

  /** The last navigation callback of the page said that it is shown. */
  predicate Shown(log: seq<Event>, p: Page) {
    log != [] && (
      var e := log[|log| - 1];
      e == NavigatedTo(p) || (e != NavigatedFrom(p) && Shown(log[..|log| - 1], p)))
  }

  function Count(log: seq<Event>, e: Event): nat {
    if log == [] then 0 else Count(log[..|log| - 1], e) + (if log[|log| - 1] == e then 1 else 0)
  }

  /** Exactly the top page is shown. */
  ghost predicate ShowsTop(s: Stack) {
    forall p :: Shown(s.log, p) <==> s.pages != [] && p == Top(s.pages)
  }

  /** Every stay of a closable page on the stack ends in one OnClosed, and nothing else closes a page. */
  ghost predicate Balanced(s: Stack) {
    forall p :: Count(s.log, Closed(p)) + (if p.closable && p in s.pages then 1 else 0)
             == if p.closable then Count(s.log, Entered(p)) else 0
  }

  /** OnClosed comes right after OnNavigatedFrom. */
  ghost predicate Paired(log: seq<Event>) {
    forall n :: 0 <= n < |log| && log[n].Closed? ==> n > 0 && log[n - 1] == NavigatedFrom(log[n].page)
  }

  ghost predicate Inv(s: Stack) {
    DistinctIds(s.pages) && ShowsTop(s) && Balanced(s) && Paired(s.log)
  }

  lemma {:induction false} CountConcat(a: seq<Event>, b: seq<Event>, e: Event)
    ensures Count(a + b, e) == Count(a, e) + Count(b, e)
    decreases |b|
  {
    if b == [] {
      assert a + b == a;
    } else {
      assert (a + b)[..|a + b| - 1] == a + b[..|b| - 1];
      CountConcat(a, b[..|b| - 1], e);
    }
  }

  predicate Navigates(log: seq<Event>, p: Page) {
    NavigatedTo(p) in log || NavigatedFrom(p) in log
  }

  lemma {:induction false} ShownConcat(a: seq<Event>, b: seq<Event>, p: Page)
    ensures Shown(a + b, p) == if Navigates(b, p) then Shown(b, p) else Shown(a, p)
    ensures Navigates(a + b, p) <==> Navigates(a, p) || Navigates(b, p)
    decreases |b|
  {
    if b == [] {
      assert a + b == a;
    } else {
      var b', e := b[..|b| - 1], b[|b| - 1];
      assert (a + b)[..|a + b| - 1] == a + b' && b == b' + [e];
      ShownConcat(a, b', p);
    }
  }

  lemma PairedConcat(a: seq<Event>, b: seq<Event>)
    requires Paired(a) && Paired(b)
    ensures Paired(a + b)
  {
  }

  lemma LastIsNew(ps: seq<Page>, p: Page)
    requires ps != [] && DistinctIds(ps)
    ensures DistinctIds(ps[..|ps| - 1]) && (p in ps[..|ps| - 1] ==> p != Top(ps))
    ensures p in ps <==> p in ps[..|ps| - 1] || p == Top(ps)
  {
    assert ps == ps[..|ps| - 1] + [Top(ps)];
  }

  // What a departure, a group of departures and a group of arrivals do to the log.

  lemma LeaveDoes(q: Page, p: Page)
    ensures Paired(Leave(q)) && !Shown(Leave(q), p) && (Navigates(Leave(q), p) <==> p == q)
    ensures Count(Leave(q), Closed(p)) == if p.closable && p == q then 1 else 0
    ensures Count(Leave(q), Entered(p)) == 0
  {
    var from, close := [NavigatedFrom(q)], if q.closable then [Closed(q)] else [];
    OneEvent(NavigatedFrom(q), p);
    OneEvent(Closed(q), p);
    ShownConcat(from, close, p);
    CountTail(from, close, p);
  }

  lemma OneEvent(e: Event, p: Page)
    ensures Shown([e], p) <==> e == NavigatedTo(p)
    ensures Navigates([e], p) <==> e == NavigatedTo(p) || e == NavigatedFrom(p)
    ensures Count([e], Closed(p)) == if e == Closed(p) then 1 else 0
    ensures Count([e], Entered(p)) == if e == Entered(p) then 1 else 0
  {
    assert [e][..0] == [];
  }

  lemma HideDoes(ps: seq<Page>, p: Page)
    ensures var hidden := if ps != [] then [NavigatedFrom(Top(ps))] else [];
            && Paired(hidden) && !Shown(hidden, p) && (Navigates(hidden, p) <==> ps != [] && p == Top(ps))
            && Count(hidden, Closed(p)) == 0 && Count(hidden, Entered(p)) == 0
  {
    if ps != [] {
      OneEvent(NavigatedFrom(Top(ps)), p);
    }
  }

  lemma EnterDoes(q: Page, p: Page)
    ensures var entered := [Entered(q), Attached(q)];
            && Paired(entered) && !Shown(entered, p) && !Navigates(entered, p)
            && Count(entered, Closed(p)) == 0 && Count(entered, Entered(p)) == if p == q then 1 else 0
  {
    OneEvent(Entered(q), p);
    OneEvent(Attached(q), p);
    assert [Entered(q), Attached(q)] == [Entered(q)] + [Attached(q)];
    ShownConcat([Entered(q)], [Attached(q)], p);
    CountTail([Entered(q)], [Attached(q)], p);
  }

  lemma {:induction false} LeaveAllCounts(ps: seq<Page>, p: Page)
    requires DistinctIds(ps)
    ensures Count(LeaveAll(ps), Closed(p)) == if p.closable && p in ps then 1 else 0
    ensures Count(LeaveAll(ps), Entered(p)) == 0
  {
    if ps != [] {
      var ps', q := ps[..|ps| - 1], Top(ps);
      LastIsNew(ps, p);
      LeaveAllCounts(ps', p);
      LeaveDoes(q, p);
      CountConcat(LeaveAll(ps'), Leave(q), Closed(p));
      CountConcat(LeaveAll(ps'), Leave(q), Entered(p));
    }
  }

  lemma {:induction false} LeaveAllNavigates(ps: seq<Page>, p: Page)
    requires DistinctIds(ps)
    ensures !Shown(LeaveAll(ps), p) && (Navigates(LeaveAll(ps), p) <==> p in ps)
  {
    if ps != [] {
      var ps', q := ps[..|ps| - 1], Top(ps);
      LastIsNew(ps, p);
      LeaveAllNavigates(ps', p);
      LeaveDoes(q, p);
      ShownConcat(LeaveAll(ps'), Leave(q), p);
    }
  }

  lemma {:induction false} LeaveAllPaired(ps: seq<Page>)
    ensures Paired(LeaveAll(ps))
  {
    if ps != [] {
      LeaveAllPaired(ps[..|ps| - 1]);
      LeaveDoes(Top(ps), Top(ps));
      PairedConcat(LeaveAll(ps[..|ps| - 1]), Leave(Top(ps)));
    }
  }

  lemma {:induction false} EnterAllDoes(ps: seq<Page>, p: Page)
    requires DistinctIds(ps)
    ensures !Navigates(EnterAll(ps), p)
    ensures Count(EnterAll(ps), Entered(p)) == if p in ps then 1 else 0
    ensures Count(EnterAll(ps), Closed(p)) == 0
  {
    hide Count, Navigates;
    if ps == [] {
      ReplacedDoes(ps, 0, p);
    } else {
      var ps', e := ps[..|ps| - 1], Entered(Top(ps));
      LastIsNew(ps, p);
      EnterAllDoes(ps', p);
      OneEvent(e, p);
      ShownConcat(EnterAll(ps'), [e], p);
      CountTail(EnterAll(ps'), [e], p);
    }
  }

  lemma {:induction false} EnterAllPaired(ps: seq<Page>)
    ensures Paired(EnterAll(ps))
  {
    if ps != [] {
      EnterAllPaired(ps[..|ps| - 1]);
    }
  }

  /** Appending events that show nothing and leave nothing shown but `p`, if any. */
  lemma ShowsAfter(s: Stack, tail: seq<Event>, p: Page)
    requires ShowsTop(s) && !Shown(tail, p)
    ensures Shown(s.log + tail, p) <==> s.pages != [] && p == Top(s.pages) && !Navigates(tail, p)
  {
    ShownConcat(s.log, tail, p);
  }

  lemma CountTail(log: seq<Event>, tail: seq<Event>, p: Page)
    ensures Count(log + tail, Closed(p)) == Count(log, Closed(p)) + Count(tail, Closed(p))
    ensures Count(log + tail, Entered(p)) == Count(log, Entered(p)) + Count(tail, Entered(p))
  {
    CountConcat(log, tail, Closed(p));
    CountConcat(log, tail, Entered(p));
  }

  /** A navigation to `p` at the end. */
  lemma NavigateLast(log: seq<Event>, p: Page, q: Page)
    ensures Shown(log + [NavigatedTo(p)], q) <==> q == p || Shown(log, q)
    ensures Count(log + [NavigatedTo(p)], Closed(q)) == Count(log, Closed(q))
    ensures Count(log + [NavigatedTo(p)], Entered(q)) == Count(log, Entered(q))
    ensures Paired(log) ==> Paired(log + [NavigatedTo(p)])
  {
    assert (log + [NavigatedTo(p)])[..|log|] == log;
  }

  /** 1 if `p` is on the stack. */
  function On(ps: seq<Page>, p: Page): nat {
    if p in ps then 1 else 0
  }

  /** The pages after an operation, and what it appended before showing the new top. */
  function Appended(s: Stack, tail: seq<Event>, pages: seq<Page>): Stack {
    Stack(pages, s.log + tail + (if pages != [] then [NavigatedTo(Top(pages))] else []))
  }

  /** What `tail` must account for, page by page: it shows nothing, hides the old top unless that stays on
      top, and closes or enters exactly the pages that leave or come. */
  ghost predicate Accounts(s: Stack, tail: seq<Event>, pages: seq<Page>, p: Page) {
    && !Shown(tail, p)
    && (s.pages != [] && p == Top(s.pages) ==> Navigates(tail, p) || (pages != [] && p == Top(pages)))
    && (if p.closable then On(s.pages, p) + Count(tail, Entered(p)) == On(pages, p) + Count(tail, Closed(p))
        else Count(tail, Closed(p)) == 0)
  }

  lemma AppendedKeepsInv(s: Stack, tail: seq<Event>, pages: seq<Page>)
    requires Inv(s) && Paired(tail) && DistinctIds(pages) && forall p :: Accounts(s, tail, pages, p)
    ensures Inv(Appended(s, tail, pages))
  {
    var s', log := Appended(s, tail, pages), s.log + tail;
    PairedConcat(s.log, tail);
    forall p
      ensures Shown(s'.log, p) <==> pages != [] && p == Top(pages)
      ensures Count(s'.log, Closed(p)) + (if p.closable && p in pages then 1 else 0)
           == if p.closable then Count(s'.log, Entered(p)) else 0
    {
      assert Accounts(s, tail, pages, p);
      ShowsAfter(s, tail, p);
      CountTail(s.log, tail, p);
      if pages != [] {
        NavigateLast(log, Top(pages), p);
      } else {
        assert s'.log == log;
      }
    }
    if pages != [] {
      NavigateLast(log, Top(pages), Top(pages));
    } else {
      assert s'.log == log;
    }
  }

  lemma PopKeepsInv(s: Stack)
    requires Inv(s)
    ensures Inv(Pop(s))
  {
    if s.pages != [] {
      var top, rest := Top(s.pages), s.pages[..|s.pages| - 1];
      LeaveDoes(top, top);
      LastIsNew(s.pages, top);
      hide Inv, Paired, Accounts, DistinctIds, Leave;
      forall p
        ensures Accounts(s, Leave(top), rest, p)
      {
        PopAccounts(s, p);
      }
      AppendedKeepsInv(s, Leave(top), rest);
    }
  }

  lemma PopAccounts(s: Stack, p: Page)
    requires s.pages != [] && DistinctIds(s.pages)
    ensures Accounts(s, Leave(Top(s.pages)), s.pages[..|s.pages| - 1], p)
  {
    hide Shown, Count, Navigates, Leave;
    LeaveDoes(Top(s.pages), p);
    LastIsNew(s.pages, p);
  }

  lemma SplitIsDistinct(ps: seq<Page>, k: nat)
    requires DistinctIds(ps) && k <= |ps|
    ensures DistinctIds(ps[..k]) && DistinctIds(ps[k..])
  {
  }

  lemma SplitHas(ps: seq<Page>, k: nat, p: Page)
    requires DistinctIds(ps) && k <= |ps|
    ensures On(ps, p) == On(ps[..k], p) + On(ps[k..], p)
    ensures ps != [] && p == Top(ps) ==> p in ps[k..] || (k == |ps| && ps[..k] == ps)
  {
    var kept, popped := ps[..k], ps[k..];
    assert ps == kept + popped;
    if p in kept {
      var j :| 0 <= j < k && kept[j] == p;
      assert forall m :: 0 <= m < |popped| ==> popped[m].id != ps[j].id;
    }
    if popped != [] {
      assert Top(ps) == popped[|popped| - 1];
    }
  }

  lemma PopAfterAccounts(s: Stack, k: nat, p: Page)
    requires 0 < k <= |s.pages| && DistinctIds(s.pages)
    ensures Accounts(s, LeaveAll(s.pages[k..]), s.pages[..k], p)
  {
    hide Shown, Count, Navigates, LeaveAll, DistinctIds;
    SplitIsDistinct(s.pages, k);
    LeaveAllCounts(s.pages[k..], p);
    LeaveAllNavigates(s.pages[k..], p);
    SplitHas(s.pages, k, p);
  }

  lemma PopAfterIsAppended(s: Stack, matcher: Page -> bool)
    ensures var i := LastMatch(s.pages, matcher);
            PopAfter(s, matcher) == if i < 0 then s else Appended(s, LeaveAll(s.pages[i + 1..]), s.pages[..i + 1])
  {
  }

  lemma PopAfterKeepsInv(s: Stack, matcher: Page -> bool)
    requires Inv(s)
    ensures Inv(PopAfter(s, matcher))
  {
    var i := LastMatch(s.pages, matcher);
    assert DistinctIds(s.pages);
    PopAfterIsAppended(s, matcher);
    hide Inv, Paired, Accounts, DistinctIds, LeaveAll, PopAfter, Appended;
    if i >= 0 {
      var kept, popped := s.pages[..i + 1], s.pages[i + 1..];
      SplitIsDistinct(s.pages, i + 1);
      LeaveAllPaired(popped);
      forall p
        ensures Accounts(s, LeaveAll(popped), kept, p)
      {
        PopAfterAccounts(s, i + 1, p);
      }
      AppendedKeepsInv(s, LeaveAll(popped), kept);
    }
  }

  /** Reset keeps all this exactly when the new pages have distinct IDs. */
  lemma ResetKeepsInv(s: Stack, newPages: seq<Page>)
    requires Inv(s)
    ensures Inv(Reset(s, newPages)) <==> DistinctIds(newPages)
  {
    if DistinctIds(newPages) {
      var leaving, entering := LeaveAll(s.pages), EnterAll(newPages);
      LeaveAllPaired(s.pages);
      forall p
        ensures Accounts(s, leaving + entering, newPages, p)
      {
        LeaveAllCounts(s.pages, p);
        LeaveAllNavigates(s.pages, p);
        EnterAllDoes(newPages, p);
        ShownConcat(leaving, entering, p);
        CountTail(leaving, entering, p);
      }
      EnterAllPaired(newPages);
      PairedConcat(leaving, entering);
      assert s.log + (leaving + entering) == s.log + leaving + entering;
      AppendedKeepsInv(s, leaving + entering, newPages);
    }
  }

  /** The events of a push before the new page is shown. */
  function PushTail(s: Stack, p: Page): seq<Event> {
    var hidden := if s.pages != [] then [NavigatedFrom(Top(s.pages))] else [];
    var i := IndexOf(s.pages, p.id);
    hidden + (if i < |s.pages| then Leave(s.pages[i]) else []) + [Entered(p), Attached(p)]
  }

  lemma PushKeepsInv(s: Stack, p: Page)
    requires Inv(s)
    ensures Inv(Push(s, p))
  {
    if s.pages == [] || Top(s.pages).id != p.id {
      var i := IndexOf(s.pages, p.id);
      var rest := Without(s.pages, i);
      ReplacedIsDistinct(s.pages, p);
      PushTailDoes(s, p, p);
      forall q
        ensures Accounts(s, PushTail(s, p), rest + [p], q)
      {
        PushTailDoes(s, p, q);
        WithoutHas(s.pages, i, q);
        PushAccounts(s, p, rest, q);
      }
      AppendedKeepsInv(s, PushTail(s, p), rest + [p]);
      PushIsAppended(s, p);
    }
  }

  lemma PushIsAppended(s: Stack, p: Page)
    requires s.pages == [] || Top(s.pages).id != p.id
    ensures Push(s, p) == Appended(s, PushTail(s, p), Without(s.pages, IndexOf(s.pages, p.id)) + [p])
  {
    var hidden := if s.pages != [] then [NavigatedFrom(Top(s.pages))] else [];
    var i := IndexOf(s.pages, p.id);
    var replaced := if i < |s.pages| then Leave(s.pages[i]) else [];
    assert [Entered(p), Attached(p), NavigatedTo(p)] == [Entered(p), Attached(p)] + [NavigatedTo(p)];
    assert s.log + (hidden + replaced + [Entered(p), Attached(p)]) + [NavigatedTo(p)]
        == s.log + hidden + replaced + ([Entered(p), Attached(p)] + [NavigatedTo(p)]);
  }

  lemma PushAccounts(s: Stack, p: Page, rest: seq<Page>, q: Page)
    requires s.pages == [] || Top(s.pages).id != p.id
    requires var i := IndexOf(s.pages, p.id);
             var replaced := i < |s.pages| && q == s.pages[i];
             var tail := PushTail(s, p);
             && !Shown(tail, q)
             && (Navigates(tail, q) <==> replaced || (s.pages != [] && q == Top(s.pages)))
             && Count(tail, Closed(q)) == (if q.closable && replaced then 1 else 0)
             && Count(tail, Entered(q)) == (if q == p then 1 else 0)
             && (q in rest <==> q in s.pages && !replaced) && (q == p ==> q !in rest)
    ensures Accounts(s, PushTail(s, p), rest + [p], q)
  {
  }

  /** The new page replaces the only one that had its ID. */
  lemma ReplacedIsDistinct(ps: seq<Page>, p: Page)
    requires DistinctIds(ps)
    ensures DistinctIds(Without(ps, IndexOf(ps, p.id)) + [p])
    ensures p !in Without(ps, IndexOf(ps, p.id))
  {
    var i := IndexOf(ps, p.id);
    var rest := Without(ps, i);
    WithoutIsDistinct(ps, i);
    hide Without, IndexOf;
    forall j | 0 <= j < |rest|
      ensures rest[j].id != p.id
    {
      WithoutAt(ps, i, j);
    }
  }

  lemma WithoutAt(ps: seq<Page>, i: nat, j: nat)
    requires i <= |ps| && j < |Without(ps, i)|
    ensures i == |ps| ==> j < |ps| && Without(ps, i)[j] == ps[j]
    ensures i < |ps| ==> j + 1 < |ps| && Without(ps, i)[j] == if j < i then ps[j] else ps[j + 1]
  {
  }

  lemma WithoutIsDistinct(ps: seq<Page>, i: nat)
    requires i <= |ps| && DistinctIds(ps)
    ensures DistinctIds(Without(ps, i))
  {
    var rest := Without(ps, i);
    forall j, k | 0 <= j < k < |rest|
      ensures rest[j].id != rest[k].id
    {
      WithoutAt(ps, i, j);
      WithoutAt(ps, i, k);
    }
  }

  lemma WithoutHas(ps: seq<Page>, i: nat, q: Page)
    requires DistinctIds(ps) && i <= |ps|
    ensures q in Without(ps, i) <==> q in ps && (i < |ps| ==> q != ps[i])
  {
    if i < |ps| {
      assert ps == ps[..i] + [ps[i]] + ps[i + 1..];
    }
  }

  lemma ReplacedDoes(ps: seq<Page>, i: nat, p: Page)
    ensures var replaced := if i < |ps| then Leave(ps[i]) else [];
            && Paired(replaced) && !Shown(replaced, p) && (Navigates(replaced, p) <==> i < |ps| && p == ps[i])
            && Count(replaced, Closed(p)) == (if p.closable && i < |ps| && p == ps[i] then 1 else 0)
            && Count(replaced, Entered(p)) == 0
  {
    if i < |ps| {
      LeaveDoes(ps[i], p);
    }
  }

  lemma PushTailDoes(s: Stack, p: Page, q: Page)
    requires s.pages == [] || Top(s.pages).id != p.id
    ensures var i := IndexOf(s.pages, p.id);
            var replaced := i < |s.pages| && q == s.pages[i];
            var tail := PushTail(s, p);
            && Paired(tail) && !Shown(tail, q)
            && (Navigates(tail, q) <==> replaced || (s.pages != [] && q == Top(s.pages)))
            && Count(tail, Closed(q)) == (if q.closable && replaced then 1 else 0)
            && Count(tail, Entered(q)) == (if q == p then 1 else 0)
  {
    var i := IndexOf(s.pages, p.id);
    var hidden := if s.pages != [] then [NavigatedFrom(Top(s.pages))] else [];
    var replaced := if i < |s.pages| then Leave(s.pages[i]) else [];
    var entered := [Entered(p), Attached(p)];
    assert PushTail(s, p) == hidden + replaced + entered;
    hide Shown, Navigates, Count, Paired, Leave, IndexOf, Top;
    ReplacedDoes(s.pages, i, q);
    HideDoes(s.pages, q);
    EnterDoes(p, q);
    hide PushTail;
    AllDo(hidden, replaced, entered, q);
  }

  lemma AllDo(a: seq<Event>, b: seq<Event>, c: seq<Event>, q: Page)
    requires Paired(a) && Paired(b) && Paired(c) && !Shown(a, q) && !Shown(b, q) && !Shown(c, q)
    ensures Paired(a + b + c) && !Shown(a + b + c, q)
    ensures Navigates(a + b + c, q) <==> Navigates(a, q) || Navigates(b, q) || Navigates(c, q)
    ensures Count(a + b + c, Closed(q)) == Count(a, Closed(q)) + Count(b, Closed(q)) + Count(c, Closed(q))
    ensures Count(a + b + c, Entered(q)) == Count(a, Entered(q)) + Count(b, Entered(q)) + Count(c, Entered(q))
  {
    hide Shown, Navigates, Count, Paired;
    BothDo(a, b, q);
    BothDo(a + b, c, q);
  }

  /** Two logs that leave `q` hidden, one after the other. */
  lemma BothDo(a: seq<Event>, b: seq<Event>, q: Page)
    requires Paired(a) && Paired(b) && !Shown(a, q) && !Shown(b, q)
    ensures Paired(a + b) && !Shown(a + b, q) && (Navigates(a + b, q) <==> Navigates(a, q) || Navigates(b, q))
    ensures Count(a + b, Closed(q)) == Count(a, Closed(q)) + Count(b, Closed(q))
    ensures Count(a + b, Entered(q)) == Count(a, Entered(q)) + Count(b, Entered(q))
  {
    ShownConcat(a, b, q);
    CountTail(a, b, q);
    PairedConcat(a, b);
  }

  // ---------------------------------------------------------------- whole runs

  datatype Op =
    | DoPush(page: Page)
    | DoPop
    | DoPopAfter(matcher: Page -> bool)
    | DoReset(newPages: seq<Page>)

  function Apply(s: Stack, op: Op): Stack {
    match op
    case DoPush(page) => Push(s, page)
    case DoPop => Pop(s)
    case DoPopAfter(matcher) => PopAfter(s, matcher)
    case DoReset(newPages) => Reset(s, newPages)
  }

  function Run(ops: seq<Op>): Stack {
    if ops == [] then Stack([], []) else Apply(Run(ops[..|ops| - 1]), ops[|ops| - 1])
  }

  /** Over any run whose resets bring pages with distinct IDs: IDs stay distinct, exactly the top page is
      shown, and every stay of a closable page ends in OnNavigatedFrom and then OnClosed, once. */
  lemma {:induction false} LifecycleHolds(ops: seq<Op>)
    requires forall n :: 0 <= n < |ops| && ops[n].DoReset? ==> DistinctIds(ops[n].newPages)
    ensures Inv(Run(ops))
  {
    if ops == [] {
      assert DistinctIds([]);
    } else {
      var before, op := ops[..|ops| - 1], ops[|ops| - 1];
      LifecycleHolds(before);
      match op
      case DoPush(page) => PushKeepsInv(Run(before), page);
      case DoPop => PopKeepsInv(Run(before));
      case DoPopAfter(matcher) => PopAfterKeepsInv(Run(before), matcher);
      case DoReset(newPages) => ResetKeepsInv(Run(before), newPages);
    }
  }

  // ---------------------------------------------------------------- which pages, in which order

  /** The pages with this ID, and those without it, in their order. */
  function With(ps: seq<Page>, id: string): seq<Page> {
    if ps == [] then [] else (if ps[0].id == id then [ps[0]] else []) + With(ps[1..], id)
  }

  function Others(ps: seq<Page>, id: string): seq<Page> {
    if ps == [] then [] else (if ps[0].id == id then [] else [ps[0]]) + Others(ps[1..], id)
  }

  /** How many pages lie at and below the topmost one that matches; all of them if none does. */
  function Kept(ps: seq<Page>, matcher: Page -> bool): (n: nat)
    requires exists p :: p in ps && matcher(p)
    ensures 0 < n <= |ps|
  {
    if matcher(Top(ps)) then
      |ps|
    else
      assert ps == ps[..|ps| - 1] + [Top(ps)];
      Kept(ps[..|ps| - 1], matcher)
  }

  predicate Found(ps: seq<Page>, matcher: Page -> bool) {
    exists p :: p in ps && matcher(p)
  }

  function PagesAfter(ps: seq<Page>, op: Op): seq<Page> {
    match op
    case DoPush(page) => if ps != [] && Top(ps).id == page.id then ps else Others(ps, page.id) + [page]
    case DoPop => if ps == [] then [] else ps[..|ps| - 1]
    case DoPopAfter(matcher) => if Found(ps, matcher) then ps[..Kept(ps, matcher)] else ps
    case DoReset(newPages) => newPages
  }

  /** The pages that are navigated from, in order. */
  function Departing(ps: seq<Page>, op: Op): seq<Page> {
    match op
    case DoPush(page) =>
      if ps == [] then [] else if Top(ps).id == page.id then [] else [Top(ps)] + With(ps, page.id)
    case DoPop => if ps == [] then [] else [Top(ps)]
    case DoPopAfter(matcher) => if Found(ps, matcher) then ps[Kept(ps, matcher)..] else []
    case DoReset(_) => ps
  }

  /** The page that is navigated to, if any. */
  function Arriving(ps: seq<Page>, op: Op): seq<Page> {
    var changes := match op
                   case DoPush(page) => ps == [] || Top(ps).id != page.id
                   case DoPop => ps != []
                   case DoPopAfter(matcher) => Found(ps, matcher)
                   case DoReset(_) => true;
    if changes && PagesAfter(ps, op) != [] then [Top(PagesAfter(ps, op))] else []
  }

  /** The page that is attached to the navigator, just before it is navigated to. */
  function Attaching(ps: seq<Page>, op: Op): seq<Page> {
    if op.DoPush? then Arriving(ps, op) else []
  }

  datatype Kind = From | To | Attach

  function Calls(ps: seq<Page>, op: Op, kind: Kind): seq<Page> {
    match kind
    case From => Departing(ps, op)
    case To => Arriving(ps, op)
    case Attach => Attaching(ps, op)
  }

  predicate IsKind(e: Event, kind: Kind) {
    match kind
    case From => e.NavigatedFrom?
    case To => e.NavigatedTo?
    case Attach => e.Attached?
  }

  /** The pages of the callbacks of one kind, in order. */
  function Called(log: seq<Event>, kind: Kind): seq<Page> {
    if log == [] then []
    else Called(log[..|log| - 1], kind) + (if IsKind(log[|log| - 1], kind) then [log[|log| - 1].page] else [])
  }

  lemma {:induction false} CalledConcat(a: seq<Event>, b: seq<Event>, kind: Kind)
    ensures Called(a + b, kind) == Called(a, kind) + Called(b, kind)
    decreases |b|
  {
    if b == [] {
      assert a + b == a;
    } else {
      assert (a + b)[..|a + b| - 1] == a + b[..|b| - 1];
      CalledConcat(a, b[..|b| - 1], kind);
    }
  }

  lemma CalledOne(e: Event, kind: Kind)
    ensures Called([e], kind) == if IsKind(e, kind) then [e.page] else []
  {
    assert [e][..0] == [];
  }

  lemma CalledLeave(p: Page, kind: Kind)
    ensures Called(Leave(p), kind) == if kind == From then [p] else []
  {
    CalledOne(NavigatedFrom(p), kind);
    CalledOne(Closed(p), kind);
    CalledConcat([NavigatedFrom(p)], if p.closable then [Closed(p)] else [], kind);
  }

  lemma {:induction false} CalledLeaveAll(ps: seq<Page>, kind: Kind)
    ensures Called(LeaveAll(ps), kind) == if kind == From then ps else []
  {
    hide Called, Leave;
    if ps == [] {
      CalledNothing(kind);
    } else {
      var rest := ps[..|ps| - 1];
      CalledLeaveAll(rest, kind);
      CalledLeave(Top(ps), kind);
      LeaveAllSnoc(ps);
      CalledConcat(LeaveAll(rest), Leave(Top(ps)), kind);
      assert ps == rest + [Top(ps)];
    }
  }

  lemma LeaveAllSnoc(ps: seq<Page>)
    requires ps != []
    ensures LeaveAll(ps) == LeaveAll(ps[..|ps| - 1]) + Leave(Top(ps))
  {
  }

  lemma CalledNothing(kind: Kind)
    ensures Called([], kind) == []
  {
  }

  lemma {:induction false} CalledEnterAll(ps: seq<Page>, kind: Kind)
    ensures Called(EnterAll(ps), kind) == []
  {
    if ps != [] {
      CalledEnterAll(ps[..|ps| - 1], kind);
      CalledOne(Entered(Top(ps)), kind);
      CalledConcat(EnterAll(ps[..|ps| - 1]), [Entered(Top(ps))], kind);
    }
  }

  lemma {:induction false} OthersIsWithout(ps: seq<Page>, id: string)
    requires DistinctIds(ps)
    ensures var i := IndexOf(ps, id);
            Without(ps, i) == Others(ps, id) && With(ps, id) == if i < |ps| then [ps[i]] else []
  {
    hide With, Others, IndexOf, DistinctIds;
    if ps == [] {
      NoneWith(ps, id);
    } else {
      var rest := ps[1..];
      ConsIsDistinct(ps);
      FilterCons(ps, id);
      if ps[0].id == id {
        NoneWith(rest, id);
        WithoutFirst(ps);
      } else {
        OthersIsWithout(rest, id);
        WithoutCons(ps, IndexOf(rest, id));
      }
    }
  }

  lemma ConsIsDistinct(ps: seq<Page>)
    requires ps != [] && DistinctIds(ps)
    ensures DistinctIds(ps[1..]) && forall j :: 0 <= j < |ps[1..]| ==> ps[1..][j].id != ps[0].id
  {
  }

  lemma FilterCons(ps: seq<Page>, id: string)
    requires ps != []
    ensures if ps[0].id == id then
              && With(ps, id) == [ps[0]] + With(ps[1..], id) && Others(ps, id) == Others(ps[1..], id)
              && IndexOf(ps, id) == 0
            else
              && With(ps, id) == With(ps[1..], id) && Others(ps, id) == [ps[0]] + Others(ps[1..], id)
              && IndexOf(ps, id) == 1 + IndexOf(ps[1..], id)
  {
  }

  lemma WithoutFirst(ps: seq<Page>)
    requires ps != []
    ensures Without(ps, 0) == ps[1..]
  {
  }

  lemma WithoutCons(ps: seq<Page>, i: nat)
    requires ps != [] && i <= |ps[1..]|
    ensures Without(ps, 1 + i) == [ps[0]] + Without(ps[1..], i)
  {
    assert ps == [ps[0]] + ps[1..];
  }

  lemma {:induction false} NoneWith(ps: seq<Page>, id: string)
    requires forall j :: 0 <= j < |ps| ==> ps[j].id != id
    ensures Others(ps, id) == ps && With(ps, id) == []
  {
    if ps != [] {
      NoneWith(ps[1..], id);
    }
  }

  lemma {:induction false} KeptIsLastMatch(ps: seq<Page>, matcher: Page -> bool)
    ensures LastMatch(ps, matcher) == if Found(ps, matcher) then Kept(ps, matcher) - 1 else -1
  {
    if ps != [] {
      var rest := ps[..|ps| - 1];
      assert ps == rest + [Top(ps)];
      KeptIsLastMatch(rest, matcher);
      assert Found(ps, matcher) <==> matcher(Top(ps)) || Found(rest, matcher);
    }
  }

  /** Every operation leaves the pages in this order, and makes the callbacks of each kind on these pages, in this
      order. */
  lemma CallbacksInOrder(s: Stack, op: Op, kind: Kind)
    requires DistinctIds(s.pages)
    ensures Apply(s, op).pages == PagesAfter(s.pages, op)
    ensures Called(Apply(s, op).log, kind)
         == Called(s.log, kind) + Calls(s.pages, op, kind)
  {
    match op
    case DoPush(page) => PushCallbacks(s, page, kind);
    case DoPop => PopCallbacks(s, kind);
    case DoPopAfter(matcher) => PopAfterCallbacks(s, matcher, kind);
    case DoReset(newPages) => ResetCallbacks(s, newPages, kind);
  }

  /** Some events and then the new top's navigation. */
  lemma CalledAppended(s: Stack, tail: seq<Event>, pages: seq<Page>, kind: Kind)
    ensures Called(Appended(s, tail, pages).log, kind)
         == Called(s.log, kind) + (Called(tail, kind) + if pages != [] && kind == To then [Top(pages)] else [])
  {
    var shown := if pages != [] then [NavigatedTo(Top(pages))] else [];
    CalledConcat(s.log + tail, shown, kind);
    CalledConcat(s.log, tail, kind);
    CalledNothing(kind);
    if pages != [] {
      CalledOne(NavigatedTo(Top(pages)), kind);
    }
    hide Called;
    Associative(Called(s.log, kind), Called(tail, kind), Called(shown, kind));
  }

  lemma PushCallbacks(s: Stack, p: Page, kind: Kind)
    requires DistinctIds(s.pages)
    ensures Push(s, p).pages == PagesAfter(s.pages, DoPush(p))
    ensures Called(Push(s, p).log, kind)
         == Called(s.log, kind) + Calls(s.pages, DoPush(p), kind)
  {
    hide Called, PushTail, With, Others, Without;
    if s.pages == [] || Top(s.pages).id != p.id {
      OthersIsWithout(s.pages, p.id);
      PushIsAppended(s, p);
      CalledAppended(s, PushTail(s, p), Others(s.pages, p.id) + [p], kind);
      PushTailCalls(s, p, kind);
    }
  }

  /** A new page is attached and then at once shown. */
  lemma AttachedThenShown(s: Stack, p: Page)
    requires s.pages == [] || Top(s.pages).id != p.id
    ensures var log := Push(s, p).log;
            |log| >= 2 && log[|log| - 2..] == [Attached(p), NavigatedTo(p)]
  {
  }

  lemma PushTailCalls(s: Stack, p: Page, kind: Kind)
    requires DistinctIds(s.pages) && (s.pages == [] || Top(s.pages).id != p.id)
    ensures Called(PushTail(s, p), kind) == if kind == To then [] else Calls(s.pages, DoPush(p), kind)
  {
    hide Called, Leave, With, Others, Without, IndexOf;
    var i := IndexOf(s.pages, p.id);
    var hidden := if s.pages != [] then [NavigatedFrom(Top(s.pages))] else [];
    var replaced := if i < |s.pages| then Leave(s.pages[i]) else [];
    assert PushTail(s, p) == hidden + replaced + [Entered(p), Attached(p)];
    hide PushTail;
    OthersIsWithout(s.pages, p.id);
    CalledConcat(hidden + replaced, [Entered(p), Attached(p)], kind);
    CalledConcat(hidden, replaced, kind);
    CalledNothing(kind);
    assert [Entered(p), Attached(p)] == [Entered(p)] + [Attached(p)];
    CalledConcat([Entered(p)], [Attached(p)], kind);
    CalledOne(Entered(p), kind);
    CalledOne(Attached(p), kind);
    if s.pages != [] {
      CalledOne(NavigatedFrom(Top(s.pages)), kind);
    } else {
      NoneWith(s.pages, p.id);
    }
    if i < |s.pages| {
      CalledLeave(s.pages[i], kind);
    }
  }

  lemma PopCallbacks(s: Stack, kind: Kind)
    ensures Pop(s).pages == PagesAfter(s.pages, DoPop)
    ensures Called(Pop(s).log, kind)
         == Called(s.log, kind) + Calls(s.pages, DoPop, kind)
  {
    hide Called, Leave;
    if s.pages != [] {
      CalledLeave(Top(s.pages), kind);
      CalledAppended(s, Leave(Top(s.pages)), s.pages[..|s.pages| - 1], kind);
    }
  }

  lemma PopAfterCallbacks(s: Stack, matcher: Page -> bool, kind: Kind)
    ensures PopAfter(s, matcher).pages == PagesAfter(s.pages, DoPopAfter(matcher))
    ensures Called(PopAfter(s, matcher).log, kind)
         == Called(s.log, kind) + Calls(s.pages, DoPopAfter(matcher), kind)
  {
    hide Called, LeaveAll, PopAfter, Kept, LastMatch, Found;
    KeptIsLastMatch(s.pages, matcher);
    PopAfterIsAppended(s, matcher);
    if Found(s.pages, matcher) {
      var n := Kept(s.pages, matcher);
      CalledLeaveAll(s.pages[n..], kind);
      CalledAppended(s, LeaveAll(s.pages[n..]), s.pages[..n], kind);
    }
  }

  lemma ResetCallbacks(s: Stack, newPages: seq<Page>, kind: Kind)
    ensures Reset(s, newPages).pages == PagesAfter(s.pages, DoReset(newPages))
    ensures Called(Reset(s, newPages).log, kind)
         == Called(s.log, kind) + Calls(s.pages, DoReset(newPages), kind)
  {
    hide Called, LeaveAll, EnterAll;
    var tail := LeaveAll(s.pages) + EnterAll(newPages);
    CalledLeaveAll(s.pages, kind);
    CalledEnterAll(newPages, kind);
    CalledConcat(LeaveAll(s.pages), EnterAll(newPages), kind);
    CalledAppended(s, tail, newPages, kind);
    assert Reset(s, newPages) == Appended(s, tail, newPages);
  }

  // ---------------------------------------------------------------- the object

  class PageStack {
    var pages: seq<Page>
    /** The callbacks made so far. */
    var log: seq<Event>

    ghost function State(): Stack
      reads this
    {
      Stack(pages, log)
    }

    constructor ()
      ensures State() == Stack([], [])
    {
      pages, log := [], [];
    }

    /** OnNavigatedFrom, and OnClosed if the page has it. */
    method Dismiss(p: Page)
      modifies this`log
      ensures log == old(log) + Leave(p)
    {
      log := log + [NavigatedFrom(p)];
      if p.closable {
        log := log + [Closed(p)];
      }
    }

    method PushAndNavigate(newPage: Page) returns (pushed: bool)
      modifies this
      ensures State() == Push(old(State()), newPage)
      ensures pushed <==> old(pages) == [] || Top(old(pages)).id != newPage.id
    {
      hide Leave, IndexOf;
      ghost var before := pages;
      if |pages| > 0 {
        var currentPage := pages[|pages| - 1];
        if currentPage.id == newPage.id {
          return false;
        }
        log := log + [NavigatedFrom(currentPage)];
      }
      ghost var hidden := log;
      var i := 0;
      while i < |pages|
        invariant i <= |pages| && pages == before && log == hidden
        invariant forall j :: 0 <= j < i ==> pages[j].id != newPage.id
      {
        if pages[i].id == newPage.id {
          Dismiss(pages[i]);
          pages := pages[..i] + pages[i + 1..];
          break;
        }
        i := i + 1;
      }
      assert i == IndexOf(before, newPage.id);
      pages := pages + [newPage];
      log := log + [Entered(newPage)] + [Attached(newPage)] + [NavigatedTo(newPage)];
      pushed := true;
    }

    method PopPage() returns (popped: bool)
      modifies this
      ensures State() == Pop(old(State())) && (popped <==> old(pages) != [])
    {
      var l := |pages|;
      if l == 0 {
        return false;
      }
      Dismiss(pages[l - 1]);
      pages := pages[..l - 1];
      if l > 1 {
        log := log + [NavigatedTo(pages[l - 2])];
      }
      popped := true;
    }

    method PopPagesAfter(matcher: Page -> bool) returns (found: bool)
      modifies this
      ensures State() == PopAfter(old(State()), matcher)
      ensures found <==> exists p :: p in old(pages) && matcher(p)
    {
      hide LastMatch, LeaveAll;
      var retain := -1;
      var i := |pages| - 1;
      while i >= 0
        invariant -1 <= i < |pages|
        invariant forall j :: i < j < |pages| ==> !matcher(pages[j])
      {
        if matcher(pages[i]) {
          retain := i;
          break;
        }
        i := i - 1;
      }
      LastMatchIs(pages, matcher, retain);
      if retain == -1 {
        return false;
      }
      DismissAll(pages[retain + 1..]);
      pages := pages[..retain + 1];
      log := log + [NavigatedTo(pages[retain])];
      found := true;
    }

    method DismissAll(ps: seq<Page>)
      modifies this`log
      ensures log == old(log) + LeaveAll(ps)
    {
      var i := 0;
      while i < |ps|
        invariant i <= |ps| && log == old(log) + LeaveAll(ps[..i])
      {
        assert ps[..i + 1][..i] == ps[..i];
        Dismiss(ps[i]);
        i := i + 1;
      }
      assert ps[..i] == ps;
    }

    method ResetPages(newPages: seq<Page>)
      modifies this
      ensures State() == Reset(old(State()), newPages)
    {
      DismissAll(pages);
      pages := newPages;
      log := log + EnterAll(newPages);
      if |newPages| > 0 {
        log := log + [NavigatedTo(pages[|newPages| - 1])];
      }
    }
  }

  lemma {:induction false} LastMatchIs(ps: seq<Page>, matcher: Page -> bool, i: int)
    requires -1 <= i < |ps| && (i >= 0 ==> matcher(ps[i]))
    requires forall j :: i < j < |ps| ==> !matcher(ps[j])
    ensures i == LastMatch(ps, matcher)
    ensures i != -1 <==> exists p :: p in ps && matcher(p)
  {
  }
}
