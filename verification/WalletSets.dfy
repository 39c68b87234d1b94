/** The live and the bad wallets of libwallet/assets_manager.go. */
module WalletSets {
  import opened Wrappers

  /** A wallet record; `dcr` says that it is of the only asset type still supported. */
  datatype Wallet = Wallet(id: nat, watchOnly: bool, dcr: bool)

  datatype Error = SyncInProgress | WrongPassphrase | NotExist | Failed

  datatype Sets = Sets(live: map<nat, Wallet>, bad: map<nat, Wallet>) {
    /** Both maps are keyed by wallet ID. */
    ghost predicate Keyed() {
      (forall k :: k in live ==> live[k].id == k) && (forall k :: k in bad ==> bad[k].id == k)
    }

    ghost predicate Disjoint() {
      live.Keys !! bad.Keys
    }

    function Ids(): set<nat> {
      live.Keys + bad.Keys
    }
  }

  // ---------------------------------------------------------------- what the operations do

  /** One stored record is loaded: anything that fails, or is of another type, is bad. */
  function Load(s: Sets, w: Wallet, ok: bool): Sets {
    if w.dcr && ok then s.(live := s.live[w.id := w]) else s.(bad := s.bad[w.id := w])
  }

  function LoadAll(s: Sets, ws: seq<Wallet>, loads: Wallet -> bool): Sets {
    if ws == [] then s else Load(LoadAll(s, ws[..|ws| - 1], loads), ws[|ws| - 1], loads(ws[|ws| - 1]))
  }

  function Add(s: Sets, w: Wallet): Sets {
    s.(live := s.live[w.id := w])
  }

  /** Of the visited wallets, those that refuse to open become bad. */
  predicate TurnsBad(w: Wallet, opens: Wallet -> bool, visited: set<nat>) {
    w.id in visited && w.dcr && !opens(w)
  }

  function StillLive(s: Sets, opens: Wallet -> bool, visited: set<nat>): map<nat, Wallet> {
    map k | k in s.live && !TurnsBad(s.live[k], opens, visited) :: s.live[k]
  }

  function Open(s: Sets, opens: Wallet -> bool, visited: set<nat>): Sets {
    Sets(StillLive(s, opens, visited), s.bad + (s.live - StillLive(s, opens, visited).Keys))
  }

  function Delete(s: Sets, id: nat, ok: bool): Sets {
    if id in s.live && ok && s.live[id].dcr then s.(live := s.live - {id}) else s
  }

  function DeleteBad(s: Sets, id: nat, ok: bool): Sets {
    if id in s.bad && ok && s.bad[id].dcr then s.(bad := s.bad - {id}) else s
  }

  // ---------------------------------------------------------------- the order of the live wallets

  /** Watch-only wallets come last; otherwise IDs decide. */
  predicate Before(a: Wallet, b: Wallet) {
    if a.watchOnly == b.watchOnly then a.id < b.id else b.watchOnly
  }

  ghost predicate Ordered(l: seq<Wallet>) {
    forall i, j :: 0 <= i < j < |l| ==> Before(l[i], l[j])
  }

  predicate IsLive(w: Wallet, live: map<nat, Wallet>) {
    w.id in live && live[w.id] == w
  }

  /** `l` holds each live wallet, once, in order. */
  ghost predicate Lists(l: seq<Wallet>, live: map<nat, Wallet>) {
    Ordered(l) && forall w :: w in l <==> IsLive(w, live)
  }

  lemma {:induction false} OrderedIsUnique(a: seq<Wallet>, b: seq<Wallet>)
    requires Ordered(a) && Ordered(b) && (forall w :: w in a <==> w in b)
    ensures a == b
  {
    assert b == [] || b[0] in b;
    if a != [] {
      assert a[0] in a && b[0] in b && b[0] in a && a[0] in b;
      assert a[0] == b[0];
      forall w
        ensures w in a[1..] <==> w in b[1..]
      {
        if w in a[1..] {
          assert w in a && w in b && Before(a[0], w);
        }
        if w in b[1..] {
          assert w in b && w in a && Before(b[0], w);
        }
      }
      OrderedIsUnique(a[1..], b[1..]);
    }
  }

  /** Whatever the order in which the map is ranged over, the list is the same. */
  lemma ListIsUnique(a: seq<Wallet>, b: seq<Wallet>, live: map<nat, Wallet>)
    requires Lists(a, live) && Lists(b, live)
    ensures a == b
  {
    OrderedIsUnique(a, b);
  }

  /** In that list watch-only wallets come after all others, and each kind is in ascending order of ID. */
  lemma ListOrder(l: seq<Wallet>, live: map<nat, Wallet>)
    requires Lists(l, live)
    ensures forall i, j :: 0 <= i < j < |l| ==>
              (l[i].watchOnly ==> l[j].watchOnly) && (l[i].watchOnly == l[j].watchOnly ==> l[i].id < l[j].id)
    ensures forall k :: k in live && live[k].id == k ==> live[k] in l
  {
    forall i, j | 0 <= i < j < |l|
      ensures (l[i].watchOnly ==> l[j].watchOnly) && (l[i].watchOnly == l[j].watchOnly ==> l[i].id < l[j].id)
    {
      assert Before(l[i], l[j]);
    }
  }

  // ---------------------------------------------------------------- conservation

  /** Loading the stored records makes each of them live or bad. */
  lemma {:induction false} LoadAllSplits(ws: seq<Wallet>, loads: Wallet -> bool)
    ensures var s := LoadAll(Sets(map[], map[]), ws, loads);
            && s.Keyed()
            && (forall k :: k in s.live <==> exists i :: 0 <= i < |ws| && ws[i].id == k && ws[i].dcr && loads(ws[i]))
            && (forall k :: k in s.bad <==> exists i :: 0 <= i < |ws| && ws[i].id == k && !(ws[i].dcr && loads(ws[i])))
  {
    if ws != [] {
      var before := ws[..|ws| - 1];
      LoadAllSplits(before, loads);
      assert forall i :: 0 <= i < |before| ==> before[i] == ws[i];
    }
  }

  /** The two sets are disjoint exactly when no ID is loaded both ways. */
  lemma LoadAllIsDisjoint(ws: seq<Wallet>, loads: Wallet -> bool)
    ensures LoadAll(Sets(map[], map[]), ws, loads).Disjoint()
       <==> forall i, j :: 0 <= i < |ws| && 0 <= j < |ws| && ws[i].id == ws[j].id ==>
              (ws[i].dcr && loads(ws[i]) <==> ws[j].dcr && loads(ws[j]))
  {
    var s := LoadAll(Sets(map[], map[]), ws, loads);
    LoadAllSplits(ws, loads);
    forall i, j | 0 <= i < |ws| && 0 <= j < |ws| && ws[i].id == ws[j].id
      ensures s.Disjoint() ==> (ws[i].dcr && loads(ws[i]) ==> ws[j].dcr && loads(ws[j]))
    {
      assert ws[i].dcr && loads(ws[i]) ==> ws[i].id in s.live;
      assert !(ws[j].dcr && loads(ws[j])) ==> ws[j].id in s.bad;
    }
  }

  /** Opening moves wallets from one set to the other and loses none: a wallet stays live exactly when it
      is not one of the visited ones that refuse to open. */
  lemma OpenConserves(s: Sets, opens: Wallet -> bool, visited: set<nat>)
    requires s.Keyed() && s.Disjoint()
    ensures var s' := Open(s, opens, visited);
            && s'.Keyed() && s'.Disjoint() && s'.Ids() == s.Ids()
            && (forall k :: k in s.live ==> (k in s'.live <==> !TurnsBad(s.live[k], opens, visited)))
            && (forall k :: k in s.live ==> (if k in s'.live then s'.live else s'.bad)[k] == s.live[k])
            && (forall k :: k in s.bad ==> k in s'.bad && s'.bad[k] == s.bad[k])
  {
  }

  lemma StillLiveOneMore(s: Sets, opens: Wallet -> bool, visited: set<nat>, w: Wallet)
    requires s.Keyed() && IsLive(w, s.live) && w.id !in visited
    ensures StillLive(s, opens, visited + {w.id})
         == if !w.dcr || opens(w) then StillLive(s, opens, visited) else StillLive(s, opens, visited) - {w.id}
    ensures w.id in StillLive(s, opens, visited)
  {
    var more := visited + {w.id};
    forall k | k in s.live
      ensures TurnsBad(s.live[k], opens, more) <==>
                TurnsBad(s.live[k], opens, visited) || (k == w.id && w.dcr && !opens(w))
    {
    }
  }

  lemma OpenOneMore(s: Sets, opens: Wallet -> bool, visited: set<nat>, w: Wallet)
    requires s.Keyed() && IsLive(w, s.live) && w.id !in visited
    ensures Open(s, opens, visited + {w.id})
         == if !w.dcr || opens(w) then Open(s, opens, visited)
            else Sets(Open(s, opens, visited).live - {w.id}, Open(s, opens, visited).bad[w.id := w])
  {
    StillLiveOneMore(s, opens, visited, w);
    hide StillLive;
    var still := StillLive(s, opens, visited);
    if w.dcr && !opens(w) {
      assert s.bad + (s.live - (still - {w.id}).Keys) == (s.bad + (s.live - still.Keys))[w.id := w];
    }
  }

  lemma OpenNone(s: Sets, opens: Wallet -> bool)
    ensures Open(s, opens, {}) == s
  {
    forall k | k in s.live
      ensures !TurnsBad(s.live[k], opens, {})
    {
    }
    assert StillLive(s, opens, {}) == s.live;
    hide StillLive;
    assert s.bad + (s.live - s.live.Keys) == s.bad;
  }

  datatype Op =
    | DoLoad(wallet: Wallet, ok: bool)
    | DoAdd(wallet: Wallet)
    | DoOpen(opens: Wallet -> bool, visited: set<nat>)
    | DoDelete(id: nat, ok: bool)
    | DoDeleteBad(id: nat, ok: bool)

  function Step(s: Sets, op: Op): Sets {
    match op
    case DoLoad(wallet, ok) => Load(s, wallet, ok)
    case DoAdd(wallet) => Add(s, wallet)
    case DoOpen(opens, visited) => Open(s, opens, visited)
    case DoDelete(id, ok) => Delete(s, id, ok)
    case DoDeleteBad(id, ok) => DeleteBad(s, id, ok)
  }

  function Run(ops: seq<Op>): Sets {
    if ops == [] then Sets(map[], map[]) else Step(Run(ops[..|ops| - 1]), ops[|ops| - 1])
  }

  /** Every wallet loaded or added comes with an ID that is not in use. */
  ghost predicate FreshIds(ops: seq<Op>) {
    ops == [] || (
      var before, op := ops[..|ops| - 1], ops[|ops| - 1];
      FreshIds(before) && (op.DoLoad? || op.DoAdd? ==> op.wallet.id !in Run(before).Ids()))
  }

  /** Every wallet loaded or added comes with an ID that is not in use on the other side. */
  ghost predicate Apart(ops: seq<Op>) {
    ops == [] || (
      var before, op := ops[..|ops| - 1], ops[|ops| - 1];
      Apart(before) && ComesApart(Run(before), op))
  }

  predicate ComesApart(s: Sets, op: Op) {
    match op
    case DoLoad(wallet, ok) => wallet.id !in if wallet.dcr && ok then s.bad else s.live
    case DoAdd(wallet) => wallet.id !in s.bad
    case _ => true
  }

  lemma {:induction false} RunIsKeyed(ops: seq<Op>)
    ensures Run(ops).Keyed()
  {
    if ops != [] {
      RunIsKeyed(ops[..|ops| - 1]);
    }
  }

  lemma StepKeepsDisjoint(s: Sets, op: Op)
    requires s.Keyed() && s.Disjoint()
    ensures Step(s, op).Disjoint() <==> ComesApart(s, op)
  {
    match op
    case DoLoad(wallet, ok) =>
      assert wallet.id in if wallet.dcr && ok then Step(s, op).live else Step(s, op).bad;
    case DoAdd(wallet) =>
      assert wallet.id in Step(s, op).live;
    case DoOpen(opens, visited) =>
      OpenConserves(s, opens, visited);
    case _ =>
  }

  /** At no point of a run is a wallet both live and bad, exactly when the IDs come apart. */
  lemma {:induction false} RunKeepsDisjoint(ops: seq<Op>)
    ensures (forall n :: 0 <= n <= |ops| ==> Run(ops[..n]).Disjoint()) <==> Apart(ops)
  {
    assert ops[..|ops|] == ops;
    if ops != [] {
      var before, op := ops[..|ops| - 1], ops[|ops| - 1];
      RunKeepsDisjoint(before);
      RunIsKeyed(before);
      assert forall n :: 0 <= n <= |before| ==> before[..n] == ops[..n];
      hide Run, Step;
      if Apart(before) {
        assert Run(before[..|before|]).Disjoint();
        StepKeepsDisjoint(Run(before), op);
      }
    }
  }

  lemma {:induction false} FreshIdsAreApart(ops: seq<Op>)
    requires FreshIds(ops)
    ensures Apart(ops)
  {
    if ops != [] {
      FreshIdsAreApart(ops[..|ops| - 1]);
    }
  }

  /** A wallet that is added under the ID of a bad one is both. */
  lemma AddKeepsDisjoint(s: Sets, w: Wallet)
    requires s.Disjoint()
    ensures Add(s, w).Disjoint() <==> w.id !in s.bad
  {
    assert w.id in Add(s, w).live;
  }

  /** Deleting a bad wallet takes it off the list exactly when it is of the supported type: others stay
      listed although their record is gone. */
  lemma DeleteBadRemoves(s: Sets, id: nat)
    requires id in s.bad
    ensures id !in DeleteBad(s, id, true).bad <==> s.bad[id].dcr
    ensures DeleteBad(s, id, true).live == s.live
  {
  }

  /** A live wallet of the supported type is gone exactly when its deletion succeeds; nothing else changes. */
  lemma DeleteRemoves(s: Sets, id: nat, ok: bool)
    requires id in s.live
    ensures id !in Delete(s, id, ok).live <==> ok && s.live[id].dcr
    ensures Delete(s, id, ok).live - {id} == s.live - {id} && Delete(s, id, ok).bad == s.bad
  {
  }

  // ---------------------------------------------------------------- the life of one wallet

  datatype Status = Unknown | Live(wallet: Wallet) | Bad(wallet: Wallet)

  /** What one operation does to the wallet with a given ID. */
  function After(st: Status, id: nat, op: Op): Status {
    match op
    case DoLoad(wallet, ok) => if wallet.id != id then st else if wallet.dcr && ok then Live(wallet) else Bad(wallet)
    case DoAdd(wallet) => if wallet.id == id then Live(wallet) else st
    case DoOpen(opens, visited) =>
      if st.Live? && id in visited && st.wallet.dcr && !opens(st.wallet) then Bad(st.wallet) else st
    case DoDelete(deleted, ok) => if st.Live? && deleted == id && ok && st.wallet.dcr then Unknown else st
    case DoDeleteBad(deleted, ok) => if st.Bad? && deleted == id && ok && st.wallet.dcr then Unknown else st
  }

  function Life(id: nat, ops: seq<Op>): Status {
    if ops == [] then Unknown else After(Life(id, ops[..|ops| - 1]), id, ops[|ops| - 1])
  }

  function StatusIn(s: Sets, id: nat): Status {
    if id in s.live then Live(s.live[id]) else if id in s.bad then Bad(s.bad[id]) else Unknown
  }

  /** Over any run the two sets hold exactly what each wallet's own life comes to. */
  lemma {:induction false} RunIsLives(ops: seq<Op>, id: nat)
    requires Apart(ops)
    ensures StatusIn(Run(ops), id) == Life(id, ops)
  {
    if ops != [] {
      var before, op := ops[..|ops| - 1], ops[|ops| - 1];
      RunIsLives(before, id);
      RunIsKeyed(before);
      RunKeepsDisjoint(before);
      assert Run(before[..|before|]).Disjoint() && before[..|before|] == before;
      StepIsLife(Run(before), op, id);
    }
  }

  lemma StepIsLife(s: Sets, op: Op, id: nat)
    requires s.Keyed() && s.Disjoint() && ComesApart(s, op)
    ensures StatusIn(Step(s, op), id) == After(StatusIn(s, id), id, op)
  {
    if op.DoOpen? {
      OpenConserves(s, op.opens, op.visited);
    }
  }

  /** A record of a type no longer supported is on the list of bad wallets for good: no deletion, and nothing
      else but another record under its ID, takes it off. */
  lemma {:induction false} UnsupportedStaysBad(ops: seq<Op>, i: nat)
    requires Apart(ops) && i < |ops| && ops[i].DoLoad? && !ops[i].wallet.dcr
    requires forall j :: i < j < |ops| && ops[j].DoLoad? ==> ops[j].wallet.id != ops[i].wallet.id
    ensures var w := ops[i].wallet;
            w.id in Run(ops).bad && Run(ops).bad[w.id] == w
  {
    if i < |ops| - 1 {
      var before, op := ops[..|ops| - 1], ops[|ops| - 1];
      UnsupportedStaysBad(before, i);
      if op.DoOpen? {
        RunIsKeyed(before);
        RunKeepsDisjoint(before);
        assert Run(before[..|before|]).Disjoint() && before[..|before|] == before;
        OpenConserves(Run(before), op.opens, op.visited);
      }
    }
  }

  /** Such a record as the only one: it is still listed after its deletion as a bad wallet. */
  lemma UnsupportedIsNotRemoved(w: Wallet, ok: bool)
    requires !w.dcr
    ensures Run([DoLoad(w, ok)]).bad == Run([DoLoad(w, ok), DoDeleteBad(w.id, true)]).bad == map[w.id := w]
  {
    var load, delete := DoLoad(w, ok), DoDeleteBad(w.id, true);
    assert [load, delete][..1] == [load] && [load][..0] == [];
  }

  // ---------------------------------------------------------------- the manager

  class AssetsManager {
    var wallets: map<nat, Wallet>
    var badWallets: map<nat, Wallet>

    ghost function Value(): Sets
      reads this
    {
      Sets(wallets, badWallets)
    }

    constructor ()
      ensures Value() == Sets(map[], map[])
    {
      wallets, badWallets := map[], map[];
    }

    /** `loads` says which records of the supported type load without an error. */
    method PrepareExistingWallets(records: seq<Wallet>, loads: Wallet -> bool)
      modifies this
      ensures Value() == LoadAll(old(Value()), records, loads)
    {
      var i := 0;
      while i < |records|
        invariant i <= |records| && Value() == LoadAll(old(Value()), records[..i], loads)
      {
        assert records[..i + 1][..i] == records[..i];
        var wallet := records[i];
        if wallet.dcr {
          if loads(wallet) {
            AddWallet(wallet);
          } else {
            badWallets := badWallets[wallet.id := wallet];
          }
        } else {
          badWallets := badWallets[wallet.id := wallet];
        }
        i := i + 1;
      }
      assert records[..i] == records;
    }

    method AddWallet(wallet: Wallet)
      modifies this`wallets
      ensures Value() == Add(old(Value()), wallet)
    {
      wallets := wallets[wallet.id := wallet];
    }

    /** Ranging over the map yields the wallets in some order; watch-only ones go to the end. */
    method SortWallets() returns (l: seq<Wallet>)
      requires Value().Keyed()
      ensures Lists(l, wallets)
    {
      var normal: seq<Wallet>, watchOnly: seq<Wallet> := [], [];
      NoPart(wallets, false);
      NoPart(wallets, true);
      hide Part;
      var todo := wallets.Items;
      while todo != {}
        invariant todo <= wallets.Items
        invariant Part(normal, wallets, todo, false) && Part(watchOnly, wallets, todo, true)
        decreases |todo|
      {
        var entry :| entry in todo;
        var wallet := entry.1;
        PartStep(if wallet.watchOnly then watchOnly else normal, wallets, todo, wallet);
        PartSkip(if wallet.watchOnly then normal else watchOnly, wallets, todo, wallet);
        if wallet.watchOnly {
          watchOnly := watchOnly + [wallet];
        } else {
          normal := normal + [wallet];
        }
        todo := todo - {entry};
      }
      PartIsDistinct(normal, wallets, false);
      PartIsDistinct(watchOnly, wallets, true);
      var first := SortById(normal);
      var second := SortById(watchOnly);
      l := first + second;
      SortedParts(normal, watchOnly, first, second, wallets);
    }

    method MarkWalletBad(wallet: Wallet)
      modifies this
      ensures Value() == if wallet.dcr then Sets(old(wallets) - {wallet.id}, old(badWallets)[wallet.id := wallet])
                         else old(Value())
    {
      if !wallet.dcr {
        return;
      }
      badWallets := badWallets[wallet.id := wallet];
      wallets := wallets - {wallet.id};
    }

    /** Opens the live wallets in order until shut down, which is noticed before wallet number
        `shutdownAt`; `l` is the list it goes through. */
    method OpenWallets(syncing: Wallet -> bool, passphraseOk: bool, opens: Wallet -> bool, shutdownAt: nat)
      returns (error: Option<Error>, ghost l: seq<Wallet>)
      requires Value().Keyed()
      modifies this
      ensures Lists(l, old(wallets))
      ensures (exists w :: w in l && syncing(w)) ==> error == Some(SyncInProgress) && Value() == old(Value())
      ensures (forall w :: w in l ==> !syncing(w)) && !passphraseOk ==>
                error == Some(WrongPassphrase) && Value() == old(Value())
      ensures (forall w :: w in l ==> !syncing(w)) && passphraseOk ==>
                && Value() == Open(old(Value()), opens, IdsOf(l, if shutdownAt < |l| then shutdownAt else |l|))
                && error == if |l| <= shutdownAt && l != [] && (forall w :: w in l ==> !opens(w)) then Some(Failed)
                            else None
    {
      var all := SortWallets();
      l := all;
      var i := 0;
      while i < |all|
        invariant i <= |all| && forall j :: 0 <= j < i ==> !syncing(all[j])
      {
        if syncing(all[i]) {
          return Some(SyncInProgress), l;
        }
        i := i + 1;
      }
      if !passphraseOk {
        return Some(WrongPassphrase), l;
      }
      error := OpenEach(all, opens, shutdownAt);
    }

    /** The opening loop: a failure is parked among the bad wallets, and only a total failure reported. */
    method OpenEach(all: seq<Wallet>, opens: Wallet -> bool, shutdownAt: nat) returns (error: Option<Error>)
      requires Value().Keyed() && Lists(all, wallets)
      modifies this
      ensures Value() == Open(old(Value()), opens, IdsOf(all, if shutdownAt < |all| then shutdownAt else |all|))
      ensures error == if |all| <= shutdownAt && all != [] && (forall w :: w in all ==> !opens(w)) then Some(Failed)
                       else None
    {
      OpenNone(Value(), opens);
      hide Open, Lists, IsLive, IdsOf;
      var succeeded, failed := 0, 0;
      var i := 0;
      NoIds(all);
      while i < |all|
        invariant i <= |all| && i <= shutdownAt && Value() == Open(old(Value()), opens, IdsOf(all, i))
        invariant succeeded + failed == i && (succeeded == 0 <==> forall j :: 0 <= j < i ==> !opens(all[j]))
      {
        if i == shutdownAt {
          return None;
        }
        VisitNext(old(Value()), all, i);
        OpenOneMore(old(Value()), opens, IdsOf(all, i), all[i]);
        if opens(all[i]) {
          succeeded := succeeded + 1;
        } else {
          failed := failed + 1;
          MarkWalletBad(all[i]);
        }
        i := i + 1;
      }
      if succeeded == 0 && failed > 0 {
        return Some(Failed);
      }
      error := None;
    }

    /** `ok` says whether the wallet itself could be deleted. */
    method DeleteWallet(id: nat, ok: bool) returns (error: Option<Error>)
      modifies this`wallets
      ensures Value() == Delete(old(Value()), id, ok)
      ensures error == if id in old(wallets) && !ok then Some(Failed) else None
    {
      if id !in wallets {
        return None;
      }
      if !ok {
        return Some(Failed);
      }
      if wallets[id].dcr {
        wallets := wallets - {id};
      }
      error := None;
    }

    /** `ok` says whether the record could be deleted from the database. */
    method DeleteBadWallet(id: nat, ok: bool) returns (error: Option<Error>)
      modifies this`badWallets
      ensures Value() == DeleteBad(old(Value()), id, ok)
      ensures error == if id !in old(badWallets) then Some(NotExist) else if !ok then Some(Failed) else None
    {
      if id !in badWallets {
        return Some(NotExist);
      }
      if !ok {
        return Some(Failed);
      }
      if badWallets[id].dcr {
        badWallets := badWallets - {id};
      }
      error := None;
    }
  }

  // ---------------------------------------------------------------- the loops of the manager

  /** The IDs of the first `n` wallets of `l`. */
  function IdsOf(l: seq<Wallet>, n: nat): set<nat>
    requires n <= |l|
  {
    if n == 0 then {} else IdsOf(l, n - 1) + {l[n - 1].id}
  }

  lemma NoIds(l: seq<Wallet>)
    ensures IdsOf(l, 0) == {}
  {
  }

  lemma {:induction false} IdsOfHas(l: seq<Wallet>, n: nat, id: nat)
    requires n <= |l|
    ensures id in IdsOf(l, n) <==> exists i :: 0 <= i < n && l[i].id == id
  {
    if n > 0 {
      IdsOfHas(l, n - 1, id);
    }
  }

  lemma VisitNext(s: Sets, l: seq<Wallet>, i: nat)
    requires s.Keyed() && Lists(l, s.live) && i < |l|
    ensures IsLive(l[i], s.live) && l[i].id !in IdsOf(l, i)
    ensures IdsOf(l, i + 1) == IdsOf(l, i) + {l[i].id}
  {
    assert l[i] in l;
    IdsOfHas(l, i, l[i].id);
    if j :| 0 <= j < i && l[j].id == l[i].id {
      assert l[j] in l && Before(l[j], l[i]);
    }
  }

  /** `part` holds, once each, the live wallets of one kind that have been ranged over. */
  ghost predicate Part(part: seq<Wallet>, live: map<nat, Wallet>, todo: set<(nat, Wallet)>, watchOnly: bool) {
    && (forall w :: w in part <==> IsLive(w, live) && (w.id, w) !in todo && w.watchOnly == watchOnly)
    && DistinctIds(part)
  }

  predicate DistinctIds(l: seq<Wallet>) {
    forall i, j :: 0 <= i < j < |l| ==> l[i].id != l[j].id
  }

  lemma PartStep(part: seq<Wallet>, live: map<nat, Wallet>, todo: set<(nat, Wallet)>, w: Wallet)
    requires Part(part, live, todo, w.watchOnly) && IsLive(w, live) && (w.id, w) in todo
    ensures Part(part + [w], live, todo - {(w.id, w)}, w.watchOnly)
  {
    assert forall i :: 0 <= i < |part| ==> part[i] in part;
  }

  lemma NoPart(live: map<nat, Wallet>, watchOnly: bool)
    ensures Part([], live, live.Items, watchOnly)
  {
  }

  lemma PartIsDistinct(part: seq<Wallet>, live: map<nat, Wallet>, watchOnly: bool)
    requires Part(part, live, {}, watchOnly)
    ensures DistinctIds(part)
  {
  }

  lemma SortedParts(normal: seq<Wallet>, watchOnly: seq<Wallet>, first: seq<Wallet>, second: seq<Wallet>,
                    live: map<nat, Wallet>)
    requires Part(normal, live, {}, false) && Part(watchOnly, live, {}, true)
    requires Ascending(first) && (forall w :: w in first <==> w in normal)
    requires Ascending(second) && (forall w :: w in second <==> w in watchOnly)
    ensures Lists(first + second, live)
  {
    assert forall i :: 0 <= i < |first| ==> first[i] in first && !first[i].watchOnly;
    assert forall i :: 0 <= i < |second| ==> second[i] in second && second[i].watchOnly;
  }

  lemma PartSkip(part: seq<Wallet>, live: map<nat, Wallet>, todo: set<(nat, Wallet)>, w: Wallet)
    requires Part(part, live, todo, !w.watchOnly) && IsLive(w, live) && (w.id, w) in todo
    ensures Part(part, live, todo - {(w.id, w)}, !w.watchOnly)
  {
  }

  ghost predicate Ascending(l: seq<Wallet>) {
    forall i, j :: 0 <= i < j < |l| ==> l[i].id < l[j].id
  }

  /** sort.Slice by ID. */
  method SortById(s: seq<Wallet>) returns (l: seq<Wallet>)
    requires DistinctIds(s)
    ensures Ascending(l) && forall w :: w in l <==> w in s
  {
    l := [];
    var n := 0;
    while n < |s|
      invariant n <= |s| && Ascending(l) && forall w :: w in l <==> w in s[..n]
    {
      assert s[..n + 1] == s[..n] + [s[n]];
      NewId(s, n);
      l := Insert(l, s[n]);
      n := n + 1;
    }
    assert s[..n] == s;
  }

  lemma NewId(s: seq<Wallet>, n: nat)
    requires DistinctIds(s) && n < |s|
    ensures forall w :: w in s[..n] ==> w.id != s[n].id
  {
  }

  method Insert(l: seq<Wallet>, w: Wallet) returns (l': seq<Wallet>)
    requires Ascending(l) && forall v :: v in l ==> v.id != w.id
    ensures Ascending(l') && forall v :: v in l' <==> v in l || v == w
  {
    var i := |l|;
    while i > 0 && w.id < l[i - 1].id
      invariant 0 <= i <= |l| && forall j :: i <= j < |l| ==> w.id < l[j].id
    {
      i := i - 1;
    }
    l' := l[..i] + [w] + l[i..];
    InsertedIsAscending(l, w, i);
    InsertedHas(l, w, i);
  }

  lemma InsertedHas(l: seq<Wallet>, w: Wallet, i: nat)
    requires i <= |l|
    ensures forall v :: v in l[..i] + [w] + l[i..] <==> v in l || v == w
  {
    assert l == l[..i] + l[i..];
  }

  lemma InsertedIsAscending(l: seq<Wallet>, w: Wallet, i: nat)
    requires Ascending(l) && i <= |l| && forall v :: v in l ==> v.id != w.id
    requires (i > 0 ==> l[i - 1].id <= w.id) && forall j :: i <= j < |l| ==> w.id < l[j].id
    ensures Ascending(l[..i] + [w] + l[i..])
  {
    assert i > 0 ==> l[i - 1] in l;
    assert forall j :: 0 <= j < i ==> l[j].id < w.id;
  }
}
