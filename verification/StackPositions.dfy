/**
 Stacks as positions in the list: what restores do to a stack whose order is not that of the list, and
 what a removal as written then leaves behind.
 */
module StackPositions {
  import opened Words
  import opened CodeGen
  import opened Dispatch
  import opened PatchStack
  import opened Chain
  import opened Keeping
  import opened Removal
  import opened Undoing
  import opened Ownership
  import opened Distinctness
  import opened PatchOrder

  /** For each physical address the positions of the patches on it, from the first applied to the last. */
  type Order = Addr -> seq<nat>

  function At(es: seq<Entry>, q: seq<nat>): (r: seq<Entry>)
    requires IndicesOf(q, |es|)
    ensures |r| == |q| && forall t :: 0 <= t < |r| ==> r[t] == es[q[t]]
  {
    seq(|q|, t requires 0 <= t < |q| => es[q[t]])
  }

  /** `q` are exactly the entries patched at `p`, in the order in which they lie on each other. */
  ghost predicate StackedAt(s: State, w: World, q: seq<nat>, p: Addr) {
    && IndicesOf(q, |s.entries|) && Distinct(q)
    && (forall t :: 0 <= t < |q| ==> s.entries[q[t]].isPatched && s.entries[q[t]].phys == p)
    && (forall i: nat :: i < |s.entries| && s.entries[i].isPatched && s.entries[i].phys == p ==> i in q)
    && Linked(w.pristine(p), At(s.entries, q)) && s.mem(p) == Below(w.pristine(p), At(s.entries, q), |q|)
  }

  /** The order in which patches were applied, on every address. */
  ghost predicate Stacked(s: State, w: World, ord: Order) {
    Whole(s, w) && forall p :: p !in w.data ==> StackedAt(s, w, ord(p), p)
  }

  /** The same stacks, as entries. */
  ghost function StacksOf(s: State, w: World, ord: Order): Stacks
    requires Stacked(s, w, ord)
  {
    (p: Addr) => if p !in w.data && StackedAt(s, w, ord(p), p) then At(s.entries, ord(p)) else []
  }

  lemma StackedCarries(s: State, w: World, ord: Order)
    requires Stacked(s, w, ord)
    ensures Carries(s, w, StacksOf(s, w, ord))
    ensures forall p :: p !in w.data ==> IndicesOf(ord(p), |s.entries|) && StacksOf(s, w, ord)(p) == At(s.entries, ord(p))
  {
    hide Whole, Linked;
    forall p | p !in w.data
      ensures CarriesAt(s, w, StacksOf(s, w, ord)(p), p)
      ensures IndicesOf(ord(p), |s.entries|) && StacksOf(s, w, ord)(p) == At(s.entries, ord(p))
    {
      assert StackedAt(s, w, ord(p), p);
    }
  }

  // ----- chains in list order -----

  /** The positions below `n` of the entries patched at `p`, in list order. */
  function Listing(es: seq<Entry>, n: nat, p: Addr): (q: seq<nat>)
    requires n <= |es|
    ensures IndicesOf(q, n)
    decreases n
  {
    if n == 0 then [] else Listing(es, n - 1, p) + if es[n - 1].isPatched && es[n - 1].phys == p then [n - 1] else []
  }

  lemma ListingMeans(es: seq<Entry>, p: Addr)
    ensures var q := Listing(es, |es|, p);
            && At(es, q) == On(es, p) && Distinct(q)
            && (forall t :: 0 <= t < |q| ==> es[q[t]].isPatched && es[q[t]].phys == p)
            && (forall i: nat :: i < |es| && es[i].isPatched && es[i].phys == p ==> i in q)
  {
    hide Listing, On, Ascending, Distinct;
    ListingIsOn(es, |es|, p);
    assert es[..|es|] == es;
    ListingAscends(es, |es|, p);
    AscendingDistinct(Listing(es, |es|, p));
    forall i: nat
      ensures i in Listing(es, |es|, p) <==> i < |es| && es[i].isPatched && es[i].phys == p
    {
      ListingMember(es, |es|, p, i);
    }
    var q := Listing(es, |es|, p);
    assert forall t :: 0 <= t < |q| ==> q[t] in q;
  }

  lemma {:induction false} ListingIsOn(es: seq<Entry>, n: nat, p: Addr)
    requires n <= |es|
    ensures IndicesOf(Listing(es, n, p), |es|) && At(es, Listing(es, n, p)) == On(es[..n], p)
    decreases n
  {
    hide On;
    if n == 0 {
      OnEmpty(0, p);
      assert es[..0] == [];
    } else {
      ListingIsOn(es, n - 1, p);
      ListingStep(es, n, p);
    }
  }

  lemma ListingStep(es: seq<Entry>, n: nat, p: Addr)
    requires 0 < n <= |es|
    requires IndicesOf(Listing(es, n - 1, p), |es|) && At(es, Listing(es, n - 1, p)) == On(es[..n - 1], p)
    ensures IndicesOf(Listing(es, n, p), |es|) && At(es, Listing(es, n, p)) == On(es[..n], p)
  {
    var before := Listing(es, n - 1, p);
    var more := if es[n - 1].isPatched && es[n - 1].phys == p then [n - 1] else [];
    assert Listing(es, n, p) == before + more;
    hide Listing, On;
    OnSnoc(es, n, p);
    AtSnoc(es, before, n - 1);
  }

  lemma AtSnoc(es: seq<Entry>, q: seq<nat>, i: nat)
    requires IndicesOf(q, |es|) && i < |es|
    ensures IndicesOf(q + [i], |es|) && At(es, q + [i]) == At(es, q) + [es[i]] && At(es, q + []) == At(es, q) + []
  {
    assert q + [] == q;
  }

  lemma {:induction false} ListingMember(es: seq<Entry>, n: nat, p: Addr, i: nat)
    requires n <= |es|
    ensures i in Listing(es, n, p) <==> i < n && es[i].isPatched && es[i].phys == p
    decreases n
  {
    if n > 0 {
      ListingMember(es, n - 1, p, i);
      var more := if es[n - 1].isPatched && es[n - 1].phys == p then [n - 1] else [];
      InEither(Listing(es, n - 1, p), more, i);
    }
  }

  lemma InEither(q: seq<nat>, r: seq<nat>, i: nat)
    ensures i in q + r <==> i in q || i in r
  {
  }

  lemma {:induction false} ListingAscends(es: seq<Entry>, n: nat, p: Addr)
    requires n <= |es|
    ensures Ascending(Listing(es, n, p))
    decreases n
  {
    if n > 0 {
      ListingAscends(es, n - 1, p);
      AscendingSnoc(Listing(es, n - 1, p), n - 1);
    }
  }

  lemma AscendingSnoc(q: seq<nat>, i: nat)
    requires Ascending(q) && forall t :: 0 <= t < |q| ==> q[t] < i
    ensures Ascending(q + [i]) && Ascending(q + [])
  {
    assert q + [] == q;
  }

  lemma AscendingDistinct(q: seq<nat>)
    requires Ascending(q)
    ensures Distinct(q)
  {
  }

  function ListPositions(s: State): Order {
    (p: Addr) => Listing(s.entries, |s.entries|, p)
  }

  lemma PreStacked(s: State, w: World)
    requires Pre(s, w)
    ensures Stacked(s, w, ListPositions(s))
  {
    hide Whole, StackedAt, Assumed, LaidOut, Located, WordsRight, BuffersFilled, ChainAt;
    PreIsWhole(s, w);
    forall p | p !in w.data
      ensures StackedAt(s, w, ListPositions(s)(p), p)
    {
      assert ChainAt(s.mem, w.pristine, s.entries, p);
      ChainIsStacked(s, w, p);
    }
  }

  lemma ChainIsStacked(s: State, w: World, p: Addr)
    requires ChainAt(s.mem, w.pristine, s.entries, p)
    ensures StackedAt(s, w, ListPositions(s)(p), p)
  {
    hide On, Linked, Listing, Distinct;
    ListingMeans(s.entries, p);
  }

  // ----- restores -----

  /** What is left of a stack after one attempt to take entry `m` off. */
  function Tried(q: seq<nat>, m: nat): seq<nat> {
    if q != [] && q[|q| - 1] == m then q[..|q| - 1] else q
  }

  /** ... after attempts for all of `idxs`, last one first. */
  function TriedAll(q: seq<nat>, idxs: seq<nat>): seq<nat>
    decreases |idxs|
  {
    if idxs == [] then q else TriedAll(Tried(q, idxs[|idxs| - 1]), idxs[..|idxs| - 1])
  }

  /** From its `p`-th member upward the stack is in list order. */
  predicate AscendsFrom(q: seq<nat>, p: nat) {
    forall u, v :: p <= u < v < |q| ==> q[u] < q[v]
  }

  predicate WithinFrom(q: seq<nat>, p: nat, idxs: seq<nat>) {
    forall u :: p <= u < |q| ==> q[u] in idxs
  }

  lemma TriedDistinct(q: seq<nat>, m: nat)
    requires Distinct(q)
    ensures Distinct(Tried(q, m))
    ensures forall i :: i in Tried(q, m) <==> i in q && !(q != [] && q[|q| - 1] == m && i == m)
  {
    if q != [] && q[|q| - 1] == m {
      var r := q[..|q| - 1];
      assert q == r + [m];
      assert m !in r;
    }
  }

  /**
   Attempts in descending order take the `p`-th member off exactly if the stack from it upward is in
   list order, and all of it is tried.
   */
  lemma {:induction false} TriedAllTakesOff(q: seq<nat>, p: nat, idxs: seq<nat>)
    requires Distinct(q) && p < |q| && Ascending(idxs) && idxs != [] && idxs[0] == q[p]
    ensures q[p] !in TriedAll(q, idxs) <==> AscendsFrom(q, p) && WithinFrom(q, p, idxs)
    decreases |idxs|
  {
    hide AscendsFrom, WithinFrom, Distinct, Ascending;
    var m, short := idxs[|idxs| - 1], idxs[..|idxs| - 1];
    assert idxs == short + [m];
    TriedDistinct(q, m);
    if short == [] {
      assert TriedAll(q, idxs) == TriedAll(Tried(q, m), []) == Tried(q, m);
      OnlyTried(q, p);
    } else {
      ShortAscends(short, m);
      TriedKeeps(q, p, m);
      TriedAllTakesOff(Tried(q, m), p, short);
      MoreTried(q, p, short, m);
    }
  }

  lemma ShortAscends(short: seq<nat>, m: nat)
    requires Ascending(short + [m]) && short != []
    ensures Ascending(short) && short[0] < m && (short + [m])[0] == short[0]
  {
    var all := short + [m];
    assert all[|short|] == m && forall t :: 0 <= t < |short| ==> all[t] == short[t];
  }

  lemma TriedKeeps(q: seq<nat>, p: nat, m: nat)
    requires p < |q| && q[p] != m
    ensures p < |Tried(q, m)| && Tried(q, m)[p] == q[p]
  {
  }

  lemma OnlyTried(q: seq<nat>, p: nat)
    requires Distinct(q) && p < |q|
    ensures q[p] !in Tried(q, q[p]) <==> AscendsFrom(q, p) && WithinFrom(q, p, [q[p]])
  {
    TriedDistinct(q, q[p]);
    if p < |q| - 1 {
      assert q[|q| - 1] !in [q[p]];
    }
  }

  lemma MoreTried(q: seq<nat>, p: nat, short: seq<nat>, m: nat)
    requires Distinct(q) && p < |q| && q[p] != m && Ascending(short + [m])
    ensures AscendsFrom(Tried(q, m), p) && WithinFrom(Tried(q, m), p, short)
       <==> AscendsFrom(q, p) && WithinFrom(q, p, short + [m])
  {
    hide Ascending;
    BelowLast(short, m);
    if q[|q| - 1] == m {
      TopTried(q, p, short, m);
    } else {
      NotTopTried(q, p, short, m);
    }
  }

  lemma TopTried(q: seq<nat>, p: nat, short: seq<nat>, m: nat)
    requires Distinct(q) && p < |q| - 1 && q[|q| - 1] == m && forall i :: i in short ==> i < m
    ensures AscendsFrom(q[..|q| - 1], p) && WithinFrom(q[..|q| - 1], p, short)
       <==> AscendsFrom(q, p) && WithinFrom(q, p, short + [m])
  {
    var n := |q| - 1;
    var r, all := q[..n], short + [m];
    if AscendsFrom(r, p) && WithinFrom(r, p, short) {
      forall u | p <= u < |q|
        ensures q[u] in all && (u < n ==> q[u] < m)
      {
        assert u < n ==> r[u] == q[u] && r[u] in short;
      }
      assert forall u, v :: p <= u < v < n ==> r[u] == q[u] && r[v] == q[v];
    }
    if AscendsFrom(q, p) && WithinFrom(q, p, all) {
      forall u | p <= u < n
        ensures r[u] in short
      {
        assert q[u] in all && q[u] < q[n];
      }
    }
  }

  lemma NotTopTried(q: seq<nat>, p: nat, short: seq<nat>, m: nat)
    requires p < |q| && q[|q| - 1] != m && forall i :: i in short ==> i < m
    ensures AscendsFrom(q, p) && WithinFrom(q, p, short) <==> AscendsFrom(q, p) && WithinFrom(q, p, short + [m])
  {
    var n := |q| - 1;
    if AscendsFrom(q, p) && WithinFrom(q, p, short + [m]) {
      assert q[n] in short + [m];
      assert q[n] < m;
      forall u | p <= u < |q|
        ensures q[u] in short
      {
        assert q[u] in short + [m];
        assert u < n ==> q[u] < q[n];
      }
    }
  }

  lemma BelowLast(short: seq<nat>, m: nat)
    requires Ascending(short + [m])
    ensures forall i :: i in short ==> i < m
  {
    forall i | i in short
      ensures i < m
    {
      var t :| 0 <= t < |short| && short[t] == i;
      assert (short + [m])[t] == i && (short + [m])[|short|] == m;
    }
  }

  // ----- RestoreFunction in a stack -----

  /** The order with another stack at `p`. */
  function Instead(ord: Order, p: Addr, q: seq<nat>): Order {
    (a: Addr) => if a == p then q else ord(a)
  }

  /** A patch can be restored exactly when it is the topmost one in memory. */
  lemma RestoredIffOnTop(s: State, w: World, ord: Order, m: nat)
    requires Stacked(s, w, ord) && ReplacementsApart(s) && m < |s.entries| && s.entries[m].isPatched
    ensures s.entries[m].phys !in w.data
    ensures var q := ord(s.entries[m].phys);
            q != [] && (s.mem(s.entries[m].phys) == s.entries[m].replaceWith <==> q[|q| - 1] == m)
  {
    hide Whole, ReplacementsApart, Linked, SiteOf, Reachable, Restorable;
    PatchedAnyhow(s, w, m);
    var p := s.entries[m].phys;
    var q := ord(p);
    assert StackedAt(s, w, q, p);
    assert m in q;
    var l := q[|q| - 1];
    if l != m {
      BranchWordsDiffer(s, w, l, m);
    }
  }

  /** Taking the top off. */
  lemma PoppedAt(s: State, w: World, q: seq<nat>, p: Addr, r: State)
    requires StackedAt(s, w, q, p) && q != []
    requires var m := q[|q| - 1]; r == RestoredState(s, m)
    ensures StackedAt(r, w, q[..|q| - 1], p)
  {
    hide Linked, Below, Distinct;
    var n := |q| - 1;
    var m, short := q[n], q[..n];
    TriedDistinct(q, m);
    assert Tried(q, m) == short;
    AtOthers(s.entries, short, m, Off(s.entries[m]));
    assert At(s.entries, q)[..n] == At(s.entries, short);
    assert At(s.entries, q)[n] == s.entries[m];
    LinkedBelow(w.pristine(p), At(s.entries, q), n);
  }

  /** Another entry at a position that is not in `q` does not matter. */
  lemma AtOthers(es: seq<Entry>, q: seq<nat>, m: nat, e: Entry)
    requires IndicesOf(q, |es|) && m < |es| && m !in q
    ensures At(es[m := e], q) == At(es, q)
    ensures forall t :: 0 <= t < |q| ==> es[m := e][q[t]] == es[q[t]]
  {
  }

  lemma LinkedBelow(x: Word, es: seq<Entry>, n: nat)
    requires Linked(x, es) && n < |es|
    ensures Linked(x, es[..n]) && es[n].replaced == Below(x, es[..n], n)
  {
    assert es[n].replaced == Below(x, es, n);
    forall t | 0 <= t < n
      ensures es[..n][t].replaced == Below(x, es[..n], t)
    {
      assert es[t].replaced == Below(x, es, t);
    }
  }

  lemma RestoredElsewhere(s: State, w: World, q: seq<nat>, p: Addr, m: nat)
    requires StackedAt(s, w, q, p) && m < |s.entries| && s.entries[m].phys != p
    ensures StackedAt(RestoredState(s, m), w, q, p)
  {
    hide Linked, Below, Distinct;
    assert m !in q;
    AtOthers(s.entries, q, m, Off(s.entries[m]));
  }

  /** RestoreFunction on any listed entry of address `p` does to the stack there what `Tried` says, and nothing elsewhere. */
  lemma RestoreTries(s: State, w: World, ord: Order, p: Addr, m: nat)
    requires Stacked(s, w, ord) && ReplacementsApart(s) && m < |s.entries| && s.entries[m].phys == p && p !in w.data
    ensures Stacked(RestoreEntry(s, m), w, Instead(ord, p, Tried(ord(p), m)))
  {
    hide Whole, ReplacementsApart, RestoreEntry, StackedAt;
    var r, ord' := RestoreEntry(s, m), Instead(ord, p, Tried(ord(p), m));
    RestoreKeepsWhole(s, w, m);
    if s.entries[m].isPatched && s.mem(p) == s.entries[m].replaceWith {
      RestoredIffOnTop(s, w, ord, m);
      forall a | a !in w.data
        ensures StackedAt(r, w, ord'(a), a)
      {
        assert StackedAt(s, w, ord(a), a);
        if a == p {
          PoppedAt(s, w, ord(p), p, r);
        } else {
          RestoredElsewhere(s, w, ord(a), a, m);
        }
      }
    } else {
      NotOnTop(s, w, ord, p, m);
      forall a | a !in w.data
        ensures StackedAt(r, w, ord'(a), a)
      {
        assert StackedAt(s, w, ord(a), a);
      }
    }
  }

  lemma NotOnTop(s: State, w: World, ord: Order, p: Addr, m: nat)
    requires Stacked(s, w, ord) && ReplacementsApart(s) && m < |s.entries| && s.entries[m].phys == p && p !in w.data
    requires !(s.entries[m].isPatched && s.mem(p) == s.entries[m].replaceWith)
    ensures Tried(ord(p), m) == ord(p)
  {
    hide Whole, ReplacementsApart, Linked;
    assert StackedAt(s, w, ord(p), p);
    if s.entries[m].isPatched {
      RestoredIffOnTop(s, w, ord, m);
    }
  }

  lemma ApartAfterRestore(s: State, w: World, m: nat)
    requires Whole(s, w) && ReplacementsApart(s) && m < |s.entries|
    ensures ReplacementsApart(RestoreEntry(s, m)) && |RestoreEntry(s, m).entries| == |s.entries|
    ensures forall i :: 0 <= i < |s.entries| ==> RestoreEntry(s, m).entries[i].phys == s.entries[i].phys
  {
    hide Whole, OwnCells, NeedsTrampoline, RestoreEntry;
    RestoreKeepsWhole(s, w, m);
    forall i | 0 <= i < |s.entries|
      ensures OwnCells(RestoreEntry(s, m).entries[i]) == OwnCells(s.entries[i])
    {
      SameConfigReflexive();
      if i == m { SameBuffersSameLayout(s.env, w, s.entries[i], Off(s.entries[i])); }
    }
  }

  lemma {:induction false} RestoreManyTries(s: State, w: World, ord: Order, p: Addr, idxs: seq<nat>)
    requires Stacked(s, w, ord) && ReplacementsApart(s) && IndicesOf(idxs, |s.entries|) && p !in w.data
    requires forall t :: 0 <= t < |idxs| ==> s.entries[idxs[t]].phys == p
    ensures Stacked(RestoreMany(s, idxs), w, Instead(ord, p, TriedAll(ord(p), idxs))) && ReplacementsApart(RestoreMany(s, idxs))
    decreases |idxs|
  {
    hide Whole, ReplacementsApart, RestoreEntry, StackedAt;
    if idxs == [] {
      SameOrder(s, w, ord, Instead(ord, p, ord(p)));
    } else {
      var m, short := idxs[|idxs| - 1], idxs[..|idxs| - 1];
      var s1, ord1 := RestoreEntry(s, m), Instead(ord, p, Tried(ord(p), m));
      RestoreTries(s, w, ord, p, m);
      ApartAfterRestore(s, w, m);
      RestoreManyTries(s1, w, ord1, p, short);
      SameOrder(RestoreMany(s1, short), w, Instead(ord1, p, TriedAll(ord1(p), short)), Instead(ord, p, TriedAll(ord(p), idxs)));
    }
  }

  lemma SameOrder(s: State, w: World, ord: Order, ord': Order)
    requires Stacked(s, w, ord) && forall p :: ord(p) == ord'(p)
    ensures Stacked(s, w, ord')
  {
    hide Whole, StackedAt;
  }

  /**
   The restores of a removal: the later listed entries of the address, and entry `k`, are tried in
   descending order of the list.
   */
  lemma UnstackedTries(s: State, w: World, ord: Order, k: nat)
    requires Stacked(s, w, ord) && ReplacementsApart(s) && k < |s.entries| && s.entries[k].isPatched
    ensures var p := s.entries[k].phys;
            Stacked(Unstacked(s, k), w, Instead(ord, p, TriedAll(ord(p), LaterFrom(s.entries, k, k))))
  {
    hide Whole, ReplacementsApart, RestoreEntry, StackedAt, SiteOf, Reachable, Restorable, LaterFrom;
    var p := s.entries[k].phys;
    var later, idxs := LaterFrom(s.entries, k, k + 1), LaterFrom(s.entries, k, k);
    PatchedAnyhow(s, w, k);
    LaterMeans(s.entries, k, k);
    assert forall t :: 0 <= t < |idxs| ==> idxs[t] in idxs;
    LaterStartsWith(s.entries, k);
    RestoreManyTries(s, w, ord, p, idxs);
    RestoreFirstLast(s, k, later);
  }

  lemma LaterStartsWith(es: seq<Entry>, k: nat)
    requires k < |es|
    ensures LaterFrom(es, k, k) == [k] + LaterFrom(es, k, k + 1)
  {
  }

  /**
   Whether a removal takes its patch off is decided by the two orders before the call: it does so if
   and only if, from that patch upward, the stack is in list order.
   */
  lemma RemovalTakesOffIff(s: State, w: World, ord: Order, k: nat, t: nat)
    requires Stacked(s, w, ord) && ReplacementsApart(s) && k < |s.entries| && s.entries[k].isPatched
    requires t < |ord(s.entries[k].phys)| && ord(s.entries[k].phys)[t] == k
    ensures !Unstacked(s, k).entries[k].isPatched <==> AscendsFrom(ord(s.entries[k].phys), t)
  {
    hide Whole, ReplacementsApart, Unstacked, SiteOf, Reachable, Restorable, LaterFrom, AscendsFrom, WithinFrom, TriedAll, Ascending;
    var p := s.entries[k].phys;
    var q, idxs := ord(p), LaterFrom(s.entries, k, k);
    PatchedAnyhow(s, w, k);
    LaterMeans(s.entries, k, k);
    LaterStartsWith(s.entries, k);
    UnstackedTries(s, w, ord, k);
    StackedMeans(s, w, ord, p);
    TriedAllTakesOff(q, t, idxs);
    StackedMeans(Unstacked(s, k), w, Instead(ord, p, TriedAll(q, idxs)), p);
    UnstackedPlace(s, w, k);
    if AscendsFrom(q, t) {
      AscendingIsLater(s.entries, q, t, idxs);
    }
  }

  /** What `Stacked` says of one address. */
  lemma StackedMeans(s: State, w: World, ord: Order, p: Addr)
    requires Stacked(s, w, ord) && p !in w.data
    ensures var q := ord(p);
            && IndicesOf(q, |s.entries|) && Distinct(q)
            && (forall t :: 0 <= t < |q| ==> s.entries[q[t]].isPatched && s.entries[q[t]].phys == p)
            && (forall i: nat :: i < |s.entries| ==> (i in q <==> s.entries[i].isPatched && s.entries[i].phys == p))
  {
    hide Whole, Linked;
    assert StackedAt(s, w, ord(p), p);
  }

  lemma UnstackedPlace(s: State, w: World, k: nat)
    requires Whole(s, w) && k < |s.entries|
    ensures Unstacked(s, k).entries[k].phys == s.entries[k].phys
  {
    hide Whole, Unstacked;
    UnstackedKeepsWhole(s, w, k);
  }

  lemma AscendingIsLater(es: seq<Entry>, q: seq<nat>, t: nat, idxs: seq<nat>)
    requires t < |q| && IndicesOf(q, |es|) && AscendsFrom(q, t)
    requires forall u :: 0 <= u < |q| ==> es[q[u]].phys == es[q[t]].phys
    requires forall i :: i in idxs <==> q[t] <= i < |es| && es[i].phys == es[q[t]].phys
    ensures WithinFrom(q, t, idxs)
  {
  }

  // ----- patching: another position on top -----

  function Topped(ord: Order, p: Addr, k: nat): Order {
    (a: Addr) => ord(a) + if a == p then [k] else []
  }

  lemma ToppedAt(s: State, w: World, q: seq<nat>, k: nat, e: Entry, s': State)
    requires StackedAt(s, w, q, e.phys) && k < |s.entries| && !s.entries[k].isPatched && e.isPatched
    requires s'.entries == s.entries[k := e] && e.replaced == s.mem(e.phys) && s'.mem(e.phys) == e.replaceWith
    ensures StackedAt(s', w, q + [k], e.phys)
  {
    hide Linked, Below, Distinct;
    assert k !in q;
    AtOthers(s.entries, q, k, e);
    OneMoreDistinct(q, k);
    AtSnoc(s'.entries, q, k);
    LinkedMore(w.pristine(e.phys), At(s.entries, q), e);
    BelowMore(w.pristine(e.phys), At(s.entries, q), e, |q|);
    forall i: nat | i < |s'.entries| && s'.entries[i].isPatched && s'.entries[i].phys == e.phys
      ensures i in q + [k]
    {
      assert i != k ==> i in q;
    }
  }

  lemma OneMoreDistinct(q: seq<nat>, k: nat)
    requires Distinct(q) && k !in q
    ensures Distinct(q + [k])
  {
  }

  lemma PatchedElsewhere(s: State, w: World, q: seq<nat>, p: Addr, k: nat, e: Entry, s': State)
    requires StackedAt(s, w, q, p) && k < |s.entries| && !s.entries[k].isPatched && e.phys != p
    requires s'.entries == s.entries[k := e] && s'.mem(p) == s.mem(p)
    ensures StackedAt(s', w, q, p)
  {
    hide Linked, Below, Distinct;
    assert k !in q;
    AtOthers(s.entries, q, k, e);
  }

  lemma PatchTops(s: State, w: World, ord: Order, k: nat, eff: Addr, phys: Addr)
    requires k < |s.entries| && About(s, w, k, eff, phys) && Stacked(s, w, ord)
    ensures Stacked(PatchedState(s, k, eff, phys), w, Topped(ord, phys, k))
  {
    hide Whole, Steady, SiteOf, ReplacementWord, PatchWrites, StackedAt;
    var s', e := PatchedState(s, k, eff, phys), PatchedEntry(s, k, eff, phys);
    PatchKeepsWhole(s, w, k, eff, phys);
    PatchedEntryIs(s, k, eff, phys);
    forall p | p !in w.data
      ensures StackedAt(s', w, Topped(ord, phys, k)(p), p)
    {
      PatchedCodeMemory(s, w, k, eff, phys, p);
      assert StackedAt(s, w, ord(p), p);
      if p == phys {
        ToppedAt(s, w, ord(p), k, e, s');
      } else {
        PatchedElsewhere(s, w, ord(p), p, k, e, s');
        assert ord(p) + [] == ord(p);
      }
    }
  }

  /** The stacks of `ord` are the lower parts of those of `ord'`. */
  ghost predicate Extends(ord: Order, ord': Order) {
    forall p :: |ord(p)| <= |ord'(p)| && ord'(p)[..|ord(p)|] == ord(p)
  }

  lemma ToppedExtends(ord: Order, p: Addr, k: nat, ord': Order)
    requires Extends(Topped(ord, p, k), ord')
    ensures Extends(ord, ord')
  {
    forall a: Addr
      ensures |ord(a)| <= |ord'(a)| && ord'(a)[..|ord(a)|] == ord(a)
    {
      var more := Topped(ord, p, k)(a);
      assert ord'(a)[..|more|] == more && more[..|ord(a)|] == ord(a);
      assert ord'(a)[..|ord(a)|] == more[..|ord(a)|];
    }
  }

  lemma ExtendsItself(ord: Order)
    ensures Extends(ord, ord)
  {
  }

  /** PatchFunction on any entries: new positions come on top, and what was patched stays as it is. */
  lemma PatchOneTops(s: State, w: World, ord: Order, k: nat) returns (s': State, ord': Order)
    requires Stacked(s, w, ord) && k < |s.entries|
    ensures PatchEntry(s, k) == Some(s') && Stacked(s', w, ord') && Extends(ord, ord') && s'.env == s.env && |s'.entries| == |s.entries|
    ensures forall i :: 0 <= i < |s.entries| && s.entries[i].isPatched ==> s'.entries[i] == s.entries[i]
    ensures forall i :: 0 <= i < |s.entries| ==> SameConfig(s.entries[i], s'.entries[i])
    ensures forall i :: 0 <= i < |s.entries| ==> (Waiting(s', w, i) <==> Waiting(s, w, i) && i != k)
  {
    hide Whole, Steady, PatchEntry, SiteOf, PatchedState, SameShape, SameConfig, StackedAt, Extends;
    WholeOfStacked(s, w, ord);
    WholeIsSteady(s, w);
    s' := PatchAny(s, w, k);
    ord' := ord;
    ExtendsItself(ord);
    if Waiting(s, w, k) {
      var site := SiteOf(s.env, w.pristine, s.entries[k]);
      WaitingIsAbout(s, w, k);
      PatchTops(s, w, ord, k, site.eff, site.phys);
      ord' := Topped(ord, site.phys, k);
      ExtendsItself(ord');
      ToppedExtends(ord, site.phys, k, ord');
    }
  }

  lemma ExtendsMore(a: Order, b: Order, c: Order)
    requires Extends(a, b) && Extends(b, c)
    ensures Extends(a, c)
  {
    forall p: Addr
      ensures |a(p)| <= |c(p)| && c(p)[..|a(p)|] == a(p)
    {
      assert c(p)[..|b(p)|] == b(p) && b(p)[..|a(p)|] == a(p);
      assert c(p)[..|a(p)|] == c(p)[..|b(p)|][..|a(p)|];
    }
  }

  /** PatchFunction on any entries: new positions come on top, and what was patched stays as it is. */
  lemma {:induction false} PatchManyTops(s: State, w: World, ord: Order, idxs: seq<nat>) returns (ord': Order)
    requires Stacked(s, w, ord) && IndicesOf(idxs, |s.entries|)
    ensures var r := PatchMany(s, idxs);
            && r.Some? && Stacked(r.value, w, ord') && Extends(ord, ord') && r.value.env == s.env && |r.value.entries| == |s.entries|
            && (forall i :: 0 <= i < |s.entries| && s.entries[i].isPatched ==> r.value.entries[i] == s.entries[i])
            && (forall i :: 0 <= i < |s.entries| ==> SameConfig(s.entries[i], r.value.entries[i]))
            && (forall i :: 0 <= i < |s.entries| ==> (Waiting(r.value, w, i) <==> Waiting(s, w, i) && i !in idxs))
    decreases |idxs|
  {
    hide Stacked, PatchEntry, SameConfig, Extends, Waiting;
    ord' := ord;
    if idxs == [] {
      SameConfigReflexive();
      ExtendsItself(ord);
    } else {
      var k, rest := idxs[0], idxs[1..];
      assert idxs == [k] + rest;
      var s', ord1 := PatchOneTops(s, w, ord, k);
      ord' := PatchManyTops(s', w, ord1, rest);
      ExtendsMore(ord, ord1, ord');
      SameConfigsTransitive(s.entries, s'.entries, PatchMany(s', rest).value.entries);
    }
  }

  lemma SweepTops(s: State, w: World, ord: Order) returns (ord': Order)
    requires Stacked(s, w, ord)
    ensures var r := Sweep(s);
            && r.Some? && Stacked(r.value, w, ord') && Extends(ord, ord') && r.value.env == s.env && |r.value.entries| == |s.entries|
            && (forall i :: 0 <= i < |s.entries| && s.entries[i].isPatched ==> r.value.entries[i] == s.entries[i])
            && (forall i :: 0 <= i < |s.entries| ==> SameConfig(s.entries[i], r.value.entries[i]) && !Waiting(r.value, w, i))
  {
    hide Stacked, Waiting, SameConfig, Extends, PatchMany;
    var idxs := Upto(|s.entries|);
    forall i | 0 <= i < |s.entries|
      ensures i in idxs
    {
      assert idxs[i] == i;
    }
    ord' := PatchManyTops(s, w, ord, idxs);
  }

  // ----- who branches into freed buffers -----

  /** A word of code, or the displaced word of a patched entry, branches into the buffers of `e`. */
  ghost predicate Reached(s: State, w: World, e: Entry) {
    || (exists a :: a !in w.data && BranchesInto(s.mem(a), e))
    || (exists i :: 0 <= i < |s.entries| && s.entries[i].isPatched && BranchesInto(s.entries[i].replaced, e))
  }

  /** The branch word that an entry writes, and where it goes. */
  lemma WordGoes(env: Env, w: World, f: Entry, e: Entry)
    requires EntryLaidOut(env, w, f)
    ensures BranchesInto(ReplacementWord(f.process, f.repl, f.jumpData), e) <==> BranchTarget(f) in OwnCells(e)
  {
    hide Decode, Ba, Short, Aligned, Cells, OwnCells, NeedsTrampoline;
    var g := f.(replaceWith := ReplacementWord(f.process, f.repl, f.jumpData));
    BranchWord(g);
  }

  /** It goes into the buffers of an entry only if it is that entry's own, and only through a trampoline. */
  lemma WordGoesOnlyHome(s: State, w: World, i: nat, k: nat)
    requires LaidOut(s, w) && ReplacementsApart(s) && i < |s.entries| && k < |s.entries|
    ensures var f := s.entries[i];
            BranchesInto(ReplacementWord(f.process, f.repl, f.jumpData), s.entries[k]) <==> i == k && NeedsTrampoline(f.process, f.repl)
  {
    hide OwnCells, BranchesInto, ReplacementWord, NeedsTrampoline, EntryLaidOut;
    var f := s.entries[i];
    assert EntryLaidOut(s.env, w, f);
    WordGoes(s.env, w, f, s.entries[k]);
    if NeedsTrampoline(f.process, f.repl) {
      TrampolineIsOwn(s.env, w, f);
      if i != k {
        assert OwnCells(f) !! OwnCells(s.entries[k]);
      }
    }
  }

  /** Every word is the original one or one that an entry of `fs` writes. */
  ghost predicate WordsAmong(s: State, w: World, fs: seq<Entry>) {
    && (forall a :: a !in w.data ==> FromAmong(s.mem(a), w.pristine(a), fs))
    && (forall i :: 0 <= i < |s.entries| && s.entries[i].isPatched ==>
          FromAmong(s.entries[i].replaced, w.pristine(s.entries[i].phys), fs))
  }

  ghost predicate FromAmong(v: Word, x: Word, fs: seq<Entry>) {
    v == x || exists i :: 0 <= i < |fs| && v == ReplacementWord(fs[i].process, fs[i].repl, fs[i].jumpData)
  }

  /** In a stack all words are original ones or those of patched entries. */
  lemma StackedWord(s: State, w: World, ord: Order, p: Addr, t: nat) returns (i: nat)
    requires Stacked(s, w, ord) && p !in w.data
    requires IndicesOf(ord(p), |s.entries|) && t <= |ord(p)|
    ensures var v := Below(w.pristine(p), At(s.entries, ord(p)), t);
            v == w.pristine(p) || (i < |s.entries| && s.entries[i].isPatched
                                   && v == ReplacementWord(s.entries[i].process, s.entries[i].repl, s.entries[i].jumpData))
  {
    hide Steady, Linked, ReplacementWord, SiteOf, BuffersFilled;
    i := 0;
    if t > 0 {
      i := ord(p)[t - 1];
      assert StackedAt(s, w, ord(p), p);
      assert Reachable(s.entries[i]);
    }
  }

  lemma StackedSaved(s: State, w: World, ord: Order, j: nat) returns (t: nat)
    requires Stacked(s, w, ord) && j < |s.entries| && s.entries[j].isPatched
    ensures var p := s.entries[j].phys;
            && p !in w.data && IndicesOf(ord(p), |s.entries|) && t < |ord(p)| && ord(p)[t] == j
            && s.entries[j].replaced == Below(w.pristine(p), At(s.entries, ord(p)), t)
  {
    hide Whole, SiteOf, Reachable, Restorable;
    var p := s.entries[j].phys;
    PatchedAnyhow(s, w, j);
    assert StackedAt(s, w, ord(p), p);
    assert j in ord(p);
    t :| 0 <= t < |ord(p)| && ord(p)[t] == j;
    assert At(s.entries, ord(p))[t] == s.entries[j];
  }

  /** Nothing branches into the buffers of an entry that is off. */
  lemma OffIsNotReached(s: State, w: World, ord: Order, k: nat)
    requires Stacked(s, w, ord) && ReplacementsApart(s) && k < |s.entries| && !s.entries[k].isPatched
    requires forall a :: a !in w.data ==> !BranchesInto(w.pristine(a), s.entries[k])
    ensures !Reached(s, w, s.entries[k])
  {
    hide Whole, LaidOut, ReplacementsApart, BranchesInto, ReplacementWord, NeedsTrampoline, StackedAt;
    WholeIsSteady(s, w);
    forall a | a !in w.data
      ensures !BranchesInto(s.mem(a), s.entries[k])
    {
      StackedMeans(s, w, ord, a);
      var i := StackedWord(s, w, ord, a, |ord(a)|);
      TopWordAt(s, w, ord, a);
      if s.mem(a) != w.pristine(a) {
        WordGoesOnlyHome(s, w, i, k);
      }
    }
    forall j | 0 <= j < |s.entries| && s.entries[j].isPatched
      ensures !BranchesInto(s.entries[j].replaced, s.entries[k])
    {
      var t := StackedSaved(s, w, ord, j);
      var i := StackedWord(s, w, ord, s.entries[j].phys, t);
      if s.entries[j].replaced != w.pristine(s.entries[j].phys) {
        WordGoesOnlyHome(s, w, i, k);
      }
    }
  }

  lemma TopWordAt(s: State, w: World, ord: Order, p: Addr)
    requires Stacked(s, w, ord) && p !in w.data && IndicesOf(ord(p), |s.entries|)
    ensures s.mem(p) == Below(w.pristine(p), At(s.entries, ord(p)), |ord(p)|)
  {
    hide Whole, Linked;
    assert StackedAt(s, w, ord(p), p);
  }

  /** All words of a stack are among those of the listed entries. */
  lemma StackedWordsAmong(s: State, w: World, ord: Order)
    requires Stacked(s, w, ord)
    ensures WordsAmong(s, w, s.entries)
  {
    hide Whole, ReplacementWord, StackedAt;
    forall a | a !in w.data
      ensures FromAmong(s.mem(a), w.pristine(a), s.entries)
    {
      StackedMeans(s, w, ord, a);
      var i := StackedWord(s, w, ord, a, |ord(a)|);
      TopWordAt(s, w, ord, a);
    }
    forall j | 0 <= j < |s.entries| && s.entries[j].isPatched
      ensures FromAmong(s.entries[j].replaced, w.pristine(s.entries[j].phys), s.entries)
    {
      var t := StackedSaved(s, w, ord, j);
      var i := StackedWord(s, w, ord, s.entries[j].phys, t);
    }
  }

  lemma PatchKeepsWords(s: State, w: World, k: nat, eff: Addr, phys: Addr, fs: seq<Entry>)
    requires k < |s.entries| && About(s, w, k, eff, phys) && WordsAmong(s, w, fs)
    requires FromAmong(ReplacementWord(s.entries[k].process, s.entries[k].repl, s.entries[k].jumpData), 0, fs)
    requires ReplacementWord(s.entries[k].process, s.entries[k].repl, s.entries[k].jumpData) != 0
    ensures WordsAmong(PatchedState(s, k, eff, phys), w, fs)
  {
    hide About, FromAmong, PatchedState, ReplacementWord;
    var s', e := PatchedState(s, k, eff, phys), PatchedEntry(s, k, eff, phys);
    PatchedFields(s, w, k, eff, phys);
    forall a | a !in w.data
      ensures FromAmong(s'.mem(a), w.pristine(a), fs)
    {
      PatchedCodeMemory(s, w, k, eff, phys, a);
      FromAmongAny(e.replaceWith, 0, w.pristine(a), fs);
    }
  }

  lemma PatchedFields(s: State, w: World, k: nat, eff: Addr, phys: Addr)
    requires k < |s.entries| && About(s, w, k, eff, phys)
    ensures var s', e, was := PatchedState(s, k, eff, phys), PatchedEntry(s, k, eff, phys), s.entries[k];
            && s'.entries == s.entries[k := e] && phys !in w.data
            && e.phys == phys && e.replaced == s.mem(phys) && e.replaceWith == ReplacementWord(was.process, was.repl, was.jumpData)
  {
    hide Steady, SiteOf, ReplacementWord, PatchWrites, Restorable, EntryLaidOut;
    TargetIsCode(s, w, k, eff, phys);
  }

  lemma FromAmongAny(v: Word, x: Word, y: Word, fs: seq<Entry>)
    requires FromAmong(v, x, fs) && v != x
    ensures FromAmong(v, y, fs)
  {
    hide ReplacementWord;
  }

  lemma OwnWordFromAmong(e: Entry, es: seq<Entry>, fs: seq<Entry>, i: nat)
    requires i < |fs| && SameConfig(fs[i], e)
    ensures FromAmong(ReplacementWord(e.process, e.repl, e.jumpData), 0, fs)
    ensures ReplacementWord(e.process, e.repl, e.jumpData) != 0
  {
    BaIsNotZeroNorRelative(if NeedsTrampoline(e.process, e.repl) then e.jumpData else e.repl);
    hide Ba, NeedsTrampoline;
  }

  /** Each entry is, in its lasting parts, one of `fs`. */
  ghost predicate AllFrom(es: seq<Entry>, fs: seq<Entry>) {
    forall j :: 0 <= j < |es| ==> IsFrom(es[j], fs)
  }

  ghost predicate IsFrom(e: Entry, fs: seq<Entry>) {
    exists i: nat :: i < |fs| && SameConfig(fs[i], e)
  }

  lemma {:induction false} PatchManyWords(s: State, w: World, idxs: seq<nat>, fs: seq<Entry>)
    requires Whole(s, w) && IndicesOf(idxs, |s.entries|) && WordsAmong(s, w, fs) && AllFrom(s.entries, fs)
    ensures PatchMany(s, idxs).Some? && WordsAmong(PatchMany(s, idxs).value, w, fs)
    decreases |idxs|
  {
    hide Whole, Steady, PatchEntry, SiteOf, PatchedState, SameShape, SameConfig, ReplacementWord, WordsAmong, FromAmong, Waiting;
    if idxs != [] {
      var k := idxs[0];
      WholeIsSteady(s, w);
      var s' := PatchAny(s, w, k);
      if Waiting(s, w, k) {
        WaitingIsAbout(s, w, k);
        var site := SiteOf(s.env, w.pristine, s.entries[k]);
        assert IsFrom(s.entries[k], fs);
        var i: nat :| i < |fs| && SameConfig(fs[i], s.entries[k]);
        OwnWordFromAmong(s.entries[k], s.entries, fs, i);
        PatchKeepsWords(s, w, k, site.eff, site.phys, fs);
      }
      StillAllFrom(s.entries, s'.entries, fs);
      PatchManyWords(s', w, idxs[1..], fs);
    }
  }

  lemma WaitingIsAbout(s: State, w: World, k: nat)
    requires Steady(s, w) && Waiting(s, w, k)
    ensures var site := SiteOf(s.env, w.pristine, s.entries[k]); About(s, w, k, site.eff, site.phys)
  {
    hide Steady, SiteOf;
  }

  lemma StillAllFrom(es: seq<Entry>, gs: seq<Entry>, fs: seq<Entry>)
    requires AllFrom(es, fs) && |gs| == |es| && forall j :: 0 <= j < |es| ==> SameConfig(es[j], gs[j])
    ensures AllFrom(gs, fs)
  {
    forall j | 0 <= j < |gs|
      ensures IsFrom(gs[j], fs)
    {
      assert IsFrom(es[j], fs);
      var i: nat :| i < |fs| && SameConfig(fs[i], es[j]);
      assert SameConfig(fs[i], gs[j]);
    }
  }

  /** The word is still in code at `a`, or is the displaced word of a patched entry. */
  ghost predicate StillFound(r: State, a: Addr, v: Word) {
    r.mem(a) == v || exists i :: 0 <= i < |r.entries| && r.entries[i].isPatched && r.entries[i].replaced == v
  }

  /** A word of code stays, or becomes the displaced word of the patch that is put over it. */
  lemma {:induction false} WordIsKept(s: State, w: World, idxs: seq<nat>, a: Addr)
    requires Whole(s, w) && IndicesOf(idxs, |s.entries|) && a !in w.data
    ensures var r := PatchMany(s, idxs);
            && r.Some? && |r.value.entries| == |s.entries|
            && (forall i :: 0 <= i < |s.entries| && s.entries[i].isPatched ==> r.value.entries[i] == s.entries[i])
            && StillFound(r.value, a, s.mem(a))
    decreases |idxs|
  {
    hide Whole, PatchEntry, StillFound;
    if idxs == [] {
      FoundInPlace(s, a);
    } else {
      var k := idxs[0];
      var s' := OneMayCover(s, w, k, a);
      WordIsKept(s', w, idxs[1..], a);
      if s'.mem(a) != s.mem(a) {
        FoundIn(PatchMany(s', idxs[1..]).value, a, k);
      }
    }
  }

  lemma OneMayCover(s: State, w: World, k: nat, a: Addr) returns (s': State)
    requires Whole(s, w) && k < |s.entries| && a !in w.data
    ensures PatchEntry(s, k) == Some(s') && Whole(s', w) && |s'.entries| == |s.entries|
    ensures forall i :: 0 <= i < |s.entries| && s.entries[i].isPatched ==> s'.entries[i] == s.entries[i]
    ensures s'.mem(a) == s.mem(a) || (s'.entries[k].isPatched && s'.entries[k].replaced == s.mem(a))
  {
    hide Whole, Steady, PatchEntry, SiteOf, PatchedState, SameShape, SameConfig;
    WholeIsSteady(s, w);
    s' := PatchAny(s, w, k);
    if s'.mem(a) != s.mem(a) {
      CoveredBy(s, w, k, s', a);
    }
  }

  lemma FoundInPlace(s: State, a: Addr)
    ensures StillFound(s, a, s.mem(a))
  {
  }

  lemma FoundIn(r: State, a: Addr, k: nat)
    requires k < |r.entries| && r.entries[k].isPatched
    ensures StillFound(r, a, r.entries[k].replaced)
  {
  }

  lemma CoveredBy(s: State, w: World, k: nat, s': State, a: Addr)
    requires Steady(s, w) && k < |s.entries| && a !in w.data && s'.mem(a) != s.mem(a)
    requires var site := SiteOf(s.env, w.pristine, s.entries[k]);
             s' == if Waiting(s, w, k) then PatchedState(s, k, site.eff, site.phys) else s
    ensures Waiting(s, w, k) && s'.entries[k].isPatched && s'.entries[k].replaced == s.mem(a)
  {
    hide Steady, SiteOf, ReplacementWord, PatchWrites;
    WaitingIsAbout(s, w, k);
    var site := SiteOf(s.env, w.pristine, s.entries[k]);
    PatchedCodeMemory(s, w, k, site.eff, site.phys, a);
  }

  /** If entry `k` is still patched after the restores, its branch word is still found somewhere at the end. */
  lemma StuckIsReached(s: State, w: World, ord: Order, k: nat, s2: State, idxs: seq<nat>)
    requires Stacked(s, w, ord) && k < |s.entries| && s.entries[k].isPatched && NeedsTrampoline(s.entries[k].process, s.entries[k].repl)
    requires s2 == s.(entries := Erase(s.entries, k)) && Whole(s2, w) && IndicesOf(idxs, |s2.entries|)
    ensures PatchMany(s2, idxs).Some? && Reached(PatchMany(s2, idxs).value, w, s.entries[k])
  {
    hide Whole, Stacked, NeedsTrampoline, BranchesInto, PatchMany, Erase, Below, StillFound, Reached;
    var e := s.entries[k];
    WholeOfStacked(s, w, ord);
    OwnWordGoesHome(s, w, k);
    var t := StackedSaved(s, w, ord, k);
    WordIsKept(s2, w, idxs, e.phys);
    var r := PatchMany(s2, idxs).value;
    ErasedLength(s.entries, k);
    if t + 1 < |ord(e.phys)| {
      SavedAbove(s, w, ord, e.phys, t);
      PatchedBehind(s, k, ord(e.phys)[t + 1], r);
    } else {
      TopWordAt(s, w, ord, e.phys);
      TopWordIsOwn(s, w, ord, e.phys, t);
      assert s2.mem(e.phys) == e.replaceWith;
      FoundIsReached(r, w, e.phys, e.replaceWith, e);
    }
  }

  lemma FoundIsReached(r: State, w: World, a: Addr, v: Word, e: Entry)
    requires StillFound(r, a, v) && BranchesInto(v, e) && a !in w.data
    ensures Reached(r, w, e)
  {
    hide BranchesInto;
  }

  lemma PatchedBehind(s: State, k: nat, j: nat, r: State)
    requires k < |s.entries| && j < |s.entries| && j != k && s.entries[j].isPatched && |r.entries| == |s.entries| - 1
    requires s.entries[j].replaced == s.entries[k].replaceWith && BranchesInto(s.entries[k].replaceWith, s.entries[k])
    requires |Erase(s.entries, k)| == |r.entries|
    requires forall i :: 0 <= i < |r.entries| && Erase(s.entries, k)[i].isPatched ==> r.entries[i] == Erase(s.entries, k)[i]
    ensures forall w :: Reached(r, w, s.entries[k])
  {
    hide BranchesInto, Erase;
    var i := if j < k then j else j - 1;
    ErasedAt(s.entries, k, i);
    assert r.entries[i] == s.entries[j];
  }

  lemma TopWordIsOwn(s: State, w: World, ord: Order, p: Addr, t: nat)
    requires IndicesOf(ord(p), |s.entries|) && t < |ord(p)| && t + 1 == |ord(p)|
    ensures Below(w.pristine(p), At(s.entries, ord(p)), |ord(p)|) == s.entries[ord(p)[t]].replaceWith
  {
  }

  lemma OwnWordGoesHome(s: State, w: World, k: nat)
    requires Whole(s, w) && k < |s.entries| && s.entries[k].isPatched && NeedsTrampoline(s.entries[k].process, s.entries[k].repl)
    ensures BranchesInto(s.entries[k].replaceWith, s.entries[k])
  {
    hide Whole, SiteOf, Reachable, Restorable, NeedsTrampoline, Decode, OwnCells, EntryLaidOut;
    PatchedAnyhow(s, w, k);
    BranchWord(s.entries[k]);
    HomeIsLaidOut(s, w, k);
    TrampolineIsOwn(s.env, w, s.entries[k]);
  }

  lemma HomeIsLaidOut(s: State, w: World, k: nat)
    requires Whole(s, w) && k < |s.entries|
    ensures EntryLaidOut(s.env, w, s.entries[k])
  {
    hide Whole, EntryLaidOut, OwnCells;
    WholeIsSteady(s, w);
  }

  /** The next patch above has saved the branch word. */
  lemma SavedAbove(s: State, w: World, ord: Order, p: Addr, t: nat)
    requires Stacked(s, w, ord) && p !in w.data && IndicesOf(ord(p), |s.entries|) && t + 1 < |ord(p)|
    ensures s.entries[ord(p)[t + 1]].isPatched && s.entries[ord(p)[t + 1]].replaced == s.entries[ord(p)[t]].replaceWith
    ensures ord(p)[t + 1] != ord(p)[t]
  {
    hide Whole;
    assert StackedAt(s, w, ord(p), p);
    var es := At(s.entries, ord(p));
    assert es[t + 1].replaced == Below(w.pristine(p), es, t + 1);
  }

  /** Without a trampoline nothing branches into the buffers. */
  lemma NoTrampolineIsNotReached(s: State, w: World, k: nat, r: State)
    requires LaidOut(s, w) && ReplacementsApart(s) && k < |s.entries| && !NeedsTrampoline(s.entries[k].process, s.entries[k].repl)
    requires WordsAmong(r, w, s.entries) && (forall i :: 0 <= i < |r.entries| && r.entries[i].isPatched ==> r.entries[i].phys !in w.data)
    requires forall a :: a !in w.data ==> !BranchesInto(w.pristine(a), s.entries[k])
    ensures !Reached(r, w, s.entries[k])
  {
    hide LaidOut, ReplacementsApart, ReplacementWord, NeedsTrampoline, BranchesInto;
    forall i: nat | i < |s.entries|
      ensures !BranchesInto(ReplacementWord(s.entries[i].process, s.entries[i].repl, s.entries[i].jumpData), s.entries[k])
    {
      WordGoesOnlyHome(s, w, i, k);
    }
    forall a | a !in w.data
      ensures !BranchesInto(r.mem(a), s.entries[k])
    {
      assert FromAmong(r.mem(a), w.pristine(a), s.entries);
    }
    forall j | 0 <= j < |r.entries| && r.entries[j].isPatched
      ensures !BranchesInto(r.entries[j].replaced, s.entries[k])
    {
      assert FromAmong(r.entries[j].replaced, w.pristine(r.entries[j].phys), s.entries);
    }
  }

  /** The state after the restores of a removal, and its order. */
  lemma AfterRestores(s: State, w: World, ord: Order, k: nat) returns (ord1: Order)
    requires Stacked(s, w, ord) && ReplacementsApart(s) && k < |s.entries|
    ensures var s1 := Unstacked(s, k);
            && Stacked(s1, w, ord1) && ReplacementsApart(s1) && |s1.entries| == |s.entries| && s1.env == s.env
            && OffOrSame(s.entries, s1.entries)
  {
    hide Whole, ReplacementsApart, StackedAt, OffOrSame, LaterFrom, RestoreMany, RestoreEntry, TriedAll;
    WholeOfStacked(s, w, ord);
    UnstackedKeepsWhole(s, w, k);
    ApartAfterUnstacked(s, w, k);
    if s.entries[k].isPatched {
      UnstackedTries(s, w, ord, k);
      ord1 := Instead(ord, s.entries[k].phys, TriedAll(ord(s.entries[k].phys), LaterFrom(s.entries, k, k)));
    } else {
      ord1 := ord;
    }
  }

  lemma WholeOfStacked(s: State, w: World, ord: Order)
    requires Stacked(s, w, ord)
    ensures Whole(s, w)
  {
    hide Whole;
  }

  lemma ApartAfterUnstacked(s: State, w: World, k: nat)
    requires Whole(s, w) && ReplacementsApart(s) && k < |s.entries|
    ensures ReplacementsApart(Unstacked(s, k))
  {
    hide Whole, OwnCells, NeedsTrampoline, Unstacked;
    var r := Unstacked(s, k);
    UnstackedKeepsWhole(s, w, k);
    forall i: nat | i < |s.entries|
      ensures OwnCells(r.entries[i]) == OwnCells(s.entries[i])
    {
      SameConfigReflexive();
      assert r.entries[i] == s.entries[i] || r.entries[i] == Off(s.entries[i]);
      SameBuffersSameLayout(s.env, w, s.entries[i], r.entries[i]);
    }
  }

  /**
   A removal as written, whatever the order of patches: afterwards a word of code or a displaced word
   branches into the buffers that were given back if and only if the removed patch had a trampoline
   and lay, in memory, below a patch that is listed before it or before another one in between.
   */
  lemma FreedBuffersAreReachedIff(s: State, w: World, ord: Order, k: nat, t: nat)
    requires Stacked(s, w, ord) && ReplacementsApart(s) && k < |s.entries|
    requires forall a :: a !in w.data ==> !BranchesInto(w.pristine(a), s.entries[k])
    requires s.entries[k].isPatched ==> t < |ord(s.entries[k].phys)| && ord(s.entries[k].phys)[t] == k
    ensures var r, e := Remove(s, k, false), s.entries[k];
            && r.Some?
            && (Reached(r.value, w, e) <==>
                  e.isPatched && NeedsTrampoline(e.process, e.repl) && !AscendsFrom(ord(e.phys), t))
  {
    hide Whole, Stacked, ReplacementsApart, BranchesInto, NeedsTrampoline, Unstacked, Erase, PatchMany, LaterFrom, Reached, AscendsFrom, BlocksOf, OffOrSame, SameConfig;
    var s1 := Unstacked(s, k);
    var s2 := s1.(entries := Erase(s1.entries, k));
    var e, idxs := s.entries[k], Shifted(LaterFrom(s.entries, k, k + 1));
    WholeOfStacked(s, w, ord);
    var ord1 := AfterRestores(s, w, ord, k);
    WholeOfStacked(s1, w, ord1);
    EraseKeepsWhole(s1, s2, w, k);
    ErasedLength(s1.entries, k);
    OffOrSameConfig(s.entries, s1.entries);
    SameReach(s.env, w, s.entries[k], s1.entries[k]);
    HeapReachesNothing();
    if e.isPatched {
      RemovalTakesOffIff(s, w, ord, k, t);
    }
    if s1.entries[k].isPatched {
      if NeedsTrampoline(e.process, e.repl) {
        StuckIsReached(s1, w, ord1, k, s2, idxs);
      } else {
        StuckWithoutTrampoline(s1, w, ord1, k, s2, idxs);
      }
    } else {
      OffIsNotReached(s1, w, ord1, k);
      ErasedReachesLess(s1, w, k, e);
    }
  }

  /**
   A removal as written that cannot take its patch off: of the later patches listed with its address,
   all that resolve are on afterwards, those that the restores have taken off as well as those that
   had been waiting.
   */
  lemma StuckRemovalReapplies(s: State, w: World, ord: Order, k: nat, t: nat)
    requires Stacked(s, w, ord) && ReplacementsApart(s) && k < |s.entries| && s.entries[k].isPatched
    requires t < |ord(s.entries[k].phys)| && ord(s.entries[k].phys)[t] == k && !AscendsFrom(ord(s.entries[k].phys), t)
    ensures var r, es := Remove(s, k, false), s.entries;
            && r.Some? && |r.value.entries| == |es| - 1
            && forall j :: k < j < |es| && es[j].phys == es[k].phys && SiteOf(s.env, w.pristine, es[j]).Resolved?
                 ==> r.value.entries[j - 1].isPatched
  {
    hide Whole, Stacked, ReplacementsApart, Unstacked, Erase, PatchMany, LaterFrom, Shifted, AscendsFrom, BlocksOf, OffOrSame, SiteOf;
    var s1 := Unstacked(s, k);
    var s2, later := s1.(entries := Erase(s1.entries, k)), LaterFrom(s.entries, k, k + 1);
    WholeOfStacked(s, w, ord);
    UnstackedKeepsWhole(s, w, k);
    EraseKeepsWhole(s1, s2, w, k);
    ErasedLength(s1.entries, k);
    RemovalTakesOffIff(s, w, ord, k, t);
    AllApplied(s2, w, Shifted(later));
    LaterMeans(s.entries, k, k + 1);
    forall j | k < j < |s.entries| && s.entries[j].phys == s.entries[k].phys && SiteOf(s.env, w.pristine, s.entries[j]).Resolved?
      ensures PatchMany(s2, Shifted(later)).value.entries[j - 1].isPatched
    {
      ErasedAt(s1.entries, k, j - 1);
      OffIsAtTheSameSite(s, s1, w, j);
      ShiftedMember(later, j);
    }
  }

  lemma OffIsAtTheSameSite(s: State, s1: State, w: World, j: nat)
    requires OnlyRestored(s, s1, w) && j < |s.entries|
    ensures |s1.entries| == |s.entries| && SiteOf(s1.env, w.pristine, s1.entries[j]) == SiteOf(s.env, w.pristine, s.entries[j])
  {
  }

  lemma ShiftedMember(idxs: seq<nat>, j: nat)
    requires (forall i :: 0 <= i < |idxs| ==> 0 < idxs[i]) && 0 < j && j in idxs
    ensures j - 1 in Shifted(idxs)
  {
    var i :| 0 <= i < |idxs| && idxs[i] == j;
    assert Shifted(idxs)[i] == j - 1;
  }

  /** PatchFunction on any entries in any order: those that resolve are patched, and none is taken off. */
  lemma {:induction false} AllApplied(s: State, w: World, idxs: seq<nat>)
    requires Whole(s, w) && IndicesOf(idxs, |s.entries|)
    ensures var r := PatchMany(s, idxs);
            && r.Some?
            && forall i :: 0 <= i < |s.entries| && (s.entries[i].isPatched || (i in idxs && SiteOf(s.env, w.pristine, s.entries[i]).Resolved?))
                 ==> r.value.entries[i].isPatched
    decreases |idxs|
  {
    hide Whole, PatchEntry, SiteOf;
    if idxs != [] {
      var k := idxs[0];
      var s' := OneApplied(s, w, k);
      AllApplied(s', w, idxs[1..]);
    }
  }

  lemma OneApplied(s: State, w: World, k: nat) returns (s': State)
    requires Whole(s, w) && k < |s.entries|
    ensures PatchEntry(s, k) == Some(s') && Whole(s', w) && |s'.entries| == |s.entries|
    ensures forall i :: 0 <= i < |s.entries| ==> SiteOf(s'.env, w.pristine, s'.entries[i]) == SiteOf(s.env, w.pristine, s.entries[i])
    ensures forall i :: 0 <= i < |s.entries| && (s.entries[i].isPatched || (i == k && SiteOf(s.env, w.pristine, s.entries[i]).Resolved?))
              ==> s'.entries[i].isPatched
  {
    hide Whole, Steady, PatchEntry, SiteOf, PatchedState, SameBuffers;
    WholeIsSteady(s, w);
    s' := PatchAny(s, w, k);
  }

  lemma SameReach(env: Env, w: World, e: Entry, f: Entry)
    requires SameConfig(e, f)
    ensures OwnCells(e) == OwnCells(f) && e.process == f.process && e.repl == f.repl
    ensures forall v :: BranchesInto(v, e) <==> BranchesInto(v, f)
    ensures forall r: State, w: World :: Reached(r, w, e) <==> Reached(r, w, f)
  {
    hide Cells, Decode;
    SameBuffersSameLayout(env, w, e, f);
  }

  lemma HeapReachesNothing()
    ensures forall s: State, w, heap, e :: Reached(s.(heap := heap), w, e) <==> Reached(s, w, e)
  {
    hide BranchesInto;
  }

  lemma ErasedReachesLess(s: State, w: World, k: nat, e: Entry)
    requires k < |s.entries| && !Reached(s, w, e)
    ensures !Reached(s.(entries := Erase(s.entries, k)), w, e)
  {
    hide BranchesInto, Erase;
    ErasedLength(s.entries, k);
    forall i: nat | i < |s.entries| - 1
      ensures Erase(s.entries, k)[i] == s.entries[OldIndex(k, i)]
    {
      ErasedAt(s.entries, k, i);
    }
  }

  lemma StuckWithoutTrampoline(s: State, w: World, ord: Order, k: nat, s2: State, idxs: seq<nat>)
    requires Stacked(s, w, ord) && ReplacementsApart(s) && k < |s.entries| && !NeedsTrampoline(s.entries[k].process, s.entries[k].repl)
    requires s2 == s.(entries := Erase(s.entries, k)) && Whole(s2, w) && IndicesOf(idxs, |s2.entries|)
    requires forall a :: a !in w.data ==> !BranchesInto(w.pristine(a), s.entries[k])
    ensures PatchMany(s2, idxs).Some? && !Reached(PatchMany(s2, idxs).value, w, s.entries[k])
  {
    hide Whole, Stacked, LaidOut, Steady, ReplacementsApart, BranchesInto, NeedsTrampoline, PatchMany, Erase, Reached, WordsAmong, AllFrom, SameConfig;
    WholeOfStacked(s, w, ord);
    WholeIsSteady(s, w);
    StackedWordsAmong(s, w, ord);
    ErasedWordsAmong(s, w, k, s2);
    PatchManyWords(s2, w, idxs, s.entries);
    PatchManyKeepsWhole(s2, w, idxs);
    var r := PatchMany(s2, idxs).value;
    forall i: nat | i < |r.entries| && r.entries[i].isPatched
      ensures r.entries[i].phys !in w.data
    {
      CodeOfPatched(r, w, i);
    }
    NoTrampolineIsNotReached(s, w, k, r);
  }

  lemma CodeOfPatched(s: State, w: World, i: nat)
    requires Whole(s, w) && i < |s.entries| && s.entries[i].isPatched
    ensures s.entries[i].phys !in w.data
  {
    hide Whole, SiteOf, Reachable, Restorable;
    PatchedAnyhow(s, w, i);
  }

  lemma ErasedWordsAmong(s: State, w: World, k: nat, s2: State)
    requires k < |s.entries| && WordsAmong(s, w, s.entries) && s2 == s.(entries := Erase(s.entries, k))
    ensures WordsAmong(s2, w, s.entries) && AllFrom(s2.entries, s.entries)
  {
    hide FromAmong, Erase, SameConfig;
    SameConfigReflexive();
    ErasedLength(s.entries, k);
    forall i: nat | i < |s.entries| - 1
      ensures Erase(s.entries, k)[i] == s.entries[OldIndex(k, i)]
    {
      ErasedAt(s.entries, k, i);
    }
    forall j | 0 <= j < |s2.entries|
      ensures IsFrom(s2.entries[j], s.entries)
    {
      assert SameConfig(s.entries[OldIndex(k, j)], s2.entries[j]);
    }
  }

  // ----- what a sweep out of order leads to -----

  /**
   The sweep of a list in which entry `j` is patched above the waiting entry `i` puts `i` on top of
   `j`. If `j` is removed next, as written, RestoreFunction refuses to take it off; its trampoline is
   given back all the same, and is still branched to.
   */
  lemma RemovalAfterDisorder(s: State, w: World, i: nat, j: nat) returns (s': State)
    requires i < j < |s.entries| && s.entries[j].isPatched && !s.entries[i].isPatched
    requires GoesTo(s.env, w.pristine, s.entries[i], s.entries[j].phys) && NeedsTrampoline(s.entries[j].process, s.entries[j].repl)
    requires Pre(s, w) && SitesApart(s, w)
    requires forall a :: a !in w.data ==> !BranchesInto(w.pristine(a), s.entries[j])
    ensures Sweep(s) == Some(s') && |s'.entries| == |s.entries| && s'.entries[j] == s.entries[j]
    ensures s'.entries[i].isPatched && s'.entries[i].phys == s.entries[j].phys
    ensures Remove(s', j, false).Some? && Reached(Remove(s', j, false).value, w, s.entries[j])
  {
    hide Pre, Whole, Stacked, SitesApart, ReplacementsApart, PristineApart, BranchesInto, NeedsTrampoline, Sweep, Remove, Reached, Waiting, SameConfig, GoesTo, SamePatches, Extends;
    var p := s.entries[j].phys;
    PreStacked(s, w);
    TargetOf(s, w, j);
    var ord := ListPositions(s);
    var ord' := SweepTops(s, w, ord);
    s' := Sweep(s).value;
    SweptApart(s, w);
    WholeOfStacked(s', w, ord');
    OnTopOfIt(s, w, s', i, j);
    StackedMeans(s, w, ord, p);
    StackedMeans(s', w, ord', p);
    var t, u := HigherUp(ord(p), ord'(p), ord, ord', p, i, j);
    FreedBuffersAreReachedIff(s', w, ord', j, t);
  }

  lemma SweptApart(s: State, w: World)
    requires Pre(s, w) && SitesApart(s, w)
    ensures Sweep(s).Some? && ReplacementsApart(Sweep(s).value)
    ensures SamePatches(s.env, w.pristine, s.entries, Sweep(s).value.entries) && Sweep(s).value.env == s.env
  {
    hide Pre, Whole, SitesApart, ReplacementsApart, PristineApart, Sweep, Waiting, SamePatches, CarriesAt;
    PreCarries(s, w);
    SweepCarries(s, w, ListOrder(s));
    SameSitesApart(s, w, Sweep(s).value);
  }

  lemma OnTopOfIt(s: State, w: World, s': State, i: nat, j: nat)
    requires Whole(s', w) && s'.env == s.env && SamePatches(s.env, w.pristine, s.entries, s'.entries) && !Waiting(s', w, i)
    requires i < |s.entries| && j < |s.entries| && !s.entries[i].isPatched
    requires GoesTo(s.env, w.pristine, s.entries[i], s.entries[j].phys)
    ensures s'.entries[i].isPatched && s'.entries[i].phys == s.entries[j].phys
  {
    hide Whole, SamePatches, GoesTo, Waiting;
    SweptIsPatched(s, w, s', i, s.entries[j].phys);
  }

  lemma HigherUp(q: seq<nat>, q': seq<nat>, ord: Order, ord': Order, p: Addr, i: nat, j: nat) returns (t: nat, u: nat)
    requires Extends(ord, ord') && q == ord(p) && q' == ord'(p)
    requires i < j && j in q && i !in q && i in q'
    ensures t < u < |q'| && q'[t] == j && q'[u] == i && !AscendsFrom(q', t)
  {
    t :| 0 <= t < |q| && q[t] == j;
    u :| 0 <= u < |q'| && q'[u] == i;
    assert forall v :: 0 <= v < |q| ==> q'[v] == q'[..|q|][v] == q[v];
    assert forall v :: 0 <= v < |q| ==> q[v] != i;
    assert u >= |q|;
  }
}
