/**
 The order in which patches were applied. As long as chains are in list order it is the order of the
 list; after a sweep that patches an entry below a patched one it no longer is. The memory holds the
 stack in the order of application all the same.
 */
module PatchOrder {
  import opened Words
  import opened CodeGen
  import opened Loading
  import opened Dispatch
  import opened PatchStack
  import opened Writing
  import opened Chain
  import opened Keeping
  import opened Removal
  import opened Rebuilding
  import opened Undoing
  import opened Distinctness

  /** For each physical address the patches on it, from the first applied to the last. */
  type Stacks = Addr -> seq<Entry>

  /** `es` are listed patches on `p`, each has saved the word of the one before, and memory has the word of the last. */
  ghost predicate CarriesAt(s: State, w: World, es: seq<Entry>, p: Addr) {
    && Linked(w.pristine(p), es) && s.mem(p) == Below(w.pristine(p), es, |es|)
    && forall t :: 0 <= t < |es| ==> es[t] in s.entries && es[t].isPatched && es[t].phys == p
  }

  ghost predicate Carries(s: State, w: World, st: Stacks) {
    Whole(s, w) && forall p :: p !in w.data ==> CarriesAt(s, w, st(p), p)
  }

  /** The patches on each address in list order. */
  function ListOrder(s: State): Stacks {
    (p: Addr) => On(s.entries, p)
  }

  lemma PreCarries(s: State, w: World)
    requires Pre(s, w)
    ensures Carries(s, w, ListOrder(s))
  {
    PreIsWhole(s, w);
    hide Whole, Assumed, LaidOut, Located, WordsRight, BuffersFilled, On, Linked;
    forall p | p !in w.data
      ensures CarriesAt(s, w, ListOrder(s)(p), p)
    {
      assert ChainAt(s.mem, w.pristine, s.entries, p);
      forall t | 0 <= t < |On(s.entries, p)|
        ensures On(s.entries, p)[t] in s.entries && On(s.entries, p)[t].isPatched && On(s.entries, p)[t].phys == p
      {
        var i := OnIndex(s.entries, p, t);
      }
    }
  }

  // ----- one more patch -----

  function Pushed(st: Stacks, e: Entry): Stacks {
    (p: Addr) => st(p) + if p == e.phys then [e] else []
  }

  /** Patching any entry puts it on top of the stack of its address, wherever it is in the list. */
  lemma PatchCarries(s: State, w: World, st: Stacks, k: nat, eff: Addr, phys: Addr)
    requires k < |s.entries| && About(s, w, k, eff, phys) && Carries(s, w, st)
    ensures Carries(PatchedState(s, k, eff, phys), w, Pushed(st, PatchedEntry(s, k, eff, phys)))
  {
    hide Whole, Steady, SiteOf, ReplacementWord, PatchWrites, Linked;
    var s', e := PatchedState(s, k, eff, phys), PatchedEntry(s, k, eff, phys);
    PatchKeepsWhole(s, w, k, eff, phys);
    forall p | p !in w.data
      ensures CarriesAt(s', w, Pushed(st, e)(p), p)
    {
      PatchedCodeMemory(s, w, k, eff, phys, p);
      ElementsStay(s, s', w, st(p), p, k, e);
      if p == phys {
        LinkedMore(w.pristine(p), st(p), e);
      } else {
        assert st(p) + [] == st(p);
      }
    }
  }

  lemma ElementsStay(s: State, s': State, w: World, es: seq<Entry>, p: Addr, k: nat, e: Entry)
    requires CarriesAt(s, w, es, p) && k < |s.entries| && !s.entries[k].isPatched && s'.entries == s.entries[k := e]
    ensures forall t :: 0 <= t < |es| ==> es[t] in s'.entries
    ensures e in s'.entries
  {
    hide Linked;
    assert s'.entries[k] == e;
    forall t | 0 <= t < |es|
      ensures es[t] in s'.entries
    {
      var i :| 0 <= i < |s.entries| && s.entries[i] == es[t];
      assert s'.entries[i] == es[t];
    }
  }

  // ----- many -----

  /** Those of `idxs` that have come to be patched at `p` on the way from `s` to `r`, in that order. */
  function Applied(s: State, r: State, idxs: seq<nat>, p: Addr): seq<Entry>
    requires IndicesOf(idxs, |s.entries|) && |r.entries| == |s.entries|
    decreases |idxs|
  {
    if idxs == [] then [] else
      (if Becomes(s, r, idxs[0], p) then [r.entries[idxs[0]]] else []) + Applied(s, r, idxs[1..], p)
  }

  predicate Becomes(s: State, r: State, i: nat, p: Addr)
    requires i < |s.entries| && |r.entries| == |s.entries|
  {
    !s.entries[i].isPatched && r.entries[i].isPatched && r.entries[i].phys == p
  }

  function Grown(st: Stacks, s: State, r: State, idxs: seq<nat>): Stacks
    requires IndicesOf(idxs, |s.entries|) && |r.entries| == |s.entries|
  {
    (p: Addr) => st(p) + Applied(s, r, idxs, p)
  }

  lemma {:induction false} AppliedFrom(s: State, s': State, r: State, idxs: seq<nat>, p: Addr)
    requires IndicesOf(idxs, |s.entries|) && |r.entries| == |s.entries| == |s'.entries|
    requires forall t :: 0 <= t < |idxs| ==> s.entries[idxs[t]].isPatched == s'.entries[idxs[t]].isPatched
    ensures Applied(s, r, idxs, p) == Applied(s', r, idxs, p)
    decreases |idxs|
  {
    if idxs != [] {
      AppliedFrom(s, s', r, idxs[1..], p);
    }
  }

  /** Patching any entries in any order: the stacks grow by what has been patched, in that order. */
  lemma {:induction false} PatchManyCarries(s: State, w: World, st: Stacks, idxs: seq<nat>)
    requires Carries(s, w, st) && IndicesOf(idxs, |s.entries|) && Distinct(idxs)
    ensures var r := PatchMany(s, idxs);
            && r.Some? && Carries(r.value, w, Grown(st, s, r.value, idxs))
            && r.value.env == s.env && r.value.heap == s.heap
            && (forall i :: 0 <= i < |s.entries| && !(i in idxs && Waiting(s, w, i)) ==> r.value.entries[i] == s.entries[i])
            && (forall i :: 0 <= i < |s.entries| ==> (Waiting(r.value, w, i) <==> Waiting(s, w, i) && i !in idxs))
            && SamePatches(s.env, w.pristine, s.entries, r.value.entries)
    decreases |idxs|
  {
    hide Carries, Grown, Waiting, PatchEntry, SiteOf, SamePatches, Becomes;
    if idxs == [] {
      SamePatchesReflexive(s.env, w.pristine, s.entries);
      GrownByNone(s, st);
      SameStacks(s, w, st, Grown(st, s, s, []));
    } else {
      var k, rest := idxs[0], idxs[1..];
      assert idxs == [k] + rest;
      var s', st' := PatchOneCarries(s, w, st, k);
      forall t | 0 <= t < |rest|
        ensures rest[t] != k
      {
        assert rest[t] == idxs[t + 1];
      }
      PatchManyCarries(s', w, st', rest);
      var r := PatchMany(s', rest).value;
      SamePatchesTransitive(s.env, w.pristine, s.entries, s'.entries, r.entries);
      assert r.entries[k] == s'.entries[k];
      GrownInTwo(s, s', r, st, st', k, rest);
      SameStacks(r, w, Grown(st', s', r, rest), Grown(st, s, r, idxs));
    }
  }

  lemma GrownInTwo(s: State, s': State, r: State, st: Stacks, st': Stacks, k: nat, rest: seq<nat>)
    requires k < |s.entries| == |s'.entries| == |r.entries| && r.entries[k] == s'.entries[k]
    requires IndicesOf(rest, |s.entries|) && IndicesOf([k] + rest, |s.entries|) && k !in rest
    requires forall i :: 0 <= i < |s.entries| && i != k ==> s'.entries[i] == s.entries[i]
    requires forall p :: st'(p) == st(p) + if Becomes(s, s', k, p) then [s'.entries[k]] else []
    ensures forall p :: Grown(st', s', r, rest)(p) == Grown(st, s, r, [k] + rest)(p)
  {
    hide Becomes;
    forall p: Addr
      ensures Grown(st', s', r, rest)(p) == Grown(st, s, r, [k] + rest)(p)
    {
      AppliedFrom(s, s', r, rest, p);
      var one := if Becomes(s, s', k, p) then [s'.entries[k]] else [];
      assert Becomes(s, s', k, p) == Becomes(s, r, k, p) by { BecomesSame(s, s', r, k, p); }
      assert ([k] + rest)[1..] == rest;
      assert Applied(s, r, [k] + rest, p) == one + Applied(s, r, rest, p);
      assert (st(p) + one) + Applied(s', r, rest, p) == st(p) + (one + Applied(s, r, rest, p));
    }
  }

  lemma GrownByNone(s: State, st: Stacks)
    ensures forall p :: Grown(st, s, s, [])(p) == st(p)
  {
  }

  lemma BecomesSame(s: State, s': State, r: State, k: nat, p: Addr)
    requires k < |s.entries| == |s'.entries| == |r.entries| && r.entries[k] == s'.entries[k]
    ensures Becomes(s, s', k, p) == Becomes(s, r, k, p)
  {
  }

  lemma SameStacks(s: State, w: World, st: Stacks, st': Stacks)
    requires Carries(s, w, st) && forall p :: st(p) == st'(p)
    ensures Carries(s, w, st')
  {
    hide Whole, CarriesAt;
  }

  lemma PatchOneCarries(s: State, w: World, st: Stacks, k: nat) returns (s': State, st': Stacks)
    requires Carries(s, w, st) && k < |s.entries|
    ensures PatchEntry(s, k) == Some(s') && Carries(s', w, st')
    ensures s'.env == s.env && s'.heap == s.heap && |s'.entries| == |s.entries|
    ensures forall i :: 0 <= i < |s.entries| && !(i == k && Waiting(s, w, i)) ==> s'.entries[i] == s.entries[i]
    ensures forall i :: 0 <= i < |s.entries| ==> (Waiting(s', w, i) <==> Waiting(s, w, i) && i != k)
    ensures forall p :: st'(p) == st(p) + if Becomes(s, s', k, p) then [s'.entries[k]] else []
    ensures SamePatches(s.env, w.pristine, s.entries, s'.entries)
  {
    hide SiteOf, PatchEntry, PatchWrites, Filled, SameShape, SameConfig, SamePatches, CarriesAt, Assumed, LaidOut, PlainCode, Located, WordsRight, BuffersFilled;
    s' := PatchAny(s, w, k);
    ShapeAndConfig(s.env, w.pristine, s.entries, s'.entries);
    if Waiting(s, w, k) {
      var site := SiteOf(s.env, w.pristine, s.entries[k]);
      PatchCarries(s, w, st, k, site.eff, site.phys);
      st' := Pushed(st, PatchedEntry(s, k, site.eff, site.phys));
      PatchedEntryIs(s, k, site.eff, site.phys);
    } else {
      st' := st;
    }
  }

  lemma PatchedEntryIs(s: State, k: nat, eff: Addr, phys: Addr)
    requires k < |s.entries|
    ensures PatchedEntry(s, k, eff, phys).isPatched && PatchedEntry(s, k, eff, phys).phys == phys
    ensures PatchedState(s, k, eff, phys).entries[k] == PatchedEntry(s, k, eff, phys)
  {
    hide ReplacementWord, PatchWrites;
  }

  // ----- the sweep -----

  /**
   The patch-all loop, whatever is patched above what: it is never fatal, leaves nothing waiting, and
   puts what it patches on top of the stacks.
   */
  lemma SweepCarries(s: State, w: World, st: Stacks)
    requires Carries(s, w, st)
    ensures var r := Sweep(s);
            && r.Some? && |r.value.entries| == |s.entries|
            && Carries(r.value, w, Grown(st, s, r.value, Upto(|s.entries|)))
            && r.value.env == s.env && r.value.heap == s.heap
            && (forall i :: 0 <= i < |s.entries| && !Waiting(s, w, i) ==> r.value.entries[i] == s.entries[i])
            && (forall i :: 0 <= i < |s.entries| ==> !Waiting(r.value, w, i))
            && SamePatches(s.env, w.pristine, s.entries, r.value.entries)
  {
    hide Carries, Waiting, SamePatches;
    var idxs := Upto(|s.entries|);
    forall i | 0 <= i < |s.entries|
      ensures i in idxs
    {
      assert idxs[i] == i;
    }
    PatchManyCarries(s, w, st, idxs);
  }

  // ----- when a sweep keeps the chains in list order -----

  /**
   H5 and H3 for the patches that a sweep will leave behind: replacement functions do not lie in
   trampolines; patches without a trampoline that go to one address have different replacement
   functions; and the original word of a target is no branch word of a patch for it.
   */
  ghost predicate SitesApart(s: State, w: World) {
    && (forall i, j :: 0 <= i < |s.entries| && 0 <= j < |s.entries| ==> s.entries[i].repl !in OwnCells(s.entries[j]))
    && (forall i, j, a :: 0 <= i < |s.entries| && 0 <= j < |s.entries| && i != j
          && GoesTo(s.env, w.pristine, s.entries[i], a) && GoesTo(s.env, w.pristine, s.entries[j], a)
          && !NeedsTrampoline(s.entries[i].process, s.entries[i].repl)
          && !NeedsTrampoline(s.entries[j].process, s.entries[j].repl)
          ==> s.entries[i].repl != s.entries[j].repl)
    && (forall i, a :: 0 <= i < |s.entries| && GoesTo(s.env, w.pristine, s.entries[i], a) ==>
          w.pristine(a) != ReplacementWord(s.entries[i].process, s.entries[i].repl, s.entries[i].jumpData))
  }

  lemma SameSitesApart(s: State, w: World, r: State)
    requires SitesApart(s, w) && Whole(r, w) && r.env == s.env && SamePatches(s.env, w.pristine, s.entries, r.entries)
    ensures ReplacementsApart(r) && forall a :: PristineApart(r, w, a)
  {
    hide SiteOf, OwnCells, NeedsTrampoline, ReplacementWord, Steady, BuffersFilled, Emitted;
    forall i | 0 <= i < |r.entries|
      ensures OwnCells(r.entries[i]) == OwnCells(s.entries[i])
      ensures r.entries[i].isPatched ==> GoesTo(s.env, w.pristine, s.entries[i], r.entries[i].phys)
    {
      assert SameSite(s.env, w.pristine, s.entries[i], r.entries[i]);
      SameBuffersSameLayout(s.env, w, s.entries[i], r.entries[i]);
    }
  }

  lemma {:induction false} FirstApplied(s: State, r: State, idxs: seq<nat>, p: Addr, t: nat) returns (u: nat)
    requires IndicesOf(idxs, |s.entries|) && |r.entries| == |s.entries|
    requires t < |idxs| && Becomes(s, r, idxs[t], p)
    ensures u <= t && Becomes(s, r, idxs[u], p) && Applied(s, r, idxs, p) != [] && Applied(s, r, idxs, p)[0] == r.entries[idxs[u]]
    decreases |idxs|
  {
    if Becomes(s, r, idxs[0], p) {
      u := 0;
    } else {
      u := FirstApplied(s, r, idxs[1..], p, t - 1);
      u := u + 1;
    }
  }

  /** A waiting entry `i` below a patched one gets a word saved that does not belong below it. */
  lemma DisorderBreaks(s: State, w: World, r: State, i: nat, j: nat)
    requires Pre(s, w) && SitesApart(s, w) && Sweep(s) == Some(r)
    requires i < j < |s.entries| && s.entries[j].isPatched && !s.entries[i].isPatched
    requires GoesTo(s.env, w.pristine, s.entries[i], s.entries[j].phys) && s.entries[j].phys !in w.data
    ensures !Chained(r, w)
  {
    hide Pre, Whole, SitesApart, SamePatches, SiteOf, Sweep, CarriesAt, On, Linked, Becomes, Waiting, Chained, ReplacementsApart, PristineApart;
    var a := s.entries[j].phys;
    PreCarries(s, w);
    SweepCarries(s, w, ListOrder(s));
    SameSitesApart(s, w, r);
    SweptIsPatched(s, w, r, i, a);
    assert Upto(|s.entries|)[i] == i;
    var f := FirstApplied(s, r, Upto(|s.entries|), a, i);
    assert Upto(|s.entries|)[f] == f;
    var l := FoundByFirst(s, w, r, f, j, a);
    if Chained(r, w) {
      BelowIsOther(r, w, f, l, a);
    }
  }

  /** What was waiting is patched where it goes. */
  lemma SweptIsPatched(s: State, w: World, r: State, i: nat, a: Addr)
    requires Whole(r, w) && r.env == s.env && SamePatches(s.env, w.pristine, s.entries, r.entries) && !Waiting(r, w, i)
    requires i < |s.entries| && !s.entries[i].isPatched && GoesTo(s.env, w.pristine, s.entries[i], a)
    ensures Becomes(s, r, i, a)
  {
    hide SiteOf, Steady, BuffersFilled, WordsRight, SameConfig;
    assert SameSite(s.env, w.pristine, s.entries[i], r.entries[i]);
  }

  /** The first entry that the sweep patches at `a` has saved the word of the last one patched before. */
  lemma FoundByFirst(s: State, w: World, r: State, f: nat, j: nat, a: Addr) returns (l: nat)
    requires |r.entries| == |s.entries| && j < |s.entries| && f < |s.entries|
    requires s.entries[j].isPatched && s.entries[j].phys == a && a !in w.data
    requires forall i :: 0 <= i < |s.entries| && !Waiting(s, w, i) ==> r.entries[i] == s.entries[i]
    requires Carries(r, w, Grown(ListOrder(s), s, r, Upto(|s.entries|)))
    requires Applied(s, r, Upto(|s.entries|), a) != [] && Applied(s, r, Upto(|s.entries|), a)[0] == r.entries[f]
    ensures j <= l < |s.entries| && r.entries[l].isPatched && r.entries[l].phys == a
    ensures r.entries[f].replaced == r.entries[l].replaceWith
  {
    hide Whole, SiteOf, Applied;
    var before := On(s.entries, a);
    var all := Grown(ListOrder(s), s, r, Upto(|s.entries|))(a);
    assert all == before + Applied(s, r, Upto(|s.entries|), a);
    l := LastOn(s.entries, a, j);
    assert all[|before|] == r.entries[f] && all[|before| - 1] == before[|before| - 1] == s.entries[l];
    assert CarriesAt(r, w, all, a);
    assert all[|before|].replaced == Below(w.pristine(a), all, |before|);
    assert !Waiting(s, w, l);
  }

  lemma LastOn(es: seq<Entry>, a: Addr, j: nat) returns (l: nat)
    requires j < |es| && es[j].isPatched && es[j].phys == a
    ensures j <= l < |es| && On(es, a) != [] && es[l] == On(es, a)[|On(es, a)| - 1]
    ensures es[l].isPatched && es[l].phys == a
    decreases |es|
  {
    var n := |es| - 1;
    if es[n].isPatched && es[n].phys == a {
      l := n;
    } else {
      l := LastOn(es[..n], a, j);
    }
  }

  lemma ChainedAt(s: State, w: World, a: Addr)
    requires Chained(s, w) && a !in w.data
    ensures ChainAt(s.mem, w.pristine, s.entries, a)
  {
    hide ChainAt;
  }

  /** No entry, in an intact chain, has saved the word of a patch behind it. */
  lemma BelowIsOther(r: State, w: World, f: nat, l: nat, a: Addr)
    requires Whole(r, w) && Chained(r, w) && ReplacementsApart(r) && PristineApart(r, w, a) && a !in w.data
    requires f < l < |r.entries| && r.entries[f].isPatched && r.entries[f].phys == a && r.entries[l].isPatched && r.entries[l].phys == a
    ensures r.entries[f].replaced != r.entries[l].replaceWith
  {
    hide Whole, ReplacementsApart, Chained, On, ChainAt;
    ChainedAt(r, w, a);
    SavedIsBelow(r.mem, w.pristine, r.entries, f);
    var below := On(r.entries[..f], a);
    if below != [] {
      var g := OnIndex(r.entries[..f], a, |below| - 1);
      BranchWordsDiffer(r, w, g, l);
    }
  }

  /**
   The patch-all loop, which is never fatal, leaves every chain in list order if and only if no
   patched entry was above a waiting one of its address.
   */
  lemma SweepChainsIff(s: State, w: World)
    requires Pre(s, w) && SitesApart(s, w)
    ensures var r := Sweep(s);
            && r.Some? && (Chained(r.value, w) <==> Ordered(s, w))
            && (Ordered(s, w) ==> Inv(r.value, w))
  {
    hide Pre, Ordered, Carries, SitesApart, GoesTo, Sweep, Chained, Waiting, SamePatches, SameConfig;
    PreCarries(s, w);
    SweepCarries(s, w, ListOrder(s));
    if Ordered(s, w) {
      SweepEstablishesInv(s, w);
      InvIsChained(Sweep(s).value, w);
    } else {
      var i, j := OutOfOrder(s, w);
      TargetOf(s, w, j);
      DisorderBreaks(s, w, Sweep(s).value, i, j);
    }
  }

  lemma OutOfOrder(s: State, w: World) returns (i: nat, j: nat)
    requires !Ordered(s, w)
    ensures i < j < |s.entries| && s.entries[j].isPatched && !s.entries[i].isPatched
    ensures GoesTo(s.env, w.pristine, s.entries[i], s.entries[j].phys)
  {
    hide GoesTo;
    i, j :| 0 <= i < j < |s.entries| && s.entries[j].isPatched
            && GoesTo(s.env, w.pristine, s.entries[i], s.entries[j].phys) && !s.entries[i].isPatched;
  }

  lemma InvIsChained(s: State, w: World)
    requires Inv(s, w)
    ensures Chained(s, w)
  {
    hide Waiting, Chained;
  }

  lemma TargetOf(s: State, w: World, j: nat)
    requires Pre(s, w) && j < |s.entries| && s.entries[j].isPatched
    ensures s.entries[j].phys !in w.data
  {
    hide Pre, SiteOf, ChainAt, Reachable, Injective, IsRelativeBranch;
    PatchedFacts(s, w, j);
  }

  // ----- removal as written, and the next sweep -----

  lemma SitesApartSame(s: State, w: World, t: State)
    requires SitesApart(s, w) && t.env == s.env && SamePatches(s.env, w.pristine, s.entries, t.entries)
    ensures SitesApart(t, w)
  {
    hide SiteOf, OwnCells, NeedsTrampoline, ReplacementWord;
    forall i | 0 <= i < |t.entries|
      ensures OwnCells(t.entries[i]) == OwnCells(s.entries[i]) && t.entries[i].repl == s.entries[i].repl
      ensures t.entries[i].process == s.entries[i].process && t.entries[i].jumpData == s.entries[i].jumpData
      ensures SiteOf(t.env, w.pristine, t.entries[i]) == SiteOf(s.env, w.pristine, s.entries[i])
    {
      assert SameConfig(s.entries[i], t.entries[i]) && SameSite(s.env, w.pristine, s.entries[i], t.entries[i]);
      SameBuffersSameLayout(s.env, w, s.entries[i], t.entries[i]);
    }
    forall i, a | 0 <= i < |t.entries|
      ensures GoesTo(t.env, w.pristine, t.entries[i], a) <==> GoesTo(s.env, w.pristine, s.entries[i], a)
    {
    }
    hide GoesTo;
    forall i, j, a | 0 <= i < |t.entries| && 0 <= j < |t.entries| && i != j
                     && GoesTo(t.env, w.pristine, t.entries[i], a) && GoesTo(t.env, w.pristine, t.entries[j], a)
                     && !NeedsTrampoline(t.entries[i].process, t.entries[i].repl)
                     && !NeedsTrampoline(t.entries[j].process, t.entries[j].repl)
      ensures t.entries[i].repl != t.entries[j].repl
    {
      assert GoesTo(s.env, w.pristine, s.entries[i], a) && GoesTo(s.env, w.pristine, s.entries[j], a);
    }
  }

  /** A state that agrees in code and patched entries with one whose chains are in list order has them in list order. */
  lemma AgreeIsChained(t: State, b: State, w: World)
    requires Agree(t, b, w) && Chained(b, w)
    ensures Chained(t, w)
  {
    hide On, Linked, SamePatched;
    forall a | a !in w.data
      ensures ChainAt(t.mem, w.pristine, t.entries, a)
    {
      assert ChainAt(b.mem, w.pristine, b.entries, a);
      OnSamePatched(t.entries, b.entries, a);
    }
  }

  /**
   After a removal as written, a sweep yields the stack built anew from the remaining patches if and
   only if the list it finds is in order. Other patches may be waiting from earlier removals.
   */
  lemma SweepAfterRemovalIff(s: State, w: World, k: nat)
    requires Pre(s, w) && k < |s.entries| && SitesApart(Without(s, k), w)
    ensures var r := Remove(s, k, false);
            && r.Some? && Sweep(r.value).Some? && Rebuilt(Without(s, k), w).Some?
            && (Ordered(r.value, w) <==> Agree(Sweep(r.value).value, Rebuilt(Without(s, k), w).value, w))
  {
    hide Pre, Inv, Whole, Ordered, Chained, SitesApart, Remove, Sweep, Rebuilt, Agree, SamePatches, Without, Assumed, LaidOut;
    SweepAfterRemovalIsRebuilding(s, w, k);
    RemovalAsWrittenKeepsPre(s, w, k);
    var r := Remove(s, k, false).value;
    WrittenHasSamePatches(s, w, k);
    SitesApartSame(Without(s, k), w, r);
    SweepChainsIff(r, w);
    WithoutRebuilt(s, w, k);
    if Agree(Sweep(r).value, Rebuilt(Without(s, k), w).value, w) {
      AgreeIsChained(Sweep(r).value, Rebuilt(Without(s, k), w).value, w);
    }
  }

  lemma WrittenHasSamePatches(s: State, w: World, k: nat)
    requires Pre(s, w) && k < |s.entries|
    ensures var r := Remove(s, k, false);
            r.Some? && r.value.env == s.env == Without(s, k).env && SamePatches(s.env, w.pristine, Without(s, k).entries, r.value.entries)
  {
    hide Pre, Ordered, Remove, SamePatches, Unstacked, Erase, BlocksOf, Waiting;
    AsWrittenIsBeforeReapply(s, w, k);
    BeforeReapplyIsPre(s, w, k);
    BeforeReapplyPatches(s, w, k);
  }

  lemma WithoutRebuilt(s: State, w: World, k: nat)
    requires Pre(s, w) && k < |s.entries|
    ensures Rebuilt(Without(s, k), w).Some? && Chained(Rebuilt(Without(s, k), w).value, w)
  {
    hide Assumed, LaidOut, Inv, Chained, Located, WordsRight, BuffersFilled, Rebuilt, SamePatches, Erase;
    EraseKeepsLayout(s, Without(s, k), w, k);
    RebuiltIsInv(Without(s, k), w);
    InvIsChained(Rebuilt(Without(s, k), w).value, w);
  }

  /** Entry `i` will be waiting below entry `j` after the removal of entry `k` as written. */
  ghost predicate LeftBelow(s: State, w: World, k: nat, i: nat, j: nat)
    requires k < |s.entries|
  {
    && i < j < |s.entries| && i != k && j != k && s.entries[j].isPatched && !s.entries[i].isPatched
    && GoesTo(s.env, w.pristine, s.entries[i], s.entries[j].phys)
    && !(s.entries[k].isPatched && k < j && s.entries[j].phys == s.entries[k].phys)
  }

  /** The condition in terms of the state before the removal. */
  lemma RemovalIsOrderedIff(s: State, w: World, k: nat)
    requires Pre(s, w) && k < |s.entries|
    ensures var r := Remove(s, k, false);
            r.Some? && (Ordered(r.value, w) <==> forall i, j :: 0 <= i && 0 <= j ==> !LeftBelow(s, w, k, i, j))
  {
    hide Pre, Ordered, Remove, LeftBelow, OffFrom;
    RemovalAsWrittenKeepsPre(s, w, k);
    var r := Remove(s, k, false).value;
    WrittenEntries(s, w, k);
    if Ordered(r, w) {
      forall i, j | 0 <= i && 0 <= j
        ensures !LeftBelow(s, w, k, i, j)
      {
        if LeftBelow(s, w, k, i, j) {
          LeftBelowIsDisorder(s, r, w, k, i, j);
        }
      }
    } else {
      var i, j := OutOfOrder(r, w);
      DisorderWasLeft(s, r, w, k, i, j);
    }
  }

  /** What the removal as written makes of the list: later entries of a patched entry's address are off. */
  ghost predicate Remains(s: State, r: State, k: nat)
    requires k < |s.entries|
  {
    && r.env == s.env && |r.entries| == |s.entries| - 1
    && forall i: nat :: i < |r.entries| ==>
         var e := s.entries[OldIndex(k, i)];
         r.entries[i] == if s.entries[k].isPatched && i >= k && e.phys == s.entries[k].phys then Off(e) else e
  }

  lemma WrittenEntries(s: State, w: World, k: nat)
    requires Pre(s, w) && k < |s.entries|
    ensures Remove(s, k, false).Some? && Remains(s, Remove(s, k, false).value, k)
  {
    hide Pre, Ordered, Waiting, BlocksOf, RestoreMany, RestoreEntry, Erase;
    if s.entries[k].isPatched {
      RemovalAsWritten(s, w, k);
    } else {
      AsWrittenIsBeforeReapply(s, w, k);
      ErasedLength(s.entries, k);
      forall i: nat | i < |s.entries| - 1
        ensures Erase(s.entries, k)[i] == s.entries[OldIndex(k, i)]
      {
        ErasedAt(s.entries, k, i);
      }
    }
  }

  lemma LeftBelowIsDisorder(s: State, r: State, w: World, k: nat, i: nat, j: nat)
    requires Pre(s, w) && k < |s.entries| && Remains(s, r, k) && LeftBelow(s, w, k, i, j)
    ensures !Ordered(r, w)
  {
    hide Pre, SiteOf;
    var i', j' := if i < k then i else i - 1, if j < k then j else j - 1;
    assert OldIndex(k, i') == i && OldIndex(k, j') == j;
    OffHasSameShape(s.env, w.pristine, s.entries[i]);
    assert r.entries[j'].isPatched && r.entries[j'].phys == s.entries[j].phys;
    assert GoesTo(r.env, w.pristine, r.entries[i'], r.entries[j'].phys);
  }

  lemma DisorderWasLeft(s: State, r: State, w: World, k: nat, i: nat, j: nat)
    requires Pre(s, w) && k < |s.entries| && Remains(s, r, k)
    requires i < j < |r.entries| && r.entries[j].isPatched && !r.entries[i].isPatched
    requires GoesTo(r.env, w.pristine, r.entries[i], r.entries[j].phys)
    ensures LeftBelow(s, w, k, OldIndex(k, i), OldIndex(k, j))
  {
    hide Pre, SiteOf;
    var o := OldIndex(k, i);
    OffHasSameShape(s.env, w.pristine, s.entries[o]);
    if s.entries[o].isPatched {
      PlacedAt(s, w, o);
    }
  }

  lemma PlacedAt(s: State, w: World, i: nat)
    requires Pre(s, w) && i < |s.entries| && s.entries[i].isPatched
    ensures SiteOf(s.env, w.pristine, s.entries[i]) == Resolved(s.entries[i].eff, s.entries[i].phys)
  {
    hide Pre, SiteOf, ChainAt, Reachable, Injective, Restorable;
    PatchedFacts(s, w, i);
  }
}
