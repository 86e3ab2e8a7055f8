/**
 The reverse scan with its two address sets, against a description per address.
 */
module Scanning {
  import opened Words
  import opened Machine
  import opened CodeGen
  import opened Dispatch
  import opened PatchStack
  import opened Chain
  import opened Keeping

  /** The last position below `n` of an entry that is patched at `a`; -1 if there is none. */
  function LastAt(es: seq<Entry>, n: nat, a: Addr): int
    requires n <= |es|
  {
    if n == 0 then -1 else if es[n - 1].isPatched && es[n - 1].phys == a then n - 1 else LastAt(es, n - 1, a)
  }

  lemma {:induction false} LastAtMeans(es: seq<Entry>, n: nat, a: Addr)
    requires n <= |es|
    ensures var l := LastAt(es, n, a);
            && -1 <= l < n
            && (0 <= l ==> es[l].isPatched && es[l].phys == a)
            && (forall i :: l < i < n ==> !(es[i].isPatched && es[i].phys == a))
  {
    if n > 0 {
      LastAtMeans(es, n - 1, a);
    }
  }

  /** The code at `a` is still the one that the last patched entry of `a` has left. */
  predicate StillThere(mem: Memory, es: seq<Entry>, n: nat, a: Addr)
    requires n <= |es|
  {
    var l := LastAt(es, n, a);
    0 <= l < |es| ==> mem(a) == es[l].replaceWith
  }

  /** Whether the scan, having come down to position `n` with these sets, keeps the patches of `a`. */
  predicate Keeps(mem: Memory, readable: bool, es: seq<Entry>, n: nat, same: set<Addr>, gone: set<Addr>, a: Addr)
    requires n <= |es|
  {
    a in same || (a !in gone && (readable ==> StillThere(mem, es, n, a)))
  }

  lemma {:induction false} LastAtOfUpdated(es: seq<Entry>, n: nat, m: nat, e: Entry, a: Addr)
    requires n <= m < |es|
    ensures LastAt(es[m := e], n, a) == LastAt(es, n, a)
  {
    if n > 0 {
      LastAtOfUpdated(es, n - 1, m, e, a);
    }
  }

  lemma StillThereStep(mem: Memory, es: seq<Entry>, n: nat, a: Addr)
    requires 0 < n <= |es|
    ensures var e := es[n - 1];
            StillThere(mem, es, n, a) ==
            if e.isPatched && e.phys == a then mem(a) == e.replaceWith else StillThere(mem, es, n - 1, a)
  {
  }

  /** The scan from any point on: entries below `n` are turned off exactly when their address is not kept. */
  lemma {:induction false} ScanMeans(mem: Memory, readable: bool, es: seq<Entry>, n: nat, same: set<Addr>, gone: set<Addr>)
    requires n <= |es|
    ensures var r := Scan(mem, readable, es, n, same, gone);
            forall i: nat :: i < |es| ==>
              r[i] == if i < n && es[i].isPatched && !Keeps(mem, readable, es, n, same, gone, es[i].phys)
                      then Off(es[i]) else es[i]
    decreases n
  {
    hide StillThere, LastAt;
    if n > 0 {
      var e := es[n - 1];
      var m := n - 1;
      forall a: Addr
        ensures StillThere(mem, es, n, a) ==
                if e.isPatched && e.phys == a then mem(a) == e.replaceWith else StillThere(mem, es, m, a)
      {
        StillThereStep(mem, es, n, a);
      }
      if !e.isPatched || e.phys in same {
        ScanMeans(mem, readable, es, m, same, gone);
      } else if e.phys in gone {
        ScanMeansOff(mem, readable, es, n, same, gone, gone);
      } else if !readable {
        ScanMeans(mem, readable, es, m, same, gone);
      } else if mem(e.phys) == e.replaceWith {
        ScanMeans(mem, readable, es, m, same + {e.phys}, gone);
      } else {
        ScanMeansOff(mem, readable, es, n, same, gone, gone + {e.phys});
      }
    }
  }

  lemma {:induction false} ScanMeansOff(mem: Memory, readable: bool, es: seq<Entry>, n: nat, same: set<Addr>, gone: set<Addr>, gone': set<Addr>)
    requires 0 < n <= |es| && es[n - 1].isPatched && es[n - 1].phys !in same
    requires gone' == gone + {es[n - 1].phys}
    requires es[n - 1].phys in gone || (readable && mem(es[n - 1].phys) != es[n - 1].replaceWith)
    ensures var r := Scan(mem, readable, es[n - 1 := Off(es[n - 1])], n - 1, same, gone');
            forall i: nat :: i < |es| ==>
              r[i] == if i < n && es[i].isPatched && !Keeps(mem, readable, es, n, same, gone, es[i].phys)
                      then Off(es[i]) else es[i]
    decreases n, 0
  {
    hide Keeps, Scan;
    var m, e := n - 1, es[n - 1];
    ScanMeans(mem, readable, es[m := Off(e)], m, same, gone');
    forall a: Addr
      ensures Keeps(mem, readable, es[m := Off(e)], m, same, gone', a) <==> Keeps(mem, readable, es, n, same, gone, a)
    {
      KeepsBelowGone(mem, readable, es, n, same, gone, gone', a);
    }
    GoneIsNotKept(mem, readable, es, n, same, gone);
  }

  lemma GoneIsNotKept(mem: Memory, readable: bool, es: seq<Entry>, n: nat, same: set<Addr>, gone: set<Addr>)
    requires 0 < n <= |es| && es[n - 1].isPatched && es[n - 1].phys !in same
    requires es[n - 1].phys in gone || (readable && mem(es[n - 1].phys) != es[n - 1].replaceWith)
    ensures !Keeps(mem, readable, es, n, same, gone, es[n - 1].phys)
  {
  }

  /** What is kept below position `n` when its entry is found to be gone. */
  lemma KeepsBelowGone(mem: Memory, readable: bool, es: seq<Entry>, n: nat, same: set<Addr>, gone: set<Addr>, gone': set<Addr>, a: Addr)
    requires 0 < n <= |es| && es[n - 1].isPatched && es[n - 1].phys !in same
    requires gone' == gone + {es[n - 1].phys}
    requires es[n - 1].phys in gone || (readable && mem(es[n - 1].phys) != es[n - 1].replaceWith)
    ensures Keeps(mem, readable, es[n - 1 := Off(es[n - 1])], n - 1, same, gone', a) <==> Keeps(mem, readable, es, n, same, gone, a)
  {
    if a == es[n - 1].phys {
      GoneIsNotKept(mem, readable, es, n, same, gone);
    } else {
      LastAtOfUpdated(es, n - 1, n - 1, Off(es[n - 1]), a);
      LastAtMeans(es, n - 1, a);
    }
  }

  /**
   When reads succeed, all patched entries of an address stay patched if the last patched one in
   list order still matches memory, and otherwise all of them become unpatched. When reads fail,
   nothing is changed.
   */
  lemma CheckedMeans(s: State)
    ensures |Checked(s).entries| == |s.entries| && Checked(s).mem == s.mem && Checked(s).env == s.env && Checked(s).heap == s.heap
    ensures forall i: nat :: i < |s.entries| ==>
      var e := s.entries[i];
      Checked(s).entries[i] ==
        if e.isPatched && s.env.readable && !StillThere(s.mem, s.entries, |s.entries|, e.phys) then Off(e) else e
  {
    hide StillThere, Scan;
    ScanMeans(s.mem, s.env.readable, s.entries, |s.entries|, {}, {});
  }

  // ----- under the chain invariant -----

  lemma {:induction false} LastAtIsTopOfOn(es: seq<Entry>, n: nat, a: Addr)
    requires n <= |es|
    ensures var l, on := LastAt(es, n, a), On(es[..n], a);
            if l < 0 then on == [] else l < n && on != [] && on[|on| - 1] == es[l]
  {
    if n > 0 {
      LastAtIsTopOfOn(es, n - 1, a);
      assert es[..n][..n - 1] == es[..n - 1];
    } else {
      assert es[..0] == [];
    }
  }

  lemma ChainIsStillThere(mem: Memory, pristine: Memory, es: seq<Entry>, a: Addr)
    requires ChainAt(mem, pristine, es, a)
    ensures StillThere(mem, es, |es|, a)
  {
    hide On, LastAt, Linked;
    LastAtIsTopOfOn(es, |es|, a);
    assert es[..|es|] == es;
  }

  /**
   If the chain is intact at every code address outside `vanished`, and the code at the addresses in
   `vanished` is no branch word of a patch there, the scan leaves exactly the patches outside.
   */
  lemma CheckedLeavesTheLive(s: State, w: World, vanished: iset<Addr>)
    requires s.env.readable
    requires forall i :: 0 <= i < |s.entries| && s.entries[i].isPatched ==> s.entries[i].phys !in w.data
    requires forall a :: a !in w.data && a !in vanished ==> ChainAt(s.mem, w.pristine, s.entries, a)
    requires forall i :: 0 <= i < |s.entries| && s.entries[i].isPatched && s.entries[i].phys in vanished ==>
               s.mem(s.entries[i].phys) != s.entries[i].replaceWith
    ensures |Checked(s).entries| == |s.entries|
    ensures forall i: nat :: i < |s.entries| ==>
      Checked(s).entries[i] == if s.entries[i].isPatched && s.entries[i].phys in vanished then Off(s.entries[i]) else s.entries[i]
  {
    CheckedMeans(s);
    hide Checked, ChainAt;
    forall i: nat | i < |s.entries| && s.entries[i].isPatched
      ensures StillThere(s.mem, s.entries, |s.entries|, s.entries[i].phys) <==> s.entries[i].phys !in vanished
    {
      var a := s.entries[i].phys;
      LastAtMeans(s.entries, |s.entries|, a);
      if a !in vanished {
        ChainIsStillThere(s.mem, w.pristine, s.entries, a);
      }
    }
  }
}
