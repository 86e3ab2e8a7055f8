/**
 The module's entry points, working on the list of patch objects. Each method is proved equal to the
 function of module `PatchStack` that describes it.
 */
module Patcher {
  import opened Words
  import opened Machine
  import opened CodeGen
  import opened PatchStack
  import opened Writing
  import opened Chain
  import opened Keeping
  import opened Outcomes
  import opened Consoles
  import opened FunctionAddressProvider
  import opened PatchedFunctions

  ghost function Values(ps: seq<PatchedFunctionData>): (es: seq<Entry>)
    reads ps
    ensures |es| == |ps| && forall i :: 0 <= i < |ps| ==> es[i] == ps[i].Value()
  {
    seq(|ps|, i requires 0 <= i < |ps| reads ps => ps[i].Value())
  }

  // ----- function_patcher.cpp -----

  method PatchFunction(c: Console, provider: Provider, p: PatchedFunctionData) returns (ok: bool)
    requires Ready(c, provider) && !c.halted
    modifies p`realEffectiveFunctionAddress, p`realPhysicalFunctionAddress, p`replacedInstruction, p`replaceWithInstruction, p`isPatched
    modifies provider, c`mem, c`trace, c`halted
    ensures Ready(c, provider)
    ensures var r := PatchValue(c.env, old(c.mem), old(p.Value()));
            && (c.halted <==> r.Fatal?)
            && (r.Unchanged? ==> c.mem == old(c.mem) && p.Value() == old(p.Value()) && c.trace == old(c.trace))
            && (r.Done? ==> c.mem == r.mem && p.Value() == r.entry && c.trace == old(c.trace) + PatchWrites(c.env, p.Value()))
            && (!c.halted ==> ok == p.isPatched)
    ensures p.target.GivenAddress? ==>
              && p.realEffectiveFunctionAddress == old(p.realEffectiveFunctionAddress)
              && p.realPhysicalFunctionAddress == old(p.realPhysicalFunctionAddress)
  {
    hide UpdatedAddresses, BuffersUsable, Apply, PatchWrites, Filled, Ready, PatchValue, ShouldBePatched;
    PatchValueBySite(c.env, c.mem, p.Value());
    if p.isPatched {
      return true;
    }
    var should := p.ShouldBePatched(c);
    if !should {
      return false;
    }
    // The site is asked for anew each time; the entry remembers the last one.
    var updated := p.UpdateFunctionAddresses(c, provider);
    if c.halted || !updated {
      return false;
    }
    FilledTwice(old(p.Value()), p.Value(), p.realEffectiveFunctionAddress, p.realPhysicalFunctionAddress, c.mem(p.realPhysicalFunctionAddress));
    WriteTheRest(c, p);
    if c.halted {
      return false;
    }
    return true;
  }

  /** PatchFunction in the order in which it asks. */
  lemma PatchValueBySite(env: Env, mem: Memory, e: Entry)
    ensures PatchValue(env, mem, e) ==
            if e.isPatched || !ShouldBePatched(env, e) then Unchanged
            else match UpdatedAddresses(env, mem, e)
              case NotResolved => Unchanged
              case Untranslatable => Fatal
              case Resolved(eff, phys) =>
                if !env.readable || !BuffersUsable(e) then Fatal
                else Done(Apply(mem, PatchWrites(env, Filled(e, eff, phys, mem(phys)))), Filled(e, eff, phys, mem(phys)))
  {
    hide UpdatedAddresses, BuffersUsable, Apply, PatchWrites, Filled, ShouldBePatched;
  }

  lemma FilledTwice(e0: Entry, e: Entry, eff: Addr, phys: Addr, found: Word)
    requires e == e0.(eff := eff, phys := phys)
    ensures Filled(e, eff, phys, found) == Filled(e0, eff, phys, found)
    ensures BuffersUsable(e) <==> BuffersUsable(e0)
  {
    hide ReplacementWord, NeedsTrampoline, Short;
  }

  /** The part of PatchFunction behind the resolution of the address. */
  method WriteTheRest(c: Console, p: PatchedFunctionData)
    requires !c.halted
    modifies p`replacedInstruction, p`replaceWithInstruction, p`isPatched, c`mem, c`trace, c`halted
    ensures c.halted <==> !c.env.readable || !BuffersUsable(old(p.Value()))
    ensures !c.halted ==>
              p.isPatched &&
              var e := Filled(old(p.Value()), p.realEffectiveFunctionAddress, p.realPhysicalFunctionAddress,
                              old(c.mem)(p.realPhysicalFunctionAddress));
              && p.Value() == e
              && c.mem == Apply(old(c.mem), PatchWrites(c.env, e))
              && c.trace == old(c.trace) + PatchWrites(c.env, e)
  {
    hide BuffersUsable, Apply, BufferWrites, ReplacementWord;
    if !c.env.readable {
      c.OSFatal();
      return;
    }
    ghost var m0 := c.mem;
    p.replacedInstruction := c.mem(p.realPhysicalFunctionAddress);
    UsableWhatever(old(p.Value()), p.Value());
    FillBuffers(c, p);
    if c.halted {
      return;
    }
    // The last write is the one that callers notice.
    c.StorePhysical(p.realPhysicalFunctionAddress, p.replaceWithInstruction);
    p.isPatched := true;
    LastOfPatchWrites(c.env, m0, p.Value());
  }

  /** The two generators, one after the other. */
  method FillBuffers(c: Console, p: PatchedFunctionData)
    requires !c.halted
    modifies p`replaceWithInstruction, c`mem, c`trace, c`halted
    ensures c.halted <==> !BuffersUsable(old(p.Value()))
    ensures !c.halted ==>
              var e := old(p.Value());
              && p.Value() == e.(replaceWith := ReplacementWord(e.process, e.repl, e.jumpData))
              && c.mem == Apply(old(c.mem), BufferWrites(c.env, p.Value().(isPatched := true)))
              && c.trace == old(c.trace) + BufferWrites(c.env, p.Value().(isPatched := true))
  {
    hide Short, NeedsTrampoline, Apply, BlockWrites, BufferWrites, JumpToOriginalWords, TrampolineWords, ReplacementWord;
    ghost var m0, t0 := c.mem, c.trace;
    p.GenerateJumpToOriginal(c);
    if c.halted {
      return;
    }
    ghost var m1 := c.mem;
    p.GenerateReplacementJump(c);
    if c.halted {
      return;
    }
    BufferWritesInOrder(c.env, m0, t0, m1, p.Value());
  }

  lemma UsableWhatever(e: Entry, f: Entry)
    requires f == e.(replaced := f.replaced)
    ensures BuffersUsable(e) <==> BuffersUsable(f)
  {
  }

  lemma LastOfPatchWrites(env: Env, m: Memory, e: Entry)
    ensures Apply(m, PatchWrites(env, e)) == Updated(Apply(m, BufferWrites(env, e)), e.phys, e.replaceWith)
  {
    hide Apply, BufferWrites;
    ApplyLast(m, BufferWrites(env, e), e.phys, e.replaceWith);
  }

  lemma BufferWritesInOrder(env: Env, m0: Memory, t0: Writes, m1: Memory, e: Entry)
    requires var a := BlockWrites(env.xl, e.jumpToOriginal, JumpToOriginalWords(e.eff, e.replaced)) + [(env.xl(e.realCall), e.jumpToOriginal)];
             m1 == Apply(m0, a)
    ensures var a := BlockWrites(env.xl, e.jumpToOriginal, JumpToOriginalWords(e.eff, e.replaced)) + [(env.xl(e.realCall), e.jumpToOriginal)];
            var b := if NeedsTrampoline(e.process, e.repl)
                     then BlockWrites(env.xl, e.jumpData, TrampolineWords(e.process, env.plat, e.eff, e.replaced, e.repl))
                     else [];
            var ws := BufferWrites(env, e.(isPatched := true));
            && Apply(m0, ws) == Apply(m1, b)
            && t0 + ws == (t0 + a) + b
  {
    hide NeedsTrampoline, Apply, BlockWrites, JumpToOriginalWords, TrampolineWords;
    var a := BlockWrites(env.xl, e.jumpToOriginal, JumpToOriginalWords(e.eff, e.replaced)) + [(env.xl(e.realCall), e.jumpToOriginal)];
    var b := if NeedsTrampoline(e.process, e.repl)
             then BlockWrites(env.xl, e.jumpData, TrampolineWords(e.process, env.plat, e.eff, e.replaced, e.repl))
             else [];
    assert BufferWrites(env, e.(isPatched := true)) == a + b;
    ApplyAdd(m0, a, b);
  }

  method RestoreFunction(c: Console, p: PatchedFunctionData) returns (ok: bool)
    modifies p`isPatched, c`mem, c`trace
    ensures var e := old(p.Value());
            var does := e.isPatched && CanRestore(c.env, old(c.mem), e);
            && c.mem == (if does then Updated(old(c.mem), RestoreAddress(c.env, e), e.replaced) else old(c.mem))
            && p.Value() == (if does then Off(e) else e)
            && (ok <==> e.isPatched ==> CanRestore(c.env, old(c.mem), e))
            && (does <==> e.isPatched && e.replaced != 0 && e.eff != 0 && c.env.readable && old(c.mem)(e.phys) == e.replaceWith)
            && (does ==> c.mem == Updated(old(c.mem), if p.target.GivenAddress? then e.phys else c.env.xl(e.eff), e.replaced))
            && c.trace == old(c.trace) + if does then [(RestoreAddress(c.env, e), e.replaced)] else []
  {
    assert c.trace + [] == c.trace;
    if !p.isPatched {
      return true;
    }
    if p.replacedInstruction == 0 || p.realEffectiveFunctionAddress == 0 {
      return false;
    }
    var targetAddrPhys := p.realPhysicalFunctionAddress;
    if !p.target.GivenAddress? {
      targetAddrPhys := c.env.xl(p.realEffectiveFunctionAddress);
    }
    if !c.env.readable {
      return false;
    }
    var currentInstruction := c.mem(p.realPhysicalFunctionAddress);
    if currentInstruction != p.replaceWithInstruction {
      return false;
    }
    c.StorePhysical(targetAddrPhys, p.replacedInstruction);
    p.isPatched := false;
    return true;
  }

  lemma ErasedObjects(qs: seq<PatchedFunctionData>, k: nat)
    requires k < |qs| && forall i, j :: 0 <= i < j < |qs| ==> qs[i] != qs[j]
    ensures qs[k] !in qs[..k] + qs[k + 1..]
    ensures var rs := qs[..k] + qs[k + 1..];
            && |rs| == |qs| - 1 && (forall i :: 0 <= i < |rs| ==> rs[i] == if i < k then qs[i] else qs[i + 1])
            && (forall i, j :: 0 <= i < j < |rs| ==> rs[i] != rs[j])
  {
  }

  lemma InvalidatedAt(es: seq<Entry>, library: Option<Library>, i: nat)
    requires i < |es|
    ensures Invalidated(es, library)[i] ==
              if library.Some? && es[i].target.LibraryFunction? && es[i].target.library == library.value then Off(es[i]) else es[i]
  {
  }

  lemma NoneInvalidated(es: seq<Entry>)
    ensures Invalidated(es, None) == es
  {
  }

  lemma PatchEntryMeans(s: State, k: nat)
    requires k < |s.entries|
    ensures match PatchValue(s.env, s.mem, s.entries[k])
            case Unchanged => PatchEntry(s, k) == Some(s) && s.entries[k := s.entries[k]] == s.entries
            case Fatal => PatchEntry(s, k) == None
            case Done(mem', e') => PatchEntry(s, k) == Some(s.(mem := mem', entries := s.entries[k := e']))
  {
    hide PatchValue;
  }

  /** `idxs` are the later positions up to `i`; whether position `i` is one of them is decided by its address. */
  lemma LaterTaken(es: seq<Entry>, k: nat, i: nat, idxs: seq<nat>)
    requires k < i < |es| && LaterFrom(es, k, k + 1) == idxs + LaterFrom(es, k, i)
    ensures LaterFrom(es, k, k + 1) == (if es[i].phys == es[k].phys then idxs + [i] else idxs) + LaterFrom(es, k, i + 1)
  {
    hide LaterFrom;
    LaterStep(es, k, i);
    TakenTogether(idxs, if es[i].phys == es[k].phys then [i] else [], LaterFrom(es, k, i + 1));
    assert idxs + [] == idxs;
  }

  lemma LaterStep(es: seq<Entry>, k: nat, i: nat)
    requires k < |es| && i < |es|
    ensures LaterFrom(es, k, i) == (if es[i].phys == es[k].phys then [i] else []) + LaterFrom(es, k, i + 1)
  {
  }

  lemma TakenTogether(a: seq<nat>, b: seq<nat>, c: seq<nat>)
    ensures a + (b + c) == (a + b) + c
  {
  }

  lemma LaterEnd(es: seq<Entry>, k: nat)
    requires k < |es|
    ensures LaterFrom(es, k, |es|) == []
  {
  }

  lemma LaterIsLater(es: seq<Entry>, k: nat, j: nat)
    requires k < |es| && k < j <= |es|
    ensures forall t :: 0 <= t < |LaterFrom(es, k, j)| ==> k < LaterFrom(es, k, j)[t]
  {
  }

  lemma NeverTurnedOn(s: State, k: nat)
    requires k < |s.entries|
    ensures Unstacked(s, k).entries[k].isPatched ==> s.entries[k].isPatched
  {
    hide RestoreMany, RestoreEntry;
  }

  lemma ScanStep(mem: Memory, readable: bool, es: seq<Entry>, n: nat, same: set<Addr>, gone: set<Addr>)
    requires 0 < n <= |es|
    ensures var e := es[n - 1];
            var off := es[n - 1 := Off(e)];
            Scan(mem, readable, es, n, same, gone) ==
            if !e.isPatched || e.phys in same then Scan(mem, readable, es, n - 1, same, gone)
            else if e.phys in gone then Scan(mem, readable, off, n - 1, same, gone)
            else if !readable then Scan(mem, readable, es, n - 1, same, gone)
            else if mem(e.phys) == e.replaceWith then Scan(mem, readable, es, n - 1, same + {e.phys}, gone)
            else Scan(mem, readable, off, n - 1, same, gone + {e.phys})
  {
  }

  lemma ScanDone(mem: Memory, readable: bool)
    ensures forall es, same, gone :: Scan(mem, readable, es, 0, same, gone) == es
  {
  }

  lemma RestoreManyStep(s: State, idxs: seq<nat>)
    requires idxs != [] && IndicesOf(idxs, |s.entries|)
    ensures RestoreMany(s, idxs) == RestoreMany(RestoreEntry(s, idxs[|idxs| - 1]), idxs[..|idxs| - 1])
  {
    hide RestoreEntry;
  }

  lemma RestoreManyDone(s: State)
    ensures RestoreMany(s, []) == s
  {
  }

  // ----- the list of patches -----

  datatype Status = Success | InvalidArgument | UnsupportedStructVersion | UnknownError | PatchNotFound

  datatype NotifyReason = NotifyLoaded | NotifyUnloaded

  class FunctionPatcherModule {
    const console: Console
    const provider: Provider
    /** gPatchedFunctions */
    var patches: seq<PatchedFunctionData>

    constructor (console: Console, provider: Provider)
      ensures this.console == console && this.provider == provider && patches == []
    {
      this.console, this.provider, patches := console, provider, [];
    }

    /** The listed objects are different, and so are their handles. */
    ghost predicate Valid()
      reads this, patches
    {
      && (forall i, j :: 0 <= i < j < |patches| ==> patches[i] != patches[j])
      && (forall i, j :: 0 <= i < j < |patches| ==> patches[i].handle != patches[j].handle)
    }

    ghost function Current(): State
      reads this, console, patches
    {
      State(console.mem, console.env, Values(patches), console.heap)
    }

    lemma OthersKept(es: seq<Entry>, k: nat, p: PatchedFunctionData)
      requires |es| == |patches| && k < |patches| && patches[k] == p
      requires forall i :: 0 <= i < |patches| && i != k ==> patches[i].Value() == es[i]
      ensures Values(patches) == es[k := p.Value()]
    {
    }

    lemma Distinct()
      ensures Valid() <==>
                && (forall i, j :: 0 <= i < j < |patches| ==> patches[i] != patches[j])
                && (forall i, j :: 0 <= i < j < |patches| ==> patches[i].handle != patches[j].handle)
    {
    }

    /** PatchFunction on the listed patch at position `k`. */
    method PatchListed(p: PatchedFunctionData, ghost k: nat) returns (ok: bool)
      requires Valid() && Ready(console, provider) && !console.halted
      requires k < |patches| && patches[k] == p
      modifies p`realEffectiveFunctionAddress, p`realPhysicalFunctionAddress, p`replacedInstruction, p`replaceWithInstruction, p`isPatched
      modifies provider, console`mem, console`trace, console`halted
      ensures Valid() && Ready(console, provider)
      ensures console.halted <==> PatchEntry(old(Current()), k).None?
      ensures !console.halted ==> Current() == PatchEntry(old(Current()), k).value && ok == p.isPatched
    {
      hide PatchValue, Ready, PatchEntry, Valid, Current, PatchedFunctionData.Value, Values;
      ghost var s0 := Current();
      CurrentMeans();
      PatchEntryMeans(s0, k);
      Distinct();
      ok := PatchFunction(console, provider, p);
      Distinct();
      assert forall i :: 0 <= i < |patches| && i != k ==> patches[i] != p;
      OthersKept(s0.entries, k, p);
      CurrentMeans();
    }

    /** RestoreFunction on the listed patch at position `k`. */
    method RestoreListed(p: PatchedFunctionData, ghost k: nat) returns (ok: bool)
      requires Valid() && k < |patches| && patches[k] == p
      modifies p`isPatched, console`mem, console`trace
      ensures Valid()
      ensures Current() == RestoreEntry(old(Current()), k)
      ensures ok <==> RestoreSucceeds(old(Current()), k)
    {
      hide RestoreAddress, CanRestore;
      ghost var before := Current();
      ok := RestoreFunction(console, p);
      assert Current().entries == before.entries[k := p.Value()];
      assert before.entries[k := before.entries[k]] == before.entries;
    }

    /** The patch-all loop. */
    method PatchAll()
      requires Valid() && Ready(console, provider) && !console.halted
      modifies patches, provider, console`mem, console`trace, console`halted
      ensures Valid() && Ready(console, provider)
      ensures console.halted <==> Sweep(old(Current())).None?
      ensures !console.halted ==> Current() == Sweep(old(Current())).value
    {
      hide PatchEntry, Ready;
      ghost var s0 := Current();
      ghost var idxs := Upto(|patches|);
      var i := 0;
      while i < |patches|
        invariant 0 <= i <= |patches| && Valid() && Ready(console, provider) && !console.halted
        invariant |Current().entries| == |s0.entries| && IndicesOf(idxs[i..], |s0.entries|)
        invariant PatchMany(s0, idxs) == PatchMany(Current(), idxs[i..])
      {
        assert idxs[i..][0] == i && idxs[i..][1..] == idxs[i + 1..];
        var _ := PatchListed(patches[i], i);
        if console.halted {
          return;
        }
        i := i + 1;
      }
      assert idxs[i..] == [];
    }

    /** CheckIfPatchedFunctionsAreStillInMemory */
    method CheckIfPatchedFunctionsAreStillInMemory()
      requires Valid()
      modifies patches
      ensures Valid()
      ensures Current() == Checked(old(Current()))
    {
      hide Valid, Scan;
      var physicalAddressesUnchanged: set<Addr> := {};
      var physicalAddressesChanged: set<Addr> := {};
      ghost var s0 := Current();
      var i := |patches|;
      ScanDone(s0.mem, s0.env.readable);
      while i > 0
        invariant 0 <= i <= |patches| && Valid()
        invariant |Values(patches)| == |s0.entries|
        invariant Scan(s0.mem, s0.env.readable, s0.entries, |s0.entries|, {}, {})
               == Scan(s0.mem, s0.env.readable, Values(patches), i, physicalAddressesUnchanged, physicalAddressesChanged)
      {
        ScanStep(s0.mem, s0.env.readable, Values(patches), i, physicalAddressesUnchanged, physicalAddressesChanged);
        i := i - 1;
        var cur := patches[i];
        if !cur.isPatched || cur.realPhysicalFunctionAddress in physicalAddressesUnchanged {
          continue;
        }
        if cur.realPhysicalFunctionAddress in physicalAddressesChanged {
          TurnOff(cur, i);
          continue;
        }
        if !console.env.readable {
          continue;
        }
        var currentInstruction := console.mem(cur.realPhysicalFunctionAddress);
        if currentInstruction == cur.replaceWithInstruction {
          physicalAddressesUnchanged := physicalAddressesUnchanged + {cur.realPhysicalFunctionAddress};
        } else {
          physicalAddressesChanged := physicalAddressesChanged + {cur.realPhysicalFunctionAddress};
          TurnOff(cur, i);
        }
      }
    }

    /** isPatched = false, for the listed patch at position `k`. */
    method TurnOff(p: PatchedFunctionData, ghost k: nat)
      requires Valid() && k < |patches| && patches[k] == p
      modifies p`isPatched
      ensures Valid() && Values(patches) == old(Values(patches))[k := Off(old(p.Value()))]
    {
      ghost var before := Values(patches);
      p.isPatched := false;
      assert Values(patches) == before[k := Off(before[k])];
    }

    /** The clearing loop of the unload callback. */
    method InvalidateLibrary(library: Option<Library>)
      requires Valid()
      modifies patches
      ensures Valid()
      ensures Values(patches) == Invalidated(old(Values(patches)), library)
      ensures forall i :: 0 <= i < |patches| ==>
                var e := old(Values(patches))[i];
                Values(patches)[i] == if e.target.LibraryFunction? && library == Some(e.target.library) then Off(e) else e
    {
      hide Valid, Invalidated, PatchedFunctionData.Value;
      InvalidatedEntries(Values(patches), library);
      if library.Some? {
        ghost var es := Values(patches);
        ghost var all := Invalidated(es, library);
        var i := 0;
        while i < |patches|
          invariant 0 <= i <= |patches| && Valid() && |Values(patches)| == |es|
          invariant forall j :: 0 <= j < i ==> Values(patches)[j] == all[j]
          invariant forall j :: i <= j < |patches| ==> Values(patches)[j] == es[j]
        {
          InvalidatedAt(es, library, i);
          patches[i].Fields();
          if patches[i].target.LibraryFunction? && patches[i].target.library == library.value {
            TurnOff(patches[i], i);
          }
          i := i + 1;
        }
      } else {
        NoneInvalidated(Values(patches));
      }
    }

    method NotifyCallback(rpl: Word, reason: NotifyReason)
      requires Valid() && !console.halted
      requires reason == NotifyLoaded ==> Ready(console, provider)
      modifies patches, provider, console`mem, console`trace, console`halted
      ensures Valid()
      ensures reason == NotifyLoaded ==>
                && (console.halted <==> Sweep(old(Current())).None?)
                && (!console.halted ==> Current() == Sweep(old(Current())).value && Ready(console, provider))
                && Loaded(old(Current())) == Sweep(old(Current()))
      ensures reason == NotifyUnloaded ==>
                && !console.halted
                && Current() == Unloaded(old(Current()), TypeForHandle(old(provider.rows), rpl))
                && provider.rows == WithoutHandle(old(provider.rows), rpl)
    {
      hide Valid, Ready, Sweep, Checked, Invalidated, Current, Unloaded;
      match reason {
        case NotifyLoaded =>
          PatchAll();
        case NotifyUnloaded =>
          ForgetModule(rpl);
      }
    }

    /** The reaction to an unload. */
    method ForgetModule(rpl: Word)
      requires Valid()
      modifies patches, provider
      ensures Valid()
      ensures Current() == Unloaded(old(Current()), TypeForHandle(old(provider.rows), rpl))
      ensures provider.rows == WithoutHandle(old(provider.rows), rpl)
    {
      hide Valid, Checked, Invalidated, WithoutHandle, TypeForHandle;
      var library := provider.GetTypeForHandle(rpl);
      InvalidateLibrary(library);
      var _ := provider.ResetHandle(rpl);
      CheckIfPatchedFunctionsAreStillInMemory();
    }

    method ApplicationStarts(upid: Word)
      requires Valid() && Ready(console, provider) && !console.halted
      modifies patches, provider, console`mem, console`trace, console`halted
      ensures Valid() && Ready(console, provider)
      ensures console.halted <==> Started(old(Current()), upid).None?
      ensures !console.halted ==> Current() == Started(old(Current()), upid).value
      ensures upid != 2 && upid != 15 ==>
                && Current() == old(Current()) && !console.halted
                && provider.rows == old(provider.rows) && console.trace == old(console.trace)
      ensures upid == 2 || upid == 15 ==>
                var r := Sweep(Checked(old(Current())));
                && (console.halted <==> r.None?)
                && (r.Some? ==> Current() == r.value)
    {
      hide Valid, Ready, Sweep, Checked;
      if upid != 2 && upid != 15 {
        return;
      }
      CheckIfPatchedFunctionsAreStillInMemory();
      PatchAll();
    }

    method ApplicationEnds()
      modifies provider
      ensures provider.rows == AllReset(old(provider.rows))
    {
      provider.ResetHandles();
    }

    method FPIsFunctionPatched(handle: nat) returns (status: Status, isFunctionPatched: bool)
      ensures status == Success <==> exists i :: 0 <= i < |patches| && patches[i].handle == handle
      ensures status == Success ==>
                exists i :: 0 <= i < |patches| && patches[i].handle == handle && isFunctionPatched == patches[i].isPatched
      ensures status == Success || status == PatchNotFound
    {
      isFunctionPatched := false;
      var i := 0;
      while i < |patches|
        invariant 0 <= i <= |patches| && forall j :: 0 <= j < i ==> patches[j].handle != handle
      {
        if patches[i].handle == handle {
          return Success, patches[i].isPatched;
        }
        i := i + 1;
      }
      return PatchNotFound, false;
    }

    // ----- export.cpp -----

    /** `ps` are the listed patches at the positions `idxs`. */
    ghost predicate Listed(ps: seq<PatchedFunctionData>, idxs: seq<nat>)
      reads this
    {
      |ps| == |idxs| && forall t :: 0 <= t < |ps| ==> idxs[t] < |patches| && patches[idxs[t]] == ps[t]
    }

    lemma ListedOneMore(ps: seq<PatchedFunctionData>, idxs: seq<nat>, i: nat)
      requires Listed(ps, idxs) && i < |patches|
      ensures Listed(ps + [patches[i]], idxs + [i])
    {
    }

    lemma HandlesDiffer()
      requires Valid()
      ensures forall i, j :: 0 <= i < j < |patches| ==> patches[i].handle != patches[j].handle
    {
    }

    /** The first loop of FPRemoveFunctionPatch: the patch to remove, and the patches done on its address afterwards. */
    method FindToBeRemoved(handle: nat)
      returns (found: bool, erasePosition: nat, toBeRemoved: PatchedFunctionData?,
               toBeTempRestored: seq<PatchedFunctionData>, ghost idxs: seq<nat>)
      requires Valid()
      ensures Listed(toBeTempRestored, idxs)
      ensures forall t :: 0 <= t < |toBeTempRestored| ==> toBeTempRestored[t] in patches
      ensures var k := Find(Values(patches), handle);
              && (found <==> k < |patches|)
              && (found ==>
                    && erasePosition == k && toBeRemoved == patches[k]
                    && (patches[k].isPatched ==> idxs == LaterFrom(Values(patches), k, k + 1)))
    {
      hide Valid, LaterFrom, Find, Listed, PatchedFunctionData.Value;
      HandlesDiffer();
      ListedNothing();
      found, erasePosition, toBeRemoved, toBeTempRestored, idxs := false, 0, null, [], [];
      ghost var es := Values(patches);
      ghost var k := Find(es, handle);
      var i := 0;
      while i < |patches|
        invariant 0 <= i <= |patches| && Listed(toBeTempRestored, idxs)
        invariant !found ==> i <= k && erasePosition == i && idxs == []
        invariant found ==> k < i && erasePosition == k && toBeRemoved == patches[k]
        invariant found ==> toBeRemoved.handle == handle && es[k].phys == toBeRemoved.realPhysicalFunctionAddress
        invariant found ==> patches[k].isPatched && LaterFrom(es, k, k + 1) == idxs + LaterFrom(es, k, i)
      {
        var cur := patches[i];
        cur.Fields();
        assert es[i] == cur.Value();
        if cur.handle == handle {
          toBeRemoved := cur;
          found := true;
          if !cur.isPatched {
            // Nothing lies on top of a patch that is off.
            break;
          }
          i := i + 1;
          continue;
        }
        if found {
          LaterTaken(es, k, i, idxs);
          if cur.realPhysicalFunctionAddress == toBeRemoved.realPhysicalFunctionAddress {
            ListedOneMore(toBeTempRestored, idxs, i);
            toBeTempRestored, idxs := toBeTempRestored + [cur], idxs + [i];
          }
        } else {
          erasePosition := erasePosition + 1;
        }
        i := i + 1;
      }
      if found {
        LaterEnd(es, k);
      }
      ListedMeans(toBeTempRestored, idxs);
    }

    method RestoreInReverse(ps: seq<PatchedFunctionData>, ghost idxs: seq<nat>)
      requires Valid() && Listed(ps, idxs)
      modifies patches`isPatched, console`mem, console`trace
      ensures Valid() && IndicesOf(idxs, |patches|) && Current() == RestoreMany(old(Current()), idxs)
    {
      hide Valid, RestoreEntry, RestoreMany, Current;
      ghost var s0 := Current();
      CurrentMeans();
      var t := |ps|;
      assert idxs[..t] == idxs;
      while t > 0
        invariant 0 <= t <= |ps| && Valid() && Listed(ps, idxs)
        invariant |Current().entries| == |s0.entries| && IndicesOf(idxs, |s0.entries|)
        invariant RestoreMany(s0, idxs) == RestoreMany(Current(), idxs[..t])
      {
        t := t - 1;
        assert idxs[..t + 1][..t] == idxs[..t] && idxs[..t + 1][t] == idxs[t];
        RestoreManyStep(Current(), idxs[..t + 1]);
        var _ := RestoreListed(ps[t], idxs[t]);
        CurrentMeans();
      }
      assert idxs[..0] == [];
      RestoreManyDone(Current());
    }

    method PatchInOrder(ps: seq<PatchedFunctionData>, ghost idxs: seq<nat>)
      requires Valid() && Listed(ps, idxs) && Ready(console, provider) && !console.halted
      modifies ps, provider, console`mem, console`trace, console`halted
      ensures Valid() && Ready(console, provider) && IndicesOf(idxs, |patches|)
      ensures console.halted <==> PatchMany(old(Current()), idxs).None?
      ensures !console.halted ==> Current() == PatchMany(old(Current()), idxs).value
    {
      hide Valid, Ready, PatchEntry;
      ghost var s0 := Current();
      var t := 0;
      assert idxs[0..] == idxs;
      while t < |ps|
        invariant 0 <= t <= |ps| && Valid() && Listed(ps, idxs) && Ready(console, provider) && !console.halted
        invariant |Current().entries| == |s0.entries| && IndicesOf(idxs, |s0.entries|)
        invariant PatchMany(s0, idxs) == PatchMany(Current(), idxs[t..])
      {
        assert idxs[t..][0] == idxs[t] && idxs[t..][1..] == idxs[t + 1..];
        var _ := PatchListed(ps[t], idxs[t]);
        if console.halted {
          return;
        }
        t := t + 1;
      }
      assert idxs[|ps|..] == [];
    }

    /**
     As written, `guardBeforeRestore` is false: whether the later patches are applied again is
     decided by the flag of the removed patch after it has been restored.
     */
    method FPRemoveFunctionPatch(handle: nat, guardBeforeRestore: bool) returns (status: Status)
      requires Valid() && Ready(console, provider) && !console.halted
      modifies this`patches, patches, provider, console`mem, console`trace, console`halted, console`heap
      ensures Valid() && Ready(console, provider)
      ensures var k := Find(old(Values(patches)), handle);
              && (k == |old(patches)| ==> status == PatchNotFound && Current() == old(Current()) && !console.halted)
              && (k < |old(patches)| ==>
                    var r := Remove(old(Current()), k, guardBeforeRestore);
                    && (console.halted <==> r.None?)
                    && (r.Some? ==> status == Success && Current() == r.value))
    {
      hide Valid, Ready, LaterFrom, Listed, Current, Find, Remove;
      CurrentMeans();
      var found, k, toBeRemoved, toBeTempRestored;
      ghost var idxs;
      found, k, toBeRemoved, toBeTempRestored, idxs := FindToBeRemoved(handle);
      if !found {
        return PatchNotFound;
      }
      RemoveAt(k, toBeRemoved, toBeTempRestored, idxs, guardBeforeRestore);
      status := if console.halted then UnknownError else Success;
    }

    /** The part of FPRemoveFunctionPatch behind the search. */
    method RemoveAt(k: nat, toBeRemoved: PatchedFunctionData, toBeTempRestored: seq<PatchedFunctionData>, ghost idxs: seq<nat>,
                    guardBeforeRestore: bool)
      requires Valid() && Ready(console, provider) && !console.halted
      requires k < |patches| && patches[k] == toBeRemoved && Listed(toBeTempRestored, idxs)
      requires toBeRemoved.isPatched ==> idxs == LaterFrom(Values(patches), k, k + 1)
      requires forall t :: 0 <= t < |toBeTempRestored| ==> toBeTempRestored[t] in patches
      modifies this`patches, patches, provider, console`mem, console`trace, console`halted, console`heap
      ensures Valid() && Ready(console, provider)
      ensures k < |old(Current()).entries|
      ensures var r := Remove(old(Current()), k, guardBeforeRestore);
              && (console.halted <==> r.None?)
              && (r.Some? ==> Current() == r.value)
    {
      hide Valid, Ready, PatchMany, LaterFrom, BlocksOf, Listed, Current, Unstacked, Erase, Find;
      ghost var s0 := Current();
      CurrentMeans();
      var wasPatched := toBeRemoved.isPatched;
      UnstackAt(k, toBeRemoved, toBeTempRestored, idxs);
      CurrentMeans();
      NeverTurnedOn(s0, k);
      if (if guardBeforeRestore then wasPatched else toBeRemoved.isPatched) {
        LaterIsLater(s0.entries, k, k + 1);
        EraseAndReapply(k, toBeRemoved, true, toBeTempRestored, idxs);
      } else {
        ListedNothing();
        EraseAndReapply(k, toBeRemoved, false, [], []);
      }
    }

    lemma ListedNothing()
      ensures Listed([], [])
    {
    }

    lemma CurrentMeans()
      ensures Current() == State(console.mem, console.env, Values(patches), console.heap)
    {
    }

    lemma ListedMeans(ps: seq<PatchedFunctionData>, idxs: seq<nat>)
      requires Listed(ps, idxs)
      ensures IndicesOf(idxs, |patches|) && forall t :: 0 <= t < |ps| ==> ps[t] in patches
    {
    }

    /** The erasure, and the patches that are applied again. */
    method EraseAndReapply(k: nat, p: PatchedFunctionData, again: bool, ps: seq<PatchedFunctionData>, ghost idxs: seq<nat>)
      requires Valid() && Ready(console, provider) && !console.halted
      requires k < |patches| && patches[k] == p && Listed(ps, idxs) && forall t :: 0 <= t < |idxs| ==> k < idxs[t]
      requires k < |Current().entries|
      modifies this`patches, ps, p`jumpData, p`jumpToOriginal, provider, console`mem, console`trace, console`halted, console`heap
      ensures Valid() && Ready(console, provider)
      ensures var s2 := old(Current()).(entries := Erase(old(Current()).entries, k));
              IndicesOf(Shifted(idxs), |s2.entries|) &&
              var r := if again then PatchMany(s2, Shifted(idxs)) else Some(s2);
              && (console.halted <==> r.None?)
              && (r.Some? ==> Current() == r.value.(heap := r.value.heap - BlocksOf(old(p.Value()))))
    {
      hide Valid, Ready, PatchMany, BlocksOf, Listed;
      EraseAt(k, p, ps, idxs);
      ListedMeans(ps, Shifted(idxs));
      if again {
        // Their positions have moved down by one.
        PatchInOrder(ps, Shifted(idxs));
        if console.halted {
          return;
        }
      }
      Release(p);
    }

    /** The restores of FPRemoveFunctionPatch. */
    method UnstackAt(erasePosition: nat, toBeRemoved: PatchedFunctionData, toBeTempRestored: seq<PatchedFunctionData>, ghost idxs: seq<nat>)
      requires Valid() && erasePosition < |patches| && patches[erasePosition] == toBeRemoved && Listed(toBeTempRestored, idxs)
      requires toBeRemoved.isPatched ==> idxs == LaterFrom(Values(patches), erasePosition, erasePosition + 1)
      modifies patches`isPatched, console`mem, console`trace
      ensures Valid() && Current() == Unstacked(old(Current()), erasePosition)
      ensures BlocksOf(toBeRemoved.Value()) == BlocksOf(old(toBeRemoved.Value()))
    {
      hide Valid, RestoreMany, RestoreEntry, LaterFrom, Listed;
      if toBeRemoved.isPatched {
        // From the top of the stack down to the patch that goes.
        RestoreInReverse(toBeTempRestored, idxs);
        var _ := RestoreListed(toBeRemoved, erasePosition);
      }
    }

    /** gPatchedFunctions.erase; the positions of the patches behind move down by one. */
    method EraseAt(k: nat, p: PatchedFunctionData, ghost ps: seq<PatchedFunctionData>, ghost idxs: seq<nat>)
      requires Valid() && k < |patches| && patches[k] == p
      requires Listed(ps, idxs) && forall t :: 0 <= t < |idxs| ==> k < idxs[t]
      modifies this`patches
      ensures Valid() && Values(patches) == Erase(old(Values(patches)), k)
      ensures p !in patches
      ensures Listed(ps, Shifted(idxs))
    {
      hide Shifted, Valid, Erase, PatchedFunctionData.Value, Listed;
      ghost var before, es := patches, Values(patches);
      Distinct();
      ListedAt(ps, idxs);
      ErasedObjects(patches, k);
      patches := patches[..k] + patches[k + 1..];
      Distinct();
      ErasedValues(before, es, k);
      ListedErased(before, ps, idxs, k);
    }

    lemma ListedAt(ps: seq<PatchedFunctionData>, idxs: seq<nat>)
      requires Listed(ps, idxs)
      ensures |ps| == |idxs| && forall t :: 0 <= t < |ps| ==> idxs[t] < |patches| && patches[idxs[t]] == ps[t]
    {
    }

    lemma ErasedValues(before: seq<PatchedFunctionData>, es: seq<Entry>, k: nat)
      requires k < |before| == |es| && patches == before[..k] + before[k + 1..]
      requires forall i :: 0 <= i < |before| ==> before[i].Value() == es[i]
      ensures Values(patches) == Erase(es, k)
    {
      hide PatchedFunctionData.Value;
    }

    lemma ListedErased(before: seq<PatchedFunctionData>, ps: seq<PatchedFunctionData>, idxs: seq<nat>, k: nat)
      requires k < |before| && patches == before[..k] + before[k + 1..] && |ps| == |idxs|
      requires forall t :: 0 <= t < |ps| ==> k < idxs[t] < |before| && before[idxs[t]] == ps[t]
      ensures Listed(ps, Shifted(idxs))
    {
      forall t | 0 <= t < |idxs|
        ensures idxs[t] - 1 < |patches| && patches[idxs[t] - 1] == ps[t]
      {
        assert before[idxs[t]] == ps[t];
      }
    }

    /** The last reference to the removed object goes. */
    method Release(p: PatchedFunctionData)
      requires Valid() && p !in patches
      modifies p`jumpData, p`jumpToOriginal, console`heap
      ensures Valid()
      ensures Current() == old(Current()).(heap := old(console.heap) - BlocksOf(old(p.Value())))
    {
      hide BlocksOf;
      ghost var es := Values(patches);
      p.Destroy(console);
      assert Values(patches) == es;
    }

    /** make_shared_v2 and make_shared_v3 */
    method MakeShared(q: Request, objectFits: bool, choice1: Addr, choice2: Addr) returns (r: Option<PatchedFunctionData>)
      modifies console`heap
      ensures !objectFits ==> r.None? && console.heap == old(console.heap)
      ensures objectFits ==>
                var m := Made(old(console.heap), q, choice1, choice2);
                && console.heap == m.heap
                && (r.Some? <==> m.jumpToOriginal != 0)
                && (r.Some? ==> fresh(r.value) && r.value.Value() == NewEntry(q, m.jumpData, m.jumpToOriginal))
      ensures r.Some? ==> IsFor(r.value, q)
    {
      hide Allocate, NeedsTrampoline, Made, BlocksOf;
      if !objectFits {
        return None;
      }
      ghost var heap0 := console.heap;
      var p := new PatchedFunctionData(q);
      var gotBuffers := p.AllocateDataForJumps(console, choice1, choice2);
      assert p.Value() == NewEntry(q, p.jumpData, p.jumpToOriginal);
      BuffersMade(heap0, q, choice1, choice2, p.jumpData, p.jumpToOriginal, console.heap, gotBuffers);
      if !gotBuffers {
        p.Destroy(console);
        return None;
      }
      return Some(p);
    }

    /** The object is the patch that was requested. */
    ghost predicate IsFor(p: PatchedFunctionData, q: Request)
      reads p
    {
      && p.handle == q.handle && p.target == q.target && p.targetProcess == q.process
      && p.replacementFunctionAddress == q.repl && p.realCallFunctionAddressPtr == q.realCall
      && (q.target.GivenAddress? ==>
            p.realEffectiveFunctionAddress == q.target.eff && p.realPhysicalFunctionAddress == q.target.phys)
    }

    ghost predicate LastIsPatched(s: State) {
      |s.entries| > 0 && s.entries[|s.entries| - 1].isPatched
    }

    /**
     `functionData` is null or a request of this struct version; `objectFits` says whether there is
     memory for the object, and the choices are the heap's proposals for the two buffers.
     */
    method FPAddFunctionPatch(functionData: Option<Request>, version: nat, objectFits: bool, choice1: Addr, choice2: Addr)
      returns (status: Status, outHandle: nat, outHasBeenPatched: bool)
      requires Valid() && Ready(console, provider) && !console.halted
      requires functionData.Some? ==> forall i :: 0 <= i < |patches| ==> patches[i].handle != functionData.value.handle
      modifies this`patches, provider, console`mem, console`trace, console`halted, console`heap
      ensures Valid() && Ready(console, provider)
      ensures functionData.None? ==> status == InvalidArgument && Current() == old(Current()) && !console.halted
      ensures functionData.Some? && !(2 <= version <= 3) ==> status == UnsupportedStructVersion && Current() == old(Current()) && !console.halted
      ensures functionData.Some? && 2 <= version <= 3 && !objectFits ==> status == UnknownError && Current() == old(Current()) && !console.halted
      ensures functionData.Some? && 2 <= version <= 3 && objectFits ==>
                var r := Add(old(Current()), functionData.value, choice1, choice2);
                && (console.halted <==> r.Stopped?)
                && (r.NoMemory? ==> status == UnknownError && Current() == old(Current()).(heap := r.heap))
                && (r.Added? ==> status == Success && Current() == r.state && outHandle == functionData.value.handle
                                 && outHasBeenPatched == LastIsPatched(r.state))
      ensures status == Success && !console.halted ==>
                && functionData.Some? && |patches| == |old(patches)| + 1 && patches[..|old(patches)|] == old(patches)
                && IsFor(patches[|old(patches)|], functionData.value)
    {
      hide Ready, Add, Current, IsFor;
      outHandle, outHasBeenPatched := 0, false;
      if functionData.None? {
        return InvalidArgument, outHandle, outHasBeenPatched;
      }
      if version < 2 || version > 3 {
        return UnsupportedStructVersion, outHandle, outHasBeenPatched;
      }
      status, outHandle, outHasBeenPatched := AddRequest(functionData.value, objectFits, choice1, choice2);
    }

    /** The part of FPAddFunctionPatch behind the checks of its arguments. */
    method AddRequest(q: Request, objectFits: bool, choice1: Addr, choice2: Addr)
      returns (status: Status, outHandle: nat, outHasBeenPatched: bool)
      requires Valid() && Ready(console, provider) && !console.halted
      requires forall i :: 0 <= i < |patches| ==> patches[i].handle != q.handle
      modifies this`patches, provider, console`mem, console`trace, console`halted, console`heap
      ensures Valid() && Ready(console, provider)
      ensures !objectFits ==> status == UnknownError && Current() == old(Current()) && !console.halted
      ensures objectFits ==>
                var r := Add(old(Current()), q, choice1, choice2);
                && (console.halted <==> r.Stopped?)
                && (r.NoMemory? ==> status == UnknownError && Current() == old(Current()).(heap := r.heap))
                && (r.Added? ==> status == Success && Current() == r.state && outHandle == q.handle
                                 && outHasBeenPatched == LastIsPatched(r.state))
      ensures status == Success && !console.halted ==>
                |patches| == |old(patches)| + 1 && patches[..|old(patches)|] == old(patches) && IsFor(patches[|old(patches)|], q)
    {
      hide Ready, Valid, PatchValue, Add, Made, NewEntry;
      status, outHandle, outHasBeenPatched := UnknownError, 0, false;
      ghost var s0 := Current();
      AddIsMadeAndPatched(s0, q, choice1, choice2);
      var made := MakeShared(q, objectFits, choice1, choice2);
      assert Values(patches) == s0.entries;
      if made.None? {
        return;
      }
      ghost var m := Made(s0.heap, q, choice1, choice2);
      NewEntryHandle(q, m.jumpData, m.jumpToOriginal);
      assert made.value.handle == made.value.Value().handle;
      var patchResult := PatchAndAppend(made.value);
      if console.halted {
        return;
      }
      return Success, q.handle, patchResult;
    }

    method PatchAndAppend(p: PatchedFunctionData) returns (patchResult: bool)
      requires Valid() && Ready(console, provider) && !console.halted
      requires p !in patches && forall i :: 0 <= i < |patches| ==> patches[i].handle != p.handle
      modifies p`realEffectiveFunctionAddress, p`realPhysicalFunctionAddress, p`replacedInstruction, p`replaceWithInstruction, p`isPatched
      modifies this`patches, provider, console`mem, console`trace, console`halted
      ensures Valid() && Ready(console, provider)
      ensures var s, r := old(Current()), PatchValue(console.env, old(console.mem), old(p.Value()));
              && (console.halted <==> r.Fatal?)
              && (r.Unchanged? ==> Current() == s.(entries := s.entries + [old(p.Value())]) && patchResult == old(p.isPatched))
              && (r.Done? ==> Current() == s.(mem := r.mem, entries := s.entries + [r.entry]) && patchResult == r.entry.isPatched)
      ensures !console.halted ==> patches == old(patches) + [p]
      ensures p.target.GivenAddress? ==>
                && p.realEffectiveFunctionAddress == old(p.realEffectiveFunctionAddress)
                && p.realPhysicalFunctionAddress == old(p.realPhysicalFunctionAddress)
    {
      hide Ready, PatchValue, Valid, PatchedFunctionData.Value;
      ghost var es := Values(patches);
      p.Fields();
      patchResult := PatchFunction(console, provider, p);
      if console.halted {
        return;
      }
      p.Fields();
      assert Values(patches) == es;
      Append(p);
    }

    /** gPatchedFunctions.push_back */
    method Append(p: PatchedFunctionData)
      requires Valid() && p !in patches && forall i :: 0 <= i < |patches| ==> patches[i].handle != p.handle
      modifies this`patches
      ensures Valid() && Values(patches) == old(Values(patches)) + [p.Value()] && patches == old(patches) + [p]
    {
      ghost var es := Values(patches);
      patches := patches + [p];
      assert Values(patches) == es + [p.Value()];
    }
  }

  /** What becomes of the heap and the two buffer pointers when a patch object is made; jumpToOriginal is 0 on failure. */
  datatype MadeBuffers = MadeBuffers(heap: set<Block>, jumpData: Addr, jumpToOriginal: Addr)

  ghost function Made(heap: set<Block>, q: Request, choice1: Addr, choice2: Addr): MadeBuffers {
    var needs := NeedsTrampoline(q.process, q.repl);
    var jumpData := if needs then Allocate(heap, choice1, 15) else 0;
    if needs && jumpData == 0 then MadeBuffers(heap, 0, 0)
    else
      var heap1 := heap + if needs then {Block(jumpData, 15)} else {};
      var jumpToOriginal := Allocate(heap1, choice2, 5);
      if jumpToOriginal == 0 then MadeBuffers(heap1 - (if needs then {Block(jumpData, 15)} else {}), jumpData, 0)
      else MadeBuffers(heap1 + {Block(jumpToOriginal, 5)}, jumpData, jumpToOriginal)
  }

  /** What the allocation of an object's buffers leaves, or its destruction after a failure. */
  lemma BuffersMade(heap: set<Block>, q: Request, choice1: Addr, choice2: Addr, jumpData: Addr, jumpToOriginal: Addr, heap': set<Block>, ok: bool)
    requires var needs := NeedsTrampoline(q.process, q.repl);
             var heap1 := heap + if needs && jumpData != 0 then {Block(jumpData, 15)} else {};
             && jumpData == (if needs then Allocate(heap, choice1, 15) else 0)
             && (needs && jumpData == 0 ==> !ok && jumpToOriginal == 0 && heap' == heap)
             && (!(needs && jumpData == 0) ==>
                   && jumpToOriginal == Allocate(heap1, choice2, 5) && ok == (jumpToOriginal != 0)
                   && heap' == heap1 + if ok then {Block(jumpToOriginal, 5)} else {})
    ensures var m := Made(heap, q, choice1, choice2);
            && (ok <==> m.jumpToOriginal != 0)
            && (ok ==> heap' == m.heap && jumpData == m.jumpData && jumpToOriginal == m.jumpToOriginal)
            && (!ok ==> heap' - BlocksOf(NewEntry(q, jumpData, jumpToOriginal)) == m.heap)
  {
    hide Allocate, NeedsTrampoline;
    assert heap + {} == heap && heap - {} == heap;
  }

  lemma NewEntryHandle(q: Request, jumpData: Addr, jumpToOriginal: Addr)
    ensures NewEntry(q, jumpData, jumpToOriginal).handle == q.handle
  {
  }

  /** FPAddFunctionPatch is: make the object, patch it by itself, append it. */
  lemma AddIsMadeAndPatched(s: State, q: Request, choice1: Addr, choice2: Addr)
    ensures var m := Made(s.heap, q, choice1, choice2);
            Add(s, q, choice1, choice2) ==
            if m.jumpToOriginal == 0 then NoMemory(m.heap)
            else
              var e := NewEntry(q, m.jumpData, m.jumpToOriginal);
              match PatchValue(s.env, s.mem, e)
              case Unchanged => Added(s.(heap := m.heap, entries := s.entries + [e]))
              case Fatal => Stopped
              case Done(mem', e') => Added(s.(mem := mem', heap := m.heap, entries := s.entries + [e']))
  {
    hide Allocate, NeedsTrampoline, PatchEntry, PatchValue, NewEntry;
    assert s.heap + {} == s.heap;
    var m := Made(s.heap, q, choice1, choice2);
    PatchOfAppended(s.(heap := m.heap), NewEntry(q, m.jumpData, m.jumpToOriginal));
  }

  lemma PatchOfAppended(s: State, e: Entry)
    ensures PatchEntry(s.(entries := s.entries + [e]), |s.entries|) ==
            match PatchValue(s.env, s.mem, e)
            case Unchanged => Some(s.(entries := s.entries + [e]))
            case Fatal => None
            case Done(mem', e') => Some(s.(mem := mem', entries := s.entries + [e']))
  {
    hide PatchValue;
    var es := s.entries + [e];
    assert es[|s.entries|] == e;
    if PatchValue(s.env, s.mem, e).Done? {
      var e' := PatchValue(s.env, s.mem, e).entry;
      assert es[|s.entries| := e'] == s.entries + [e'];
    }
  }
}
