/**
 One patch: its buffers, the resolution of its target, and the two code generators.
 */
module PatchedFunctions {
  import opened Words
  import opened Machine
  import opened CodeGen
  import opened Loading
  import opened PatchStack
  import opened Chain
  import opened Consoles
  import opened FunctionAddressProvider

  /** The provider's table is right for the loader of the console. */
  ghost predicate Ready(c: Console, provider: Provider)
    reads c`env, provider
  {
    && LoaderSound(c.env.loader) && Coherent(provider.rows, c.env.loader)
    && Libraries(provider.rows) == c.env.known
  }

  lemma AskingKeepsReady(rows: seq<Row>, loader: Loader, library: Library, mem: Memory, xl: Memory, name: string)
    requires LoaderSound(loader) && Coherent(rows, loader)
    ensures Coherent(Asked(rows, loader, library), loader) && Libraries(Asked(rows, loader, library)) == Libraries(rows)
    ensures LookupIn(loader, HandleFor(rows, loader, library), mem, xl, name)
         == Lookup(loader, Libraries(rows), mem, xl, library, name)
  {
    hide LookupIn, Coherent;
    EventKeepsCoherent(rows, loader, Resolves(library));
    CachedIsFresh(rows, loader, mem, xl, library, name);
  }

  class PatchedFunctionData {
    const handle: nat
    const target: Target
    const targetProcess: TargetProcess
    const replacementFunctionAddress: Addr
    const realCallFunctionAddressPtr: Addr
    var jumpData: Addr
    var jumpToOriginal: Addr
    var realEffectiveFunctionAddress: Addr
    var realPhysicalFunctionAddress: Addr
    var replacedInstruction: Word
    var replaceWithInstruction: Word
    var isPatched: bool

    ghost function Value(): Entry
      reads this
    {
      Entry(handle, target, targetProcess, replacementFunctionAddress, realCallFunctionAddressPtr,
            jumpData, jumpToOriginal, realEffectiveFunctionAddress, realPhysicalFunctionAddress,
            replacedInstruction, replaceWithInstruction, isPatched)
    }

    lemma Fields()
      ensures Value().handle == handle && Value().target == target && Value().isPatched == isPatched
      ensures Value().phys == realPhysicalFunctionAddress
    {
    }

    constructor (q: Request)
      ensures Value() == NewEntry(q, 0, 0)
      ensures handle == q.handle && target == q.target && targetProcess == q.process
      ensures replacementFunctionAddress == q.repl && realCallFunctionAddressPtr == q.realCall
      ensures q.target.GivenAddress? ==>
                realEffectiveFunctionAddress == q.target.eff && realPhysicalFunctionAddress == q.target.phys
      ensures !isPatched
    {
      handle, target, targetProcess := q.handle, q.target, q.process;
      replacementFunctionAddress, realCallFunctionAddressPtr := q.repl, q.realCall;
      jumpData, jumpToOriginal := 0, 0;
      realEffectiveFunctionAddress := if q.target.GivenAddress? then q.target.eff else 0;
      realPhysicalFunctionAddress := if q.target.GivenAddress? then q.target.phys else 0;
      replacedInstruction, replaceWithInstruction, isPatched := 0, 0, false;
    }

    method AllocateDataForJumps(c: Console, choice1: Addr, choice2: Addr) returns (ok: bool)
      modifies this`jumpData, this`jumpToOriginal, c`heap
      ensures old(jumpData) != 0 && old(jumpToOriginal) != 0 ==>
                ok && jumpData == old(jumpData) && jumpToOriginal == old(jumpToOriginal) && c.heap == old(c.heap)
      ensures old(jumpData) == 0 || old(jumpToOriginal) == 0 ==>
                var needs := NeedsTrampoline(targetProcess, replacementFunctionAddress);
                var heap1 := old(c.heap) + if needs && jumpData != 0 then {Block(jumpData, 15)} else {};
                && jumpData == (if needs then Allocate(old(c.heap), choice1, 15) else old(jumpData))
                && (needs && jumpData == 0 ==> !ok && jumpToOriginal == old(jumpToOriginal) && c.heap == old(c.heap))
                && (!(needs && jumpData == 0) ==>
                      && jumpToOriginal == Allocate(heap1, choice2, 5)
                      && ok == (jumpToOriginal != 0)
                      && c.heap == heap1 + if ok then {Block(jumpToOriginal, 5)} else {})
    {
      hide Allocate;
      if jumpData != 0 && jumpToOriginal != 0 {
        return true;
      }
      if replacementFunctionAddress > 0x01FFFFFC || targetProcess != AllProcesses {
        jumpData := c.Alloc(choice1, 15);
        if jumpData == 0 {
          return false;
        }
      }
      assert old(c.heap) + {} == old(c.heap);
      jumpToOriginal := c.Alloc(choice2, 5);
      return jumpToOriginal != 0;
    }

    /** The destructor. */
    method Destroy(c: Console)
      modifies this`jumpData, this`jumpToOriginal, c`heap
      ensures c.heap == old(c.heap) - BlocksOf(old(Value()))
      ensures jumpData == 0 && jumpToOriginal == 0
    {
      if jumpToOriginal != 0 {
        c.Free(jumpToOriginal, 5);
        jumpToOriginal := 0;
      }
      if jumpData != 0 {
        c.Free(jumpData, 15);
        jumpData := 0;
      }
    }

    method GetAddressForExecutable(c: Console) returns (found: bool, address: Addr)
      requires target.InExecutable?
      ensures found <==> target in c.env.executables && (target.site.ByName? ==> c.env.executables[target] != 0)
      ensures found ==> address == c.env.executables[target]
    {
      if target !in c.env.executables {
        return false, 0;
      }
      address := c.env.executables[target];
      if target.site.ByName? && address == 0 {
        return false, 0;
      }
      found := true;
    }

    method UpdateFunctionAddresses(c: Console, provider: Provider) returns (ok: bool)
      requires Ready(c, provider) && !c.halted
      modifies this`realEffectiveFunctionAddress, this`realPhysicalFunctionAddress, provider, c`halted
      ensures Ready(c, provider)
      ensures var site := UpdatedAddresses(c.env, c.mem, old(Value()));
              && c.halted == site.Untranslatable?
              && ok == site.Resolved?
              && (site.Resolved? ==> realEffectiveFunctionAddress == site.eff && realPhysicalFunctionAddress == site.phys)
              && (site.NotResolved? ==> Value() == old(Value()))
      ensures target.GivenAddress? ==> ok && !c.halted && Value() == old(Value())
      ensures target.InExecutable? ==>
                var found := target in c.env.executables && (target.site.ByName? ==> c.env.executables[target] != 0);
                && (c.halted <==> found && c.env.xl(c.env.executables[target]) == 0)
                && (ok <==> found && !c.halted)
                && (ok ==> realEffectiveFunctionAddress == c.env.executables[target]
                           && realPhysicalFunctionAddress == c.env.xl(c.env.executables[target]))
    {
      hide LookupIn, Coherent, LoaderSound, Asked, HandleFor;
      var realAddress: Addr;
      match target {
        case GivenAddress(_, _) =>
          // The two addresses of the request stand as they are.
          return true;
        case InExecutable(_, _) =>
          var found;
          found, realAddress := GetAddressForExecutable(c);
          if !found {
            return false;
          }
        case LibraryFunction(library, name) =>
          AskingKeepsReady(provider.rows, c.env.loader, library, c.mem, c.env.xl, name);
          realAddress := provider.GetEffectiveAddressOfFunction(library, name, c.env.loader, c.mem, c.env.xl);
          if realAddress == 0 {
            return false;
          }
      }
      realEffectiveFunctionAddress := realAddress;
      var physicalFunctionAddress := c.env.xl(realAddress);
      if physicalFunctionAddress == 0 {
        c.OSFatal();
        return false;
      }
      realPhysicalFunctionAddress := physicalFunctionAddress;
      return true;
    }

    method ShouldBePatched(c: Console) returns (yes: bool)
      ensures yes == PatchStack.ShouldBePatched(c.env, Value())
      ensures yes <==> (target.InExecutable? ==> target in c.env.accepted)
    {
      yes := true;
      if target.InExecutable? {
        yes := target in c.env.accepted;
      }
    }

    method GenerateJumpToOriginal(c: Console)
      requires !c.halted
      modifies c`mem, c`trace, c`halted
      ensures c.halted <==> jumpToOriginal == 0
      ensures !c.halted ==>
                var ws := BlockWrites(c.env.xl, jumpToOriginal, JumpToOriginalWords(realEffectiveFunctionAddress, replacedInstruction))
                          + [(c.env.xl(realCallFunctionAddressPtr), jumpToOriginal)];
                c.mem == Apply(old(c.mem), ws) && c.trace == old(c.trace) + ws
    {
      hide JumpToOriginalWords, Apply, BlockWrites;
      if jumpToOriginal == 0 {
        c.OSFatal();
        return;
      }
      ghost var words := EmitJumpToOriginal(c);
      ApplyLast(old(c.mem), BlockWrites(c.env.xl, jumpToOriginal, words), c.env.xl(realCallFunctionAddressPtr), jumpToOriginal);
      c.Store(realCallFunctionAddressPtr, jumpToOriginal);
    }

    method EmitJumpToOriginal(c: Console) returns (ghost words: seq<Word>)
      requires jumpToOriginal != 0
      modifies c`mem, c`trace
      ensures words == JumpToOriginalWords(realEffectiveFunctionAddress, replacedInstruction)
      ensures c.Wrote(old(c.mem), old(c.trace), jumpToOriginal, words)
    {
      hide Next, Short, Lis, Ori, Ba, Hi, Lo, Apply, BlockWrites, Console.Wrote, JumpToOriginalWords;
      ghost var m0, t0 := c.mem, c.trace;
      NothingWritten(c, jumpToOriginal);
      var jumpToAddress := Next(realEffectiveFunctionAddress);
      var i := 0;
      words := [];
      if !Short(jumpToAddress) {
        // Out of reach of a `ba`: the displaced word comes between the loading of CTR and the jump.
        i, words := EmitLoadCtr(c, jumpToOriginal, 5, jumpToAddress, i, m0, t0, words);
        i, words := c.Put(jumpToOriginal, 5, i, replacedInstruction, m0, t0, words);
        i, words := c.Put(jumpToOriginal, 5, i, BCTR, m0, t0, words);
      } else {
        i, words := c.Put(jumpToOriginal, 5, i, replacedInstruction, m0, t0, words);
        i, words := c.Put(jumpToOriginal, 5, i, Ba(jumpToAddress), m0, t0, words);
      }
      JumpToOriginalParts(realEffectiveFunctionAddress, replacedInstruction);
    }

    /** lis/ori/mtctr for the address `a`. */
    method EmitLoadCtr(c: Console, b: Addr, size: nat, a: Addr, i: nat, ghost m0: Memory, ghost t0: Writes, ghost emitted: seq<Word>)
      returns (next: nat, ghost words: seq<Word>)
      requires i == |emitted| && i + 3 <= size && c.Wrote(m0, t0, b, emitted)
      modifies c`mem, c`trace
      ensures words == emitted + [Lis(Hi(a)), Ori(Lo(a)), MTCTR] && next == |words| && c.Wrote(m0, t0, b, words)
    {
      hide Lis, Ori, Hi, Lo, Console.Wrote;
      next, words := c.Put(b, size, i, Lis(Hi(a)), m0, t0, emitted);
      next, words := c.Put(b, size, next, Ori(Lo(a)), m0, t0, words);
      next, words := c.Put(b, size, next, MTCTR, m0, t0, words);
    }

    /** A jump to `a`: one `ba` if it reaches, else lis/ori/mtctr/bctr. */
    method EmitJump(c: Console, a: Addr, i: nat, ghost m0: Memory, ghost t0: Writes, ghost emitted: seq<Word>)
      returns (next: nat, ghost words: seq<Word>)
      requires i == |emitted| <= 11 && c.Wrote(m0, t0, jumpData, emitted)
      modifies c`mem, c`trace
      ensures words == emitted + JumpWords(a) && next == |words| && c.Wrote(m0, t0, jumpData, words)
    {
      hide Short, Lis, Ori, Ba, Hi, Lo, Console.Wrote;
      if !Short(a) {
        next, words := EmitLoadCtr(c, jumpData, 15, a, i, m0, t0, emitted);
        next, words := c.Put(jumpData, 15, next, BCTR, m0, t0, words);
      } else {
        next, words := c.Put(jumpData, 15, i, Ba(a), m0, t0, emitted);
      }
    }

    /** Two words behind each other. */
    method EmitPair(c: Console, v0: Word, v1: Word, i: nat, ghost m0: Memory, ghost t0: Writes, ghost emitted: seq<Word>)
      returns (next: nat, ghost words: seq<Word>)
      requires i == |emitted| <= 13 && c.Wrote(m0, t0, jumpData, emitted)
      modifies c`mem, c`trace
      ensures words == emitted + [v0, v1] && next == |words| && c.Wrote(m0, t0, jumpData, words)
    {
      hide Console.Wrote;
      next, words := c.Put(jumpData, 15, i, v0, m0, t0, emitted);
      next, words := c.Put(jumpData, 15, next, v1, m0, t0, words);
    }

    /** The comparison of the process id with each process the patch is meant for. */
    method EmitTests(c: Console, shortBranchToOriginalPossible: bool, i: nat, ghost m0: Memory, ghost t0: Writes, ghost emitted: seq<Word>)
      returns (next: nat, ghost words: seq<Word>)
      requires targetProcess != AllProcesses && i == |emitted| <= 11 && c.Wrote(m0, t0, jumpData, emitted)
      modifies c`mem, c`trace
      ensures words == emitted + TestWords(targetProcess, shortBranchToOriginalPossible)
      ensures next == |words| && c.Wrote(m0, t0, jumpData, words)
    {
      hide Cmpwi, Beq, TestWords, Console.Wrote;
      TestPairs(targetProcess, shortBranchToOriginalPossible);
      var last := if shortBranchToOriginalPossible then 0x0C else 0x18;
      if targetProcess.GameAndMenu? {
        var first := if shortBranchToOriginalPossible then 0x14 else 0x20;
        next, words := EmitPair(c, Cmpwi(WII_U_MENU), Beq(first), i, m0, t0, emitted);
        next, words := EmitPair(c, Cmpwi(GAME), Beq(last), next, m0, t0, words);
        assert words == emitted + ([Cmpwi(WII_U_MENU), Beq(first)] + [Cmpwi(GAME), Beq(last)]);
      } else {
        next, words := EmitPair(c, Cmpwi(targetProcess.id), Beq(last), i, m0, t0, emitted);
      }
    }

    /** The words of the trampoline up to the jump to the replacement. */
    method EmitGuard(c: Console, ghost m0: Memory, ghost t0: Writes) returns (offset: nat, ghost words: seq<Word>)
      requires targetProcess != AllProcesses && c.Wrote(m0, t0, jumpData, [])
      modifies c`mem, c`trace
      ensures words == GuardWords(targetProcess, c.env.plat, Short(Next(realEffectiveFunctionAddress)))
                       + ResumeWords(realEffectiveFunctionAddress, replacedInstruction)
      ensures offset == |words| <= 11 && c.Wrote(m0, t0, jumpData, words)
    {
      hide Next, Short, Lis, Lwz, JumpWords, TestWords, Console.Wrote;
      var originalFunctionAddrWithOffset := Next(realEffectiveFunctionAddress);
      var shortBranchToOriginalPossible := Short(originalFunctionAddrWithOffset);
      GuardSize(targetProcess, c.env.plat, shortBranchToOriginalPossible);
      JumpFacts(originalFunctionAddrWithOffset);
      offset, words := EmitPair(c, Lis(c.env.plat.upidWord0), Lwz(c.env.plat.upidWord1), 0, m0, t0, []);
      offset, words := EmitTests(c, shortBranchToOriginalPossible, offset, m0, t0, words);
      ghost var guard := GuardWords(targetProcess, c.env.plat, shortBranchToOriginalPossible);
      assert words == guard;
      offset, words := c.Put(jumpData, 15, offset, replacedInstruction, m0, t0, words);
      offset, words := EmitJump(c, originalFunctionAddrWithOffset, offset, m0, t0, words);
      assert words == guard + ResumeWords(realEffectiveFunctionAddress, replacedInstruction);
    }

    /** The whole trampoline; `offset` is the index of its last word. */
    method EmitTrampoline(c: Console) returns (offset: nat, ghost words: seq<Word>)
      modifies c`mem, c`trace
      ensures words == TrampolineWords(targetProcess, c.env.plat, realEffectiveFunctionAddress, replacedInstruction, replacementFunctionAddress)
      ensures offset + 1 == |words| <= 15 && c.Wrote(old(c.mem), old(c.trace), jumpData, words)
    {
      hide Next, Short, JumpWords, GuardWords, ResumeWords, Console.Wrote;
      ghost var m0, t0 := c.mem, c.trace;
      NothingWritten(c, jumpData);
      offset, words := 0, [];
      if targetProcess != AllProcesses {
        offset, words := EmitGuard(c, m0, t0);
      }
      // The jump that every `beq` of the guard goes to.
      JumpFacts(replacementFunctionAddress);
      assert [] + JumpWords(replacementFunctionAddress) == JumpWords(replacementFunctionAddress);
      offset, words := EmitJump(c, replacementFunctionAddress, offset, m0, t0, words);
      // The last word does not move the offset.
      offset := offset - 1;
    }

    method GenerateReplacementJump(c: Console)
      requires !c.halted
      modifies this`replaceWithInstruction, c`mem, c`trace, c`halted
      ensures c.halted <==> NeedsTrampoline(targetProcess, replacementFunctionAddress) && (jumpData == 0 || !Short(jumpData))
      ensures !c.halted ==>
                var far := replacementFunctionAddress > 0x01FFFFFC || targetProcess != AllProcesses;
                replaceWithInstruction == Ba(if far then jumpData else replacementFunctionAddress)
      ensures !c.halted ==>
                var ws := if NeedsTrampoline(targetProcess, replacementFunctionAddress)
                          then BlockWrites(c.env.xl, jumpData,
                                 TrampolineWords(targetProcess, c.env.plat, realEffectiveFunctionAddress, replacedInstruction, replacementFunctionAddress))
                          else [];
                && c.mem == Apply(old(c.mem), ws) && c.trace == old(c.trace) + ws
                && replaceWithInstruction == ReplacementWord(targetProcess, replacementFunctionAddress, jumpData)
    {
      hide Short, Ba, Apply, BlockWrites, TrampolineWords;
      replaceWithInstruction := Ba(replacementFunctionAddress);
      NoWrites(c.mem, c.trace);
      // `NeedsTrampoline`, in the words of the two fields.
      if replacementFunctionAddress > 0x01FFFFFC || targetProcess != AllProcesses {
        if jumpData == 0 {
          c.OSFatal();
          return;
        }
        var offset;
        ghost var words;
        offset, words := EmitTrampoline(c);
        // The overflow check: `TrampolineLayout` excludes it.
        if offset >= 15 {
          assert false;
        }
        // The function's own `ba` has to reach the trampoline.
        if !Short(jumpData) {
          c.OSFatal();
          return;
        }
        replaceWithInstruction := Ba(jumpData);
      }
    }
  }

  /** The tests, two words at a time. */
  lemma TestPairs(process: TargetProcess, short: bool)
    requires process != AllProcesses
    ensures var first, last := if short then 0x14 else 0x20, if short then 0x0C else 0x18;
            TestWords(process, short) ==
              if process.GameAndMenu? then [Cmpwi(WII_U_MENU), Beq(first)] + [Cmpwi(GAME), Beq(last)]
              else [Cmpwi(process.id), Beq(last)]
  {
    hide Cmpwi, Beq;
  }

  /** The words of `jumpToOriginal` in the pieces in which they are emitted. */
  lemma JumpToOriginalParts(eff: Addr, replaced: Word)
    ensures var a := Next(eff);
            JumpToOriginalWords(eff, replaced) ==
              if Short(a) then [] + [replaced] + [Ba(a)]
              else [] + [Lis(Hi(a)), Ori(Lo(a)), MTCTR] + [replaced] + [BCTR]
  {
    hide Next, Short, Lis, Ori, Ba, Hi, Lo;
  }

  lemma NoWrites(m: Memory, t: Writes)
    ensures Apply(m, []) == m && t + [] == t
  {
  }

  lemma NothingWritten(c: Console, b: Addr)
    ensures c.Wrote(c.mem, c.trace, b, [])
  {
    assert c.trace + [] == c.trace;
  }
}
