/**
 The dynamic loader as the module sees it, and what a function name resolves to when nothing is
 cached.
 */
module Loading {
  import opened Words
  import opened Machine
  import opened CodeGen

  /** The modules that are loaded, and their exported functions. A null handle is 0. */
  datatype Loader = Loader(handles: map<Library, Word>, exports: map<(Word, string), Addr>)

  /** OSDynLoad_IsModuleLoaded: the handle of a loaded library, 0 if it is not loaded. */
  function LoadedHandle(loader: Loader, library: Library): Word {
    if library in loader.handles then loader.handles[library] else 0
  }

  /** OSDynLoad_FindExport: the address of an exported function, 0 if there is none. */
  function FindExport(loader: Loader, handle: Word, name: string): Addr {
    if (handle, name) in loader.exports then loader.exports[(handle, name)] else 0
  }

  predicate IsRelativeBranch(w: Word) {
    w & 0xFC000003 == 0x48000000
  }

  /** One relative branch at the start of an exported function is followed. */
  function Hop(x: Addr, w: Word): Addr {
    if IsRelativeBranch(w) then Plus(x, RelativeOffset(w)) else x
  }

  /** The address of a function of the module with this handle, read through the address translation `xl`. */
  function LookupIn(loader: Loader, handle: Word, mem: Memory, xl: Memory, name: string): Addr {
    if handle == 0 then 0 else
      var x := FindExport(loader, handle, name);
      if x == 0 then 0 else Hop(x, mem(xl(x)))
  }

  /** ... when the handle is asked for afresh. `known` are the libraries the provider has a row for. */
  function Lookup(loader: Loader, known: set<Library>, mem: Memory, xl: Memory, library: Library, name: string): Addr {
    LookupIn(loader, if library in known then LoadedHandle(loader, library) else 0, mem, xl, name)
  }

  /** The decoder of the resolver and the interpreter agree on which words are relative branches, and on where they go. */
  lemma HopIsTheBranchTaken(code: Memory, sem: Semantics, c: Cpu)
    requires IsRelativeBranch(code(c.pc))
    ensures Decode(code(c.pc)).BranchRel?
    ensures Step(code, sem, c).pc == Hop(c.pc, code(c.pc))
  {
    RelativeBranchDecodes(code(c.pc));
    hide Decode, Plus, RelativeOffset;
  }

  lemma RelativeBranchDecodes(w: Word)
    requires IsRelativeBranch(w)
    ensures Decode(w) == BranchRel(RelativeOffset(w))
  {
    RelativeBranchBits(w);
    RelativeOffsetIsSignExtension(w);
    hide RelativeOffset, SignExtend16, SignExtend26;
  }

  lemma RelativeBranchBits(w: Word)
    requires w & 0xFC000003 == 0x48000000
    ensures w & 0xFFFF0000 != 0x3d600000 && w & 0xFFFF0000 != 0x616b0000 && w & 0xFFFF0000 != 0x816b0000
    ensures w & 0xFFFF0000 != 0x2c0b0000 && w & 0xFFFF0003 != 0x41820000 && w != MTCTR && w != BCTR
    ensures w & 0xFC000003 != 0x48000002
  {
  }

  /** What the resolver takes for a relative branch is what the decoder takes for one: opcode 18, AA and LK clear. */
  lemma RelativeBranchIff(w: Word)
    ensures IsRelativeBranch(w) <==> Decode(w).BranchRel?
    ensures IsRelativeBranch(w) <==> Opcode(w) == 18 && w & 3 == 0
  {
    hide Decode;
    BranchesDecoded(w);
    OpcodeBits(w);
  }

  /**
   Resolving an exported function: if its first word is a relative branch, the answer is where the
   processor is after executing it there; otherwise it is the export. Null handle, null answer.
   */
  lemma ResolutionIsTheJump(loader: Loader, handle: Word, mem: Memory, xl: Memory, name: string, code: Memory, sem: Semantics, c: Cpu)
    requires (handle, name) in loader.exports && c.pc == loader.exports[(handle, name)] && code(c.pc) == mem(xl(c.pc))
    ensures LookupIn(loader, handle, mem, xl, name) ==
              if handle == 0 || c.pc == 0 then 0
              else if Decode(mem(xl(c.pc))).BranchRel? then Step(code, sem, c).pc
              else c.pc
  {
    hide Decode, Plus, RelativeOffset, IsRelativeBranch, Step;
    RelativeBranchIff(code(c.pc));
    if IsRelativeBranch(code(c.pc)) {
      HopIsTheBranchTaken(code, sem, c);
    }
  }

  /** What is not exported is not resolved. */
  lemma NotExported(loader: Loader, handle: Word, mem: Memory, xl: Memory, name: string)
    requires (handle, name) !in loader.exports
    ensures LookupIn(loader, handle, mem, xl, name) == 0
  {
  }

  /** Where a resolution arrives from the export `x` whose first word is `w`. */
  lemma HopIs(x: Addr, w: Word)
    ensures Hop(x, w) == match Decode(w) case BranchRel(disp) => Plus(x, disp) case _ => x
  {
    RelativeBranchIff(w);
    if IsRelativeBranch(w) {
      RelativeBranchDecodes(w);
    }
    hide Decode, Plus, RelativeOffset, IsRelativeBranch;
  }

  lemma ResolutionIs(loader: Loader, handle: Word, mem: Memory, xl: Memory, name: string)
    ensures LookupIn(loader, handle, mem, xl, name) ==
            var x := if handle != 0 && (handle, name) in loader.exports then loader.exports[(handle, name)] else 0;
            if x == 0 then 0 else match Decode(mem(xl(x))) case BranchRel(disp) => Plus(x, disp) case _ => x
  {
    hide Decode, Plus, Hop;
    var x := FindExport(loader, handle, name);
    HopIs(x, mem(xl(x)));
  }

  /** A word that a patch writes is never followed. */
  lemma BaIsNotFollowed(a: Addr)
    ensures !IsRelativeBranch(Ba(a)) && forall x :: Hop(x, Ba(a)) == x
  {
    BaBits(a);
  }
}
