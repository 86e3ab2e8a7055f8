/**
 The patch list and the memory it works on, as a value, with one function for each thing the
 module does to it. The methods of the classes in `Patcher.dfy` are proved equal to these
 functions; the theorems about runs are about these functions.

 Memory is indexed by physical addresses. `None` as a new state means that OSFatal stopped the console.
 */
module PatchStack {
  import opened Words
  import opened Machine
  import opened CodeGen
  import opened Loading

  datatype Option<+T> = None | Some(value: T)

  /** A block of the jump heap. */
  datatype Block = Block(base: Addr, words: nat)

  /**
   Everything outside the module that its steps depend on: the loader, the libraries the provider
   has a row for, the executables found and the titles accepted, the translation of effective to
   physical addresses, whether the module's own stack has a physical address, and OSGetUPID.
   */
  datatype Env = Env(
    loader: Loader, known: set<Library>,
    executables: map<Target, Addr>, accepted: set<Target>,
    xl: Memory, readable: bool, plat: Platform)

  datatype State = State(mem: Memory, env: Env, entries: seq<Entry>, heap: set<Block>)

  // ----- writing -----

  type Writes = seq<(Addr, Word)>

  function Apply(mem: Memory, ws: Writes): Memory
    decreases |ws|
  {
    if ws == [] then mem else Apply(Updated(mem, ws[0].0, ws[0].1), ws[1..])
  }

  /** The physical writes that put `ws` at the effective address `b` and behind. */
  function BlockWrites(xl: Memory, b: Addr, ws: seq<Word>): Writes
    decreases |ws|
  {
    if ws == [] then [] else [(xl(b), ws[0])] + BlockWrites(xl, Next(b), ws[1..])
  }

  // ----- resolving -----

  predicate ShouldBePatched(env: Env, e: Entry) {
    e.target.InExecutable? ==> e.target in env.accepted
  }

  datatype Site = NotResolved | Resolved(eff: Addr, phys: Addr) | Untranslatable

  function Translated(env: Env, eff: Addr): Site {
    if env.xl(eff) == 0 then Untranslatable else Resolved(eff, env.xl(eff))
  }

  /** updateFunctionAddresses */
  function UpdatedAddresses(env: Env, mem: Memory, e: Entry): Site {
    match e.target
    case GivenAddress(_, _) => Resolved(e.eff, e.phys)
    case InExecutable(_, site) =>
      if e.target !in env.executables then NotResolved
      else if site.ByName? && env.executables[e.target] == 0 then NotResolved
      else Translated(env, env.executables[e.target])
    case LibraryFunction(library, name) =>
      var a := Lookup(env.loader, env.known, mem, env.xl, library, name);
      if a == 0 then NotResolved else Translated(env, a)
  }

  /** Where a patch would go now; `NotResolved` also when it is not meant for the running title. */
  function SiteOf(env: Env, mem: Memory, e: Entry): Site {
    if ShouldBePatched(env, e) then UpdatedAddresses(env, mem, e) else NotResolved
  }

  // ----- patching and restoring one entry -----

  /** The entry once patched at a site whose first word is `found`. */
  function Filled(e: Entry, eff: Addr, phys: Addr, found: Word): Entry {
    e.(eff := eff, phys := phys, replaced := found,
       replaceWith := ReplacementWord(e.process, e.repl, e.jumpData), isPatched := true)
  }

  /** The writes made before the function itself is touched, in the order they are made. */
  function BufferWrites(env: Env, e: Entry): Writes {
    BlockWrites(env.xl, e.jumpToOriginal, JumpToOriginalWords(e.eff, e.replaced))
    + [(env.xl(e.realCall), e.jumpToOriginal)]
    + if NeedsTrampoline(e.process, e.repl)
      then BlockWrites(env.xl, e.jumpData, TrampolineWords(e.process, env.plat, e.eff, e.replaced, e.repl))
      else []
  }

  /** All single-word writes of patching `e`, in the order they are made. */
  function PatchWrites(env: Env, e: Entry): Writes {
    BufferWrites(env, e) + [(e.phys, e.replaceWith)]
  }

  /** The null checks of the generators, and the one that a trampoline can be branched to. */
  predicate BuffersUsable(e: Entry) {
    && e.jumpToOriginal != 0
    && (NeedsTrampoline(e.process, e.repl) ==> e.jumpData != 0 && Short(e.jumpData))
  }

  datatype Outcome = Unchanged | Fatal | Done(mem: Memory, entry: Entry)

  /** PatchFunction on one entry. */
  function PatchValue(env: Env, mem: Memory, e: Entry): Outcome {
    if e.isPatched then Unchanged
    else match SiteOf(env, mem, e)
      case NotResolved => Unchanged
      case Untranslatable => Fatal
      case Resolved(eff, phys) =>
        if !env.readable || !BuffersUsable(e) then Fatal
        else
          var e' := Filled(e, eff, phys, mem(phys));
          Done(Apply(mem, PatchWrites(env, e')), e')
  }

  /** PatchFunction on entry `k`. */
  function PatchEntry(s: State, k: nat): (r: Option<State>)
    requires k < |s.entries|
    ensures r.Some? ==> |r.value.entries| == |s.entries|
  {
    match PatchValue(s.env, s.mem, s.entries[k])
    case Unchanged => Some(s)
    case Fatal => None
    case Done(mem', e') => Some(s.(mem := mem', entries := s.entries[k := e']))
  }

  /** The physical address that RestoreFunction writes to. */
  function RestoreAddress(env: Env, e: Entry): Addr {
    if e.target.GivenAddress? then e.phys else env.xl(e.eff)
  }

  /** The guards of RestoreFunction on a patched entry. */
  predicate CanRestore(env: Env, mem: Memory, e: Entry) {
    e.replaced != 0 && e.eff != 0 && env.readable && mem(e.phys) == e.replaceWith
  }

  /** RestoreFunction on entry `k`. */
  function RestoreEntry(s: State, k: nat): (r: State)
    requires k < |s.entries|
    ensures |r.entries| == |s.entries|
  {
    var e := s.entries[k];
    if e.isPatched && CanRestore(s.env, s.mem, e) then
      s.(mem := Updated(s.mem, RestoreAddress(s.env, e), e.replaced), entries := s.entries[k := e.(isPatched := false)])
    else s
  }

  /** The value RestoreFunction returns. */
  predicate RestoreSucceeds(s: State, k: nat)
    requires k < |s.entries|
  {
    s.entries[k].isPatched ==> CanRestore(s.env, s.mem, s.entries[k])
  }

  // ----- several entries -----

  predicate IndicesOf(idxs: seq<nat>, n: nat) {
    forall i :: 0 <= i < |idxs| ==> idxs[i] < n
  }

  /** PatchFunction on each of the entries, in order. */
  function PatchMany(s: State, idxs: seq<nat>): (r: Option<State>)
    requires IndicesOf(idxs, |s.entries|)
    ensures r.Some? ==> |r.value.entries| == |s.entries|
    decreases |idxs|
  {
    if idxs == [] then Some(s)
    else match PatchEntry(s, idxs[0])
      case None => None
      case Some(s') => PatchMany(s', idxs[1..])
  }

  /** RestoreFunction on each of the entries, last one first. */
  function RestoreMany(s: State, idxs: seq<nat>): (r: State)
    requires IndicesOf(idxs, |s.entries|)
    ensures |r.entries| == |s.entries|
    decreases |idxs|
  {
    if idxs == [] then s
    else RestoreMany(RestoreEntry(s, idxs[|idxs| - 1]), idxs[..|idxs| - 1])
  }

  function Upto(n: nat): (idxs: seq<nat>)
    ensures IndicesOf(idxs, n)
  {
    seq(n, i => i)
  }

  /** The patch-all loop. */
  function Sweep(s: State): Option<State> {
    PatchMany(s, Upto(|s.entries|))
  }

  // ----- removing -----

  /** The first position with this handle; the length of the list if there is none. */
  function Find(es: seq<Entry>, handle: nat): (k: nat)
    ensures k <= |es|
    ensures k < |es| ==> es[k].handle == handle
    ensures forall i :: 0 <= i < k ==> es[i].handle != handle
    decreases |es|
  {
    if es == [] then 0 else if es[0].handle == handle then 0 else 1 + Find(es[1..], handle)
  }

  /** The entries behind position `k`, from position `j` on, that have the physical address of entry `k`. */
  function LaterFrom(es: seq<Entry>, k: nat, j: nat): (idxs: seq<nat>)
    requires k < |es| && j <= |es|
    ensures IndicesOf(idxs, |es|) && forall i :: 0 <= i < |idxs| ==> j <= idxs[i]
    decreases |es| - j
  {
    if j == |es| then []
    else (if es[j].phys == es[k].phys then [j] else []) + LaterFrom(es, k, j + 1)
  }

  function Erase<T>(es: seq<T>, k: nat): seq<T>
    requires k < |es|
  {
    es[..k] + es[k + 1..]
  }

  /** Positions behind `k` after the erasure of position `k`. */
  function Shifted(idxs: seq<nat>): (r: seq<nat>)
    requires forall i :: 0 <= i < |idxs| ==> 0 < idxs[i]
    ensures |r| == |idxs| && forall i :: 0 <= i < |r| ==> r[i] == idxs[i] - 1
  {
    seq(|idxs|, i requires 0 <= i < |idxs| => idxs[i] - 1)
  }

  function BlocksOf(e: Entry): set<Block> {
    (if e.jumpToOriginal != 0 then {Block(e.jumpToOriginal, 5)} else {})
    + (if e.jumpData != 0 then {Block(e.jumpData, 15)} else {})
  }

  /** The state after the temporary and the wanted restores, with entry `k` still listed. */
  function Unstacked(s: State, k: nat): (r: State)
    requires k < |s.entries|
    ensures |r.entries| == |s.entries|
  {
    if s.entries[k].isPatched then RestoreEntry(RestoreMany(s, LaterFrom(s.entries, k, k + 1)), k) else s
  }

  /**
   FPRemoveFunctionPatch on the entry at position `k`. The code tests `isPatched` of the removed entry
   a second time before it applies the later patches again (`guardFirst == false`); with
   `guardFirst`, the value from before the restores is used.
   */
  function Remove(s: State, k: nat, guardFirst: bool): Option<State>
    requires k < |s.entries|
  {
    var e := s.entries[k];
    var s1 := Unstacked(s, k);
    var s2 := s1.(entries := Erase(s1.entries, k));
    var again := if guardFirst then e.isPatched else s1.entries[k].isPatched;
    var r := if again then PatchMany(s2, Shifted(LaterFrom(s.entries, k, k + 1))) else Some(s2);
    match r
    case None => None
    case Some(s3) => Some(s3.(heap := s3.heap - BlocksOf(e)))
  }

  // ----- adding -----

  /** What the caller of FPAddFunctionPatch passes; the handle is the address of the new object. */
  datatype Request = Request(handle: nat, target: Target, process: TargetProcess, repl: Addr, realCall: Addr)

  /** The cells of a block, as effective addresses. */
  function Cells(b: Addr, n: nat): set<Addr>
    decreases n
  {
    if n == 0 then {} else {b} + Cells(Next(b), n - 1)
  }

  predicate DisjointBlocks(a: Block, b: Block) {
    Cells(a.base, a.words) !! Cells(b.base, b.words)
  }

  /**
   MEMAllocFromExpHeapEx: `choice` is what the heap manager proposes. The result is null unless the
   proposal is a block that does not overlap a live one.
   */
  function Allocate(heap: set<Block>, choice: Addr, words: nat): Addr {
    if choice != 0 && forall b :: b in heap ==> DisjointBlocks(b, Block(choice, words)) then choice else 0
  }

  datatype AddResult = NoMemory(heap: set<Block>) | Stopped | Added(state: State)

  function NewEntry(q: Request, jumpData: Addr, jumpToOriginal: Addr): Entry {
    Entry(q.handle, q.target, q.process, q.repl, q.realCall, jumpData, jumpToOriginal,
          if q.target.GivenAddress? then q.target.eff else 0, if q.target.GivenAddress? then q.target.phys else 0,
          0, 0, false)
  }

  /** FPAddFunctionPatch, with the heap's two proposals. */
  function Add(s: State, q: Request, choice1: Addr, choice2: Addr): AddResult {
    var needs := NeedsTrampoline(q.process, q.repl);
    var jumpData := if needs then Allocate(s.heap, choice1, 15) else 0;
    if needs && jumpData == 0 then NoMemory(s.heap)
    else
      var heap1 := if needs then s.heap + {Block(jumpData, 15)} else s.heap;
      var jumpToOriginal := Allocate(heap1, choice2, 5);
      if jumpToOriginal == 0 then NoMemory(heap1 - (if needs then {Block(jumpData, 15)} else {}))
      else
        var e := NewEntry(q, jumpData, jumpToOriginal);
        var s1 := s.(heap := heap1 + {Block(jumpToOriginal, 5)}, entries := s.entries + [e]);
        match PatchEntry(s1, |s.entries|)
        case None => Stopped
        case Some(s2) => Added(s2)
  }

  // ----- noticing that code has gone -----

  /** CheckIfPatchedFunctionsAreStillInMemory: the entries below position `n`, from the last one down, with the two address sets. */
  function Scan(mem: Memory, readable: bool, es: seq<Entry>, n: nat, same: set<Addr>, gone: set<Addr>): (r: seq<Entry>)
    requires n <= |es|
    ensures |r| == |es|
    decreases n
  {
    if n == 0 then es
    else
      var e := es[n - 1];
      if !e.isPatched || e.phys in same then Scan(mem, readable, es, n - 1, same, gone)
      else if e.phys in gone then
        Scan(mem, readable, es[n - 1 := e.(isPatched := false)], n - 1, same, gone)
      else if !readable then Scan(mem, readable, es, n - 1, same, gone)
      else if mem(e.phys) == e.replaceWith then Scan(mem, readable, es, n - 1, same + {e.phys}, gone)
      else Scan(mem, readable, es[n - 1 := e.(isPatched := false)], n - 1, same, gone + {e.phys})
  }

  function Checked(s: State): State {
    s.(entries := Scan(s.mem, s.env.readable, s.entries, |s.entries|, {}, {}))
  }

  /** The flags that the unload callback clears for the library it recognises. */
  function Invalidated(es: seq<Entry>, library: Option<Library>): (r: seq<Entry>)
    ensures |r| == |es|
  {
    seq(|es|, i requires 0 <= i < |es| =>
      if library.Some? && es[i].target.LibraryFunction? && es[i].target.library == library.value
      then es[i].(isPatched := false) else es[i])
  }

  /** notify_callback, reason LOADED. */
  function Loaded(s: State): Option<State> {
    Sweep(s)
  }

  /** notify_callback, reason UNLOADED, for the library the provider found for the handle. */
  function Unloaded(s: State, library: Option<Library>): State {
    Checked(s.(entries := Invalidated(s.entries, library)))
  }

  /** WUMS_APPLICATION_STARTS */
  function Started(s: State, upid: Word): Option<State> {
    if upid != 2 && upid != 15 then Some(s) else Sweep(Checked(s))
  }
}
