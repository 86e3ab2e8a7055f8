/**
 The provider of function addresses: a table of libraries with cached module handles.
 */
module FunctionAddressProvider {
  import opened Words
  import opened Machine
  import opened CodeGen
  import opened Loading
  import opened PatchStack

  /** A row of the table. A handle that is not cached is 0. */
  datatype Row = Row(library: Library, handle: Word)

  ghost predicate OneRowEach(rows: seq<Row>) {
    forall i, j :: 0 <= i < j < |rows| ==> rows[i].library != rows[j].library
  }

  function Libraries(rows: seq<Row>): set<Library> {
    set i | 0 <= i < |rows| :: rows[i].library
  }

  /** The position of a library's row; the length of the table if there is none. */
  function RowOf(rows: seq<Row>, library: Library): (k: nat)
    ensures k <= |rows|
    ensures k < |rows| ==> rows[k].library == library
    ensures forall i :: 0 <= i < k ==> rows[i].library != library
    decreases |rows|
  {
    if rows == [] || rows[0].library == library then 0 else 1 + RowOf(rows[1..], library)
  }

  /** The position of the first row with this handle; the length of the table if there is none. */
  function RowWith(rows: seq<Row>, handle: Word): (k: nat)
    ensures k <= |rows|
    ensures k < |rows| ==> rows[k].handle == handle
    ensures forall i :: 0 <= i < k ==> rows[i].handle != handle
    decreases |rows|
  {
    if rows == [] || rows[0].handle == handle then 0 else 1 + RowWith(rows[1..], handle)
  }

  /** The table after a resolution: the handle of the library is asked for if it is not cached. */
  function Asked(rows: seq<Row>, loader: Loader, library: Library): seq<Row> {
    var k := RowOf(rows, library);
    if k < |rows| && rows[k].handle == 0 then rows[k := rows[k].(handle := LoadedHandle(loader, library))] else rows
  }

  /** The handle a resolution works with. */
  function HandleFor(rows: seq<Row>, loader: Loader, library: Library): Word {
    var k := RowOf(rows, library);
    if k < |rows| then Asked(rows, loader, library)[k].handle else 0
  }

  function WithoutHandle(rows: seq<Row>, handle: Word): seq<Row> {
    var k := RowWith(rows, handle);
    if k < |rows| then rows[k := rows[k].(handle := 0)] else rows
  }

  function TypeForHandle(rows: seq<Row>, handle: Word): Option<Library> {
    var k := RowWith(rows, handle);
    if k < |rows| then Some(rows[k].library) else None
  }

  function AllReset(rows: seq<Row>): (r: seq<Row>)
    ensures |r| == |rows|
  {
    seq(|rows|, i requires 0 <= i < |rows| => rows[i].(handle := 0))
  }

  class Provider {
    var rows: seq<Row>

    constructor (libraries: seq<Library>)
      ensures rows == seq(|libraries|, i requires 0 <= i < |libraries| => Row(libraries[i], 0))
    {
      rows := seq(|libraries|, i requires 0 <= i < |libraries| => Row(libraries[i], 0));
    }

    method GetEffectiveAddressOfFunction(library: Library, name: string, loader: Loader, mem: Memory, xl: Memory)
      returns (realAddr: Addr)
      modifies this
      ensures rows == Asked(old(rows), loader, library)
      ensures realAddr == LookupIn(loader, HandleFor(old(rows), loader, library), mem, xl, name)
      ensures var h := HandleFor(old(rows), loader, library);
              var x := if h != 0 && (h, name) in loader.exports then loader.exports[(h, name)] else 0;
              realAddr == if x == 0 then 0 else match Decode(mem(xl(x))) case BranchRel(disp) => Plus(x, disp) case _ => x
    {
      ResolutionIs(loader, HandleFor(old(rows), loader, library), mem, xl, name);
      hide Plus, RelativeOffset, IsRelativeBranch;
      realAddr := 0;
      var rplHandle: Word := 0;
      var i := 0;
      while i < |rows|
        invariant 0 <= i <= |rows| && rows == old(rows) && rplHandle == 0
        invariant i <= RowOf(rows, library)
      {
        if rows[i].library == library {
          if rows[i].handle == 0 {
            rows := rows[i := rows[i].(handle := LoadedHandle(loader, library))];
          }
          if rows[i].handle == 0 {
            return 0;
          }
          rplHandle := rows[i].handle;
          break;
        }
        i := i + 1;
      }
      if rplHandle == 0 {
        return 0;
      }
      realAddr := FindExport(loader, rplHandle, name);
      if realAddr == 0 {
        return 0;
      }
      var realAddrData := mem(xl(realAddr));
      realAddr := FollowStub(realAddr, realAddrData);
    }

    /** The decoding of a relative branch at the start of the export, as the code does it. */
    static method FollowStub(exported: Addr, realAddrData: Word) returns (realAddr: Addr)
      ensures realAddr == Hop(exported, realAddrData)
    {
      hide Plus;
      realAddr := exported;
      if realAddrData & 0xFC000003 == 0x48000000 {
        var addressDiff := realAddrData & 0x01FFFFFC;
        if realAddrData & 0x02000000 == 0x02000000 {
          addressDiff := 0xFE000000 + addressDiff;
        }
        realAddr := Plus(realAddr, addressDiff);
      }
    }

    method ResetHandles()
      modifies this
      ensures rows == AllReset(old(rows))
      ensures |rows| == |old(rows)| && forall i :: 0 <= i < |rows| ==> rows[i] == Row(old(rows)[i].library, 0)
    {
      var i := 0;
      while i < |rows|
        invariant 0 <= i <= |rows| == |old(rows)|
        invariant forall j :: 0 <= j < i ==> rows[j] == old(rows)[j].(handle := 0)
        invariant forall j :: i <= j < |rows| ==> rows[j] == old(rows)[j]
      {
        rows := rows[i := rows[i].(handle := 0)];
        i := i + 1;
      }
    }

    method GetTypeForHandle(handle: Word) returns (library: Option<Library>)
      ensures library == TypeForHandle(rows, handle)
    {
      var i := 0;
      while i < |rows|
        invariant 0 <= i <= |rows| && i <= RowWith(rows, handle)
      {
        if rows[i].handle == handle {
          return Some(rows[i].library);
        }
        i := i + 1;
      }
      return None;
    }

    method ResetHandle(handle: Word) returns (found: bool)
      modifies this
      ensures rows == WithoutHandle(old(rows), handle)
      ensures found <==> exists i :: 0 <= i < |old(rows)| && old(rows)[i].handle == handle
    {
      var i := 0;
      while i < |rows|
        invariant 0 <= i <= |rows| && i <= RowWith(rows, handle) && rows == old(rows)
      {
        if rows[i].handle == handle {
          rows := rows[i := rows[i].(handle := 0)];
          return true;
        }
        i := i + 1;
      }
      return false;
    }
  }

  // ----- the table, row by row -----

  /** No row before `i` is of the same library. */
  predicate FirstOfLibrary(rows: seq<Row>, i: nat)
    requires i < |rows|
  {
    forall j :: 0 <= j < i ==> rows[j].library != rows[i].library
  }

  /** No row before `i` has the same handle. */
  predicate FirstWithHandle(rows: seq<Row>, i: nat)
    requires i < |rows|
  {
    forall j :: 0 <= j < i ==> rows[j].handle != rows[i].handle
  }

  /** Resolving fills in one handle at most: the missing one in the library's first row, with what the loader says. */
  lemma AskedRows(rows: seq<Row>, loader: Loader, library: Library)
    ensures |Asked(rows, loader, library)| == |rows|
    ensures forall i :: 0 <= i < |rows| ==>
              Asked(rows, loader, library)[i] ==
              if rows[i].library == library && rows[i].handle == 0 && FirstOfLibrary(rows, i)
              then Row(library, if library in loader.handles then loader.handles[library] else 0) else rows[i]
  {
    var k := RowOf(rows, library);
    forall i | 0 <= i < |rows| && rows[i].library == library && FirstOfLibrary(rows, i)
      ensures i == k
    {
    }
  }

  /** A cached handle is used as it is, right or stale; only a missing one is asked for; without a row there is none. */
  lemma HandleForRows(rows: seq<Row>, loader: Loader, library: Library)
    ensures forall i :: 0 <= i < |rows| && rows[i].library == library && FirstOfLibrary(rows, i) ==>
              HandleFor(rows, loader, library) ==
              if rows[i].handle != 0 then rows[i].handle
              else if library in loader.handles then loader.handles[library] else 0
    ensures (forall i :: 0 <= i < |rows| ==> rows[i].library != library) ==> HandleFor(rows, loader, library) == 0
  {
    var k := RowOf(rows, library);
    forall i | 0 <= i < |rows| && rows[i].library == library && FirstOfLibrary(rows, i)
      ensures i == k
    {
    }
  }

  /** An unload clears the first row with the handle, and no other. */
  lemma WithoutHandleRows(rows: seq<Row>, handle: Word)
    ensures |WithoutHandle(rows, handle)| == |rows|
    ensures forall i :: 0 <= i < |rows| ==>
              WithoutHandle(rows, handle)[i] ==
              if rows[i].handle == handle && FirstWithHandle(rows, i) then Row(rows[i].library, 0) else rows[i]
  {
    var k := RowWith(rows, handle);
    forall i | 0 <= i < |rows| && rows[i].handle == handle && FirstWithHandle(rows, i)
      ensures i == k
    {
    }
  }

  /** The library of the first row with the handle. */
  lemma TypeForHandleRows(rows: seq<Row>, handle: Word)
    ensures forall i :: 0 <= i < |rows| && rows[i].handle == handle && FirstWithHandle(rows, i) ==>
              TypeForHandle(rows, handle) == Some(rows[i].library)
    ensures (forall i :: 0 <= i < |rows| ==> rows[i].handle != handle) ==> TypeForHandle(rows, handle) == None
  {
    var k := RowWith(rows, handle);
    forall i | 0 <= i < |rows| && rows[i].handle == handle && FirstWithHandle(rows, i)
      ensures i == k
    {
    }
  }

  // ----- the cache agrees with the loader -----

  /** Loaded modules have non-null handles, different ones for different libraries. */
  ghost predicate LoaderSound(loader: Loader) {
    && (forall l :: l in loader.handles ==> loader.handles[l] != 0)
    && (forall l, m :: l in loader.handles && m in loader.handles && l != m ==> loader.handles[l] != loader.handles[m])
  }

  /** Each cached handle is null or the loader's current handle of that library. */
  ghost predicate Coherent(rows: seq<Row>, loader: Loader) {
    && OneRowEach(rows)
    && forall i :: 0 <= i < |rows| ==> rows[i].handle == 0 || rows[i].handle == LoadedHandle(loader, rows[i].library)
  }

  /** Cached resolution equals a fresh query. */
  lemma CachedIsFresh(rows: seq<Row>, loader: Loader, mem: Memory, xl: Memory, library: Library, name: string)
    requires Coherent(rows, loader)
    ensures LookupIn(loader, HandleFor(rows, loader, library), mem, xl, name)
         == Lookup(loader, Libraries(rows), mem, xl, library, name)
  {
    hide LookupIn;
    var k := RowOf(rows, library);
    if k == |rows| {
      assert library !in Libraries(rows);
    } else {
      assert rows[k].library in Libraries(rows);
    }
  }

  datatype LoaderEvent =
    | Loads(library: Library, handle: Word)
    | Unloads(library: Library)
    | Resolves(library: Library)
    | ApplicationEnds(next: Loader)

  /** What is assumed of an event: handles are non-null and new; only loaded modules are unloaded. */
  ghost predicate LoaderEventSound(loader: Loader, ev: LoaderEvent) {
    match ev
    case Loads(library, handle) =>
      handle != 0 && library !in loader.handles && forall l :: l in loader.handles ==> loader.handles[l] != handle
    case Unloads(library) => library in loader.handles
    case Resolves(_) => true
    case ApplicationEnds(next) => LoaderSound(next)
  }

  function LoaderAfter(loader: Loader, ev: LoaderEvent): Loader {
    match ev
    case Loads(library, handle) => loader.(handles := loader.handles[library := handle])
    case Unloads(library) => loader.(handles := loader.handles - {library})
    case Resolves(_) => loader
    case ApplicationEnds(next) => next
  }

  /** The table after the event; each unload is reported with the handle of the module. */
  function RowsAfter(rows: seq<Row>, loader: Loader, ev: LoaderEvent): seq<Row> {
    match ev
    case Loads(_, _) => rows
    case Unloads(library) => WithoutHandle(rows, LoadedHandle(loader, library))
    case Resolves(library) => Asked(rows, loader, library)
    case ApplicationEnds(_) => AllReset(rows)
  }

  lemma EventKeepsCoherent(rows: seq<Row>, loader: Loader, ev: LoaderEvent)
    requires LoaderSound(loader) && Coherent(rows, loader) && LoaderEventSound(loader, ev)
    ensures LoaderSound(LoaderAfter(loader, ev)) && Coherent(RowsAfter(rows, loader, ev), LoaderAfter(loader, ev))
    ensures Libraries(RowsAfter(rows, loader, ev)) == Libraries(rows)
  {
    var rows' := RowsAfter(rows, loader, ev);
    assert |rows'| == |rows| && forall i :: 0 <= i < |rows| ==> rows'[i].library == rows[i].library;
    SameLibraries(rows, rows');
  }

  lemma SameLibraries(rows: seq<Row>, rows': seq<Row>)
    requires |rows'| == |rows| && forall i :: 0 <= i < |rows| ==> rows'[i].library == rows[i].library
    ensures Libraries(rows') == Libraries(rows)
  {
    forall l
      ensures l in Libraries(rows') <==> l in Libraries(rows)
    {
      if i :| 0 <= i < |rows| && rows[i].library == l { assert rows'[i].library == l; }
      if i :| 0 <= i < |rows| && rows'[i].library == l { assert rows[i].library == l; }
    }
  }

  function LoaderAfterAll(loader: Loader, evs: seq<LoaderEvent>): Loader
    decreases |evs|
  {
    if evs == [] then loader else LoaderAfterAll(LoaderAfter(loader, evs[0]), evs[1..])
  }

  function RowsAfterAll(rows: seq<Row>, loader: Loader, evs: seq<LoaderEvent>): seq<Row>
    decreases |evs|
  {
    if evs == [] then rows else RowsAfterAll(RowsAfter(rows, loader, evs[0]), LoaderAfter(loader, evs[0]), evs[1..])
  }

  ghost predicate LoaderRunSound(loader: Loader, evs: seq<LoaderEvent>)
    decreases |evs|
  {
    evs != [] ==> LoaderEventSound(loader, evs[0]) && LoaderRunSound(LoaderAfter(loader, evs[0]), evs[1..])
  }

  /** Over every run of loads, resolutions, reported unloads and application ends, the cache stays right. */
  lemma {:induction false} EveryRunKeepsCacheFresh(rows: seq<Row>, loader: Loader, evs: seq<LoaderEvent>,
                                                   mem: Memory, xl: Memory, library: Library, name: string)
    requires LoaderSound(loader) && Coherent(rows, loader) && LoaderRunSound(loader, evs)
    ensures var rows', loader' := RowsAfterAll(rows, loader, evs), LoaderAfterAll(loader, evs);
            && Coherent(rows', loader')
            && LookupIn(loader', HandleFor(rows', loader', library), mem, xl, name)
               == Lookup(loader', Libraries(rows), mem, xl, library, name)
    decreases |evs|
  {
    hide Coherent, LoaderSound, LoaderEventSound, RowsAfter, LoaderAfter, LookupIn, HandleFor;
    if evs == [] {
      CachedIsFresh(rows, loader, mem, xl, library, name);
    } else {
      EventKeepsCoherent(rows, loader, evs[0]);
      EveryRunKeepsCacheFresh(RowsAfter(rows, loader, evs[0]), LoaderAfter(loader, evs[0]), evs[1..], mem, xl, library, name);
    }
  }

  /** An unload that is not reported leaves the cache right exactly when the handle was not cached. */
  lemma UnreportedUnload(rows: seq<Row>, loader: Loader, library: Library)
    requires LoaderSound(loader) && Coherent(rows, loader) && library in loader.handles
    ensures Coherent(rows, LoaderAfter(loader, Unloads(library)))
       <==> (forall i :: 0 <= i < |rows| ==> rows[i].library == library ==> rows[i].handle == 0)
  {
    var loader' := LoaderAfter(loader, Unloads(library));
    assert LoadedHandle(loader', library) == 0;
    assert forall l :: l != library ==> LoadedHandle(loader', l) == LoadedHandle(loader, l);
  }

  /** The unload callback recognises a library exactly when its handle is cached, and never mistakes one for another. */
  lemma TypeOfUnloaded(rows: seq<Row>, loader: Loader, library: Library)
    requires LoaderSound(loader) && Coherent(rows, loader) && library in loader.handles
    ensures var t := TypeForHandle(rows, LoadedHandle(loader, library));
            && (t == None || t == Some(library))
            && (t == Some(library) <==> exists i :: 0 <= i < |rows| && rows[i].library == library && rows[i].handle != 0)
  {
    var h := LoadedHandle(loader, library);
    var k := RowWith(rows, h);
    if k < |rows| {
      assert rows[k].handle == LoadedHandle(loader, rows[k].library);
    }
  }
}
