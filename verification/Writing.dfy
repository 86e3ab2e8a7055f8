/**
 Sequences of single-word writes: what they leave alone and what they put down.
 */
module Writing {
  import opened Words
  import opened Machine
  import opened CodeGen
  import opened PatchStack

  /** Two addresses that have a physical address have different ones; 0 stands for none. */
  ghost predicate Injective(xl: Memory) {
    forall a: Addr, b: Addr :: xl(a) == xl(b) && xl(a) != 0 ==> a == b
  }

  /** The memory as the processor addresses it. */
  function View(mem: Memory, xl: Memory): Memory {
    (a: Addr) => mem(xl(a))
  }

  // ----- writes -----

  predicate Misses(ws: Writes, p: Addr) {
    forall i :: 0 <= i < |ws| ==> ws[i].0 != p
  }

  lemma {:induction false} ApplyMisses(mem: Memory, ws: Writes, p: Addr)
    requires Misses(ws, p)
    ensures Apply(mem, ws)(p) == mem(p)
    decreases |ws|
  {
    if ws != [] {
      assert Misses(ws[1..], p) by {
        forall i | 0 <= i < |ws[1..]| ensures ws[1..][i].0 != p { assert ws[1..][i] == ws[i + 1]; }
      }
      assert ws[0].0 != p;
      ApplyMisses(Updated(mem, ws[0].0, ws[0].1), ws[1..], p);
    }
  }

  lemma {:induction false} ApplyAdd(mem: Memory, ws: Writes, vs: Writes)
    ensures Apply(mem, ws + vs) == Apply(Apply(mem, ws), vs)
    decreases |ws|
  {
    if ws == [] {
      assert ws + vs == vs;
    } else {
      assert (ws + vs)[1..] == ws[1..] + vs;
      ApplyAdd(Updated(mem, ws[0].0, ws[0].1), ws[1..], vs);
    }
  }

  lemma MissesAdd(ws: Writes, vs: Writes, p: Addr)
    ensures Misses(ws + vs, p) <==> Misses(ws, p) && Misses(vs, p)
  {
    if Misses(ws + vs, p) {
      forall i | 0 <= i < |ws| ensures ws[i].0 != p { assert (ws + vs)[i] == ws[i]; }
      forall i | 0 <= i < |vs| ensures vs[i].0 != p { assert (ws + vs)[|ws| + i] == vs[i]; }
    }
  }

  // ----- blocks of cells -----

  lemma {:induction false} CellIndex(b: Addr, n: nat, x: Addr) returns (i: nat)
    requires x in Cells(b, n)
    ensures i < n && x == Advance(b, i)
    decreases n
  {
    hide Next;
    i := 0;
    if x != b {
      var i' := CellIndex(Next(b), n - 1, x);
      i := i' + 1;
    }
  }

  lemma {:induction false} CellsGrow(b: Addr, m: nat, n: nat)
    requires m <= n
    ensures Cells(b, m) <= Cells(b, n)
    decreases m
  {
    hide Next;
    if m > 0 {
      CellsGrow(Next(b), m - 1, n - 1);
    }
  }

  /** A word is not among the 14 that follow it. */
  lemma NotInNext(b: Addr, n: nat)
    requires n <= 14
    ensures b !in Cells(Next(b), n)
  {
    if b in Cells(Next(b), n) {
      hide Cells, Next, Advance;
      var i := CellIndex(Next(b), n, b);
      AdvanceAdd(b, 1, i);
      AdvanceOne(b, 0);
      NeverBack(b, i + 1);
    }
  }

  lemma NeverBack(b: Addr, n: nat)
    requires 0 < n <= 14
    ensures Advance(b, n) != b
  {
    hide Next, Advance, Plus;
    EightWordsOn(b);
    SumsOf(b);
    AdvanceOne(b, 0); AdvanceOne(b, 1); AdvanceOne(b, 2); AdvanceOne(b, 3); AdvanceOne(b, 6);
    var q := b + 32;
    SixMore(b);
    AdvanceOne(b, 8); AdvanceOne(b, 9); AdvanceOne(b, 10); AdvanceOne(b, 11); AdvanceOne(b, 12); AdvanceOne(b, 13);
  }

  lemma SixMore(b: Addr)
    ensures Next(b + 32) == b + 36 && Next(b + 36) == b + 40 && Next(b + 40) == b + 44
    ensures Next(b + 44) == b + 48 && Next(b + 48) == b + 52 && Next(b + 52) == b + 56
  {
  }

  // ----- writing a block -----

  lemma {:induction false} BlockWritesMiss(xl: Memory, b: Addr, ws: seq<Word>, p: Addr)
    requires forall c :: c in Cells(b, |ws|) ==> xl(c) != p
    ensures Misses(BlockWrites(xl, b, ws), p)
    decreases |ws|
  {
    hide Next;
    if ws != [] {
      assert b in Cells(b, |ws|);
      BlockWritesMiss(xl, Next(b), ws[1..], p);
      MissesAdd([(xl(b), ws[0])], BlockWrites(xl, Next(b), ws[1..]), p);
    }
  }

  lemma ViewAt(mem: Memory, xl: Memory, c: Addr)
    ensures View(mem, xl)(c) == mem(xl(c))
  {
  }

  /** After a block is written, the processor sees its words there. */
  lemma {:induction false} BlockWritten(mem: Memory, xl: Memory, b: Addr, ws: seq<Word>)
    requires Injective(xl) && |ws| <= 15
    requires forall c :: c in Cells(b, |ws|) ==> xl(c) != 0
    ensures Holds(View(Apply(mem, BlockWrites(xl, b, ws)), xl), b, ws)
    decreases |ws|
  {
    hide Next, Injective, View, Apply, Misses;
    if ws != [] {
      FirstWordStays(mem, xl, b, ws);
      CellsAfter(b, |ws|);
      BlockWritten(Updated(mem, xl(b), ws[0]), xl, Next(b), ws[1..]);
    }
  }

  lemma CellsAfter(b: Addr, n: nat)
    requires n > 0
    ensures b in Cells(b, n) && Cells(Next(b), n - 1) <= Cells(b, n)
  {
    hide Next;
  }

  /** The words behind the first one are not stored over it. */
  lemma FirstWordStays(mem: Memory, xl: Memory, b: Addr, ws: seq<Word>)
    requires Injective(xl) && 0 < |ws| <= 15
    requires forall c :: c in Cells(b, |ws|) ==> xl(c) != 0
    ensures var rest := BlockWrites(xl, Next(b), ws[1..]);
            && Apply(mem, BlockWrites(xl, b, ws)) == Apply(Updated(mem, xl(b), ws[0]), rest)
            && View(Apply(mem, BlockWrites(xl, b, ws)), xl)(b) == ws[0]
  {
    hide Next, Misses, View;
    var rest := BlockWrites(xl, Next(b), ws[1..]);
    var mem1 := Updated(mem, xl(b), ws[0]);
    assert BlockWrites(xl, b, ws)[1..] == rest;
    NotInNext(b, |ws| - 1);
    CellsAfter(b, |ws|);
    BlockWritesMiss(xl, Next(b), ws[1..], xl(b));
    ApplyMisses(mem1, rest, xl(b));
    ViewAt(Apply(mem1, rest), xl, b);
  }

  lemma {:induction false} HoldsFrame(v: Memory, v': Memory, b: Addr, ws: seq<Word>)
    requires Holds(v, b, ws) && forall c :: c in Cells(b, |ws|) ==> v(c) == v'(c)
    ensures Holds(v', b, ws)
    decreases |ws|
  {
    hide Next;
    if ws != [] {
      assert b in Cells(b, |ws|);
      HoldsFrame(v, v', Next(b), ws[1..]);
    }
  }
}
