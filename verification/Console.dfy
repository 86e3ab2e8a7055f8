/**
 The console the module runs on: memory, jump heap and surroundings. A call of OSFatal is recorded in
 `halted`; nothing is promised of what follows it.
 */
module Consoles {
  import opened Words
  import opened Machine
  import opened PatchStack
  import opened Chain

  lemma {:induction false} BlockWritesLast(xl: Memory, b: Addr, ws: seq<Word>, v: Word)
    ensures BlockWrites(xl, b, ws + [v]) == BlockWrites(xl, b, ws) + [(xl(Advance(b, |ws|)), v)]
    decreases |ws|
  {
    hide Next;
    if ws == [] {
      assert [v][1..] == [];
      assert BlockWrites(xl, b, [v]) == [(xl(b), v)] + BlockWrites(xl, Next(b), []);
      assert ws + [v] == [v];
    } else {
      assert (ws + [v])[1..] == ws[1..] + [v];
      BlockWritesLast(xl, Next(b), ws[1..], v);
    }
  }

  class Console {
    var env: Env
    var mem: Memory
    var heap: set<Block>
    var halted: bool
    /** All single-word writes so far, in order. */
    ghost var trace: Writes

    constructor (env: Env, mem: Memory)
      ensures this.env == env && this.mem == mem && heap == {} && !halted && trace == []
    {
      this.env, this.mem, heap, halted, trace := env, mem, {}, false, [];
    }

    method OSFatal()
      modifies this`halted
      ensures halted
    {
      halted := true;
    }

    /** KernelCopyData of one word to a physical address. */
    method StorePhysical(p: Addr, v: Word)
      modifies this`mem, this`trace
      ensures mem == Updated(old(mem), p, v) && trace == old(trace) + [(p, v)]
    {
      mem := Updated(mem, p, v);
      trace := trace + [(p, v)];
    }

    /** A store to an effective address. */
    method Store(a: Addr, v: Word)
      modifies this`mem, this`trace
      ensures mem == Updated(old(mem), env.xl(a), v) && trace == old(trace) + [(env.xl(a), v)]
    {
      StorePhysical(env.xl(a), v);
    }

    /** The memory and the trace are those of `m0` and `t0` with the words `emitted` written from `b` on. */
    ghost predicate Wrote(m0: Memory, t0: Writes, b: Addr, emitted: seq<Word>)
      reads this
    {
      && mem == Apply(m0, BlockWrites(env.xl, b, emitted))
      && trace == t0 + BlockWrites(env.xl, b, emitted)
    }

    /** `b[i] = v; i++` for a buffer of `size` words, of which the first `i` have been written. */
    method Put(b: Addr, size: nat, i: nat, v: Word, ghost m0: Memory, ghost t0: Writes, ghost emitted: seq<Word>)
      returns (next: nat, ghost more: seq<Word>)
      requires i < size
      requires i == |emitted| && Wrote(m0, t0, b, emitted)
      modifies this`mem, this`trace
      ensures next == i + 1 && more == emitted + [v] && Wrote(m0, t0, b, more)
    {
      hide Advance;
      BlockWritesLast(env.xl, b, emitted, v);
      ApplyLast(m0, BlockWrites(env.xl, b, emitted), env.xl(Advance(b, i)), v);
      Store(Advance(b, i), v);
      next, more := i + 1, emitted + [v];
    }

    method Alloc(choice: Addr, words: nat) returns (b: Addr)
      modifies this`heap
      ensures b == Allocate(old(heap), choice, words)
      ensures heap == old(heap) + if b != 0 then {Block(b, words)} else {}
    {
      if choice != 0 && forall k :: k in heap ==> DisjointBlocks(k, Block(choice, words)) {
        b := choice;
        heap := heap + {Block(b, words)};
      } else {
        b := 0;
      }
    }

    method Free(b: Addr, words: nat)
      modifies this`heap
      ensures heap == old(heap) - {Block(b, words)}
    {
      heap := heap - {Block(b, words)};
    }
  }
}
