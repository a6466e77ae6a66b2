/**
 `PendSV_Handler`, instruction by instruction, `arch_switch_to` and `arch_thread_stack_init`
 (arch/arm/cortex_m/core/context_switch.S and core/irq.c), proved to be the steps of the
 context-switch machine.
 */
module PendSV {
  import opened ContextSwitch

  class Processor {
    var r: seq<int>              // R0 to R11
    var psp: int
    var msp: int
    var mem: map<int, int>
    var stackPtr: map<int, int>
    var running: int
    var next: int
    var pending: bool
    const stackTop: int          // __StackTop

    /**
     The machine state during the exception; what the hardware has stacked is left blank, for the
     handler has no use for it.
     */
    ghost function View(phase: Phase): Machine
      requires |r| == 12
      reads this
    {
      Machine(Context([], r[4..12], psp), mem, stackPtr, running, next, pending, phase)
    }

    /** `subs rd, rd, #n` */
    method Sub(rd: nat, n: int)
      requires |r| == 12 && rd < 12
      modifies this`r
      ensures r == old(r)[rd := old(r)[rd] - n]
    {
      r := r[rd := r[rd] - n];
    }

    /** `mov rd, rs` */
    method Mov(rd: nat, rs: nat)
      requires |r| == 12 && rd < 12 && rs < 12
      modifies this`r
      ensures r == old(r)[rd := old(r)[rs]]
    {
      r := r[rd := r[rs]];
    }

    /** `stmia r0!, {r4-r7}` */
    method StoreMultiple()
      requires |r| == 12
      modifies this`r, this`mem
      ensures mem == Write(old(mem), old(r)[0], old(r)[4..8])
      ensures r == old(r)[0 := old(r)[0] + 16]
    {
      var a := r[0];
      mem := mem[a := r[4]][a + 4 := r[5]][a + 8 := r[6]][a + 12 := r[7]];
      FourWrites(old(mem), a, r[4], r[5], r[6], r[7]);
      assert r[4..8] == [r[4], r[5], r[6], r[7]];
      r := r[0 := a + 16];
    }

    /** `ldmia r0!, {r4-r7}` */
    method LoadMultiple()
      requires |r| == 12
      modifies this`r
      ensures |r| == 12 && r[4..8] == Read(mem, old(r)[0], 4)
      ensures r[0] == old(r)[0] + 16 && r[1..4] == old(r)[1..4] && r[8..] == old(r)[8..]
    {
      var a := r[0];
      FourReads(mem, a);
      r := r[4 := Word(mem, a)][5 := Word(mem, a + 4)][6 := Word(mem, a + 8)][7 := Word(mem, a + 12)];
      r := r[0 := a + 16];
      assert r[4..8] == [Word(mem, a), Word(mem, a + 4), Word(mem, a + 8), Word(mem, a + 12)];
    }

    /** From the save of R4-R7 to `str r0, [r1]` */
    method SaveRegisters()
      requires |r| == 12 && r[1] == running
      modifies this`r, this`mem, this`stackPtr
      ensures |r| == 12
      ensures mem == SaveLow(old(mem), psp, old(r)[4..12])
      ensures stackPtr == old(stackPtr)[running := psp - 32]
    {
      hide Write;
      ghost var low := r[4..12];
      r := r[0 := psp];          // mrs r0, psp
      Sub(0, 16);
      assert r[4..8] == low[..4];
      StoreMultiple();
      Sub(0, 16);
      Mov(4, 8);
      Mov(5, 9);
      Mov(6, 10);
      Mov(7, 11);
      Sub(0, 16);
      assert r[4..8] == low[4..];
      StoreMultiple();
      Sub(0, 16);
      stackPtr := stackPtr[r[1] := r[0]];
    }

    /** From the load of the next thread's stack pointer to `msr psp, r0` */
    method RestoreRegisters()
      requires |r| == 12
      modifies this`r, this`psp
      ensures |r| == 12 && r[1] == next
      ensures r[4..12] == LoadLow(mem, Word(stackPtr, next)) && psp == Word(stackPtr, next) + 32
    {
      hide Read, Word;
      r := r[1 := next];
      r := r[0 := Word(stackPtr, r[1])];
      ghost var sp := r[0];
      LoadMultiple();
      ghost var high := r[4..8];
      Mov(8, 4);
      Mov(9, 5);
      Mov(10, 6);
      Mov(11, 7);
      assert r[8..] == high && r[0] == sp + 16 && r[1] == next by {
        assert r[8] == high[0] && r[9] == high[1] && r[10] == high[2] && r[11] == high[3];
      }
      ghost var was := r;
      LoadMultiple();
      assert r[1..4][0] == was[1..4][0];
      assert r[4..12] == r[4..8] + r[8..];
      psp := r[0];
    }

    /** `PendSV_Handler`, with interrupts masked throughout */
    method Handle()
      requires |r| == 12
      modifies this
      ensures |r| == 12 && View(Swapped) == Handler(old(View(Entered)))
    {
      hide SaveLow, LoadLow, Word;
      r := r[1 := running];
      assert r[4..12] == old(r)[4..12];
      if r[1] != NULL {
        SaveRegisters();
      } else {
        msp := stackTop;
      }
      RestoreRegisters();
      running := r[1];
    }

    /** `arch_switch_to`: only the latest choice is remembered. */
    method SwitchThread(from: int, to: int)
      requires |r| == 12 && to in stackPtr
      modifies this`next, this`pending
      ensures forall phase, stacks :: View(phase) == Next(old(View(phase)), stacks, SwitchTo(to))
    {
      next := to;
      pending := true;
    }

    /** `arch_thread_stack_init` */
    method InitStack(t: int, stack: Region, arg: int, entry: int, exit: int)
      requires |r| == 12
      modifies this`mem, this`stackPtr
      ensures View(InThread) == Prepared(old(View(InThread)), t, Top(stack), arg, entry, exit)
      ensures Laid(old(mem), mem, Top(stack), arg, entry, exit) && stackPtr == old(stackPtr)[t := Top(stack) - 64]
    {
      hide Write, Read, Laid;
      var top := Top(stack);
      var frame := top - 32;
      mem := mem[frame := arg][frame + 4 := 1][frame + 8 := 2][frame + 12 := 3];
      mem := mem[frame + 16 := 12][frame + 20 := exit][frame + 24 := entry][frame + 28 := 0x0100_0000];
      FourWrites(old(mem), frame, arg, 1, 2, 3);
      FourWrites(Write(old(mem), frame, [arg, 1, 2, 3]), frame + 16, 12, exit, entry, 0x0100_0000);
      ghost var c := FirstContext(top, arg, entry, exit);
      assert c.frame == [arg, 1, 2, 3] + [12, exit, entry, 0x0100_0000];
      WriteSplit(old(mem), frame, [arg, 1, 2, 3], [12, exit, entry, 0x0100_0000]);
      var saved := frame - 32;
      ghost var before := mem;
      assert before == Write(old(mem), frame, c.frame);
      EmptyWrite(before, saved);
      for i := 0 to 8
        invariant mem == Write(before, saved, c.low[..i]) && stackPtr == old(stackPtr)
      {
        assert |c.low[..i]| == i;
        assert c.low[..i + 1] == c.low[..i] + [0];
        WriteSplit(before, saved, c.low[..i], [0]);
        OneWrite(mem, saved + 4 * i, 0);
        mem := mem[saved + 4 * i := 0];
      }
      assert c.low[..8] == c.low;
      stackPtr := stackPtr[t := saved];
      FrameLaid(old(mem), top, arg, entry, exit);
    }
  }

  lemma EmptyWrite(mem: map<int, int>, a: int)
    ensures Write(mem, a, []) == mem
  {
  }

  lemma OneWrite(mem: map<int, int>, a: int, w: int)
    ensures Write(mem, a, [w]) == mem[a := w]
  {
    assert Write(mem[a := w], a + 4, [w][1..]) == mem[a := w];
  }

  lemma {:induction false} WriteSplit(mem: map<int, int>, a: int, v: seq<int>, w: seq<int>)
    ensures Write(mem, a, v + w) == Write(Write(mem, a, v), a + 4 * |v|, w)
    decreases |v|
  {
    if v == [] {
      assert v + w == w;
    } else {
      assert (v + w)[1..] == v[1..] + w;
      WriteSplit(mem[a := v[0]], a + 4, v[1..], w);
    }
  }

  lemma FourWrites(mem: map<int, int>, a: int, w: int, x: int, y: int, z: int)
    ensures Write(mem, a, [w, x, y, z]) == mem[a := w][a + 4 := x][a + 8 := y][a + 12 := z]
  {
    assert [w, x, y, z] == [w] + ([x] + ([y] + [z]));
    WriteSplit(mem, a, [w], [x] + ([y] + [z]));
    OneWrite(mem, a, w);
    var m1 := mem[a := w];
    WriteSplit(m1, a + 4, [x], [y] + [z]);
    OneWrite(m1, a + 4, x);
    var m2 := m1[a + 4 := x];
    WriteSplit(m2, a + 8, [y], [z]);
    OneWrite(m2, a + 8, y);
    OneWrite(m2[a + 8 := y], a + 12, z);
  }

  lemma FourReads(mem: map<int, int>, a: int)
    ensures Read(mem, a, 4) == [Word(mem, a), Word(mem, a + 4), Word(mem, a + 8), Word(mem, a + 12)]
  {
    assert Read(mem, a + 16, 0) == [];
    assert Read(mem, a + 12, 1) == [Word(mem, a + 12)];
    assert Read(mem, a + 8, 2) == [Word(mem, a + 8), Word(mem, a + 12)];
    assert Read(mem, a + 4, 3) == [Word(mem, a + 4), Word(mem, a + 8), Word(mem, a + 12)];
  }
}
