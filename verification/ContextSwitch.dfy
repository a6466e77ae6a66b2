/**
 The PendSV context switch (arch/arm/cortex_m/core/context_switch.S and core/irq.c) as a state
 machine: threads run, the kernel asks for switches at any time, and the exception handler runs when
 it gets round to it.  Stack pointers are byte addresses, memory is kept by word, and 0 is NULL.
 */
module ContextSwitch {

  const NULL := 0

  /**
   All registers of a thread: R0-R3, R12, LR, PC and xPSR, which the hardware stacks; R4-R11; and the
   stack pointer
   */
  datatype Context = Context(frame: seq<int>, low: seq<int>, sp: int)

  predicate Whole(c: Context) { |c.frame| == 8 && |c.low| == 8 }

  datatype Phase = InThread | Entered | Swapped

  datatype Machine = Machine(
    cpu: Context,
    mem: map<int, int>,
    stackPtr: map<int, int>,   // thread->stack_ptr
    running: int,              // g_arch_running_sp_loc
    next: int,                 // g_arch_next_sp_loc
    pending: bool,             // PENDSVSET
    phase: Phase)

  /** The memory that belongs to a thread's stack */
  datatype Region = Region(lo: int, hi: int)

  // ---------- memory ----------

  function Word(mem: map<int, int>, a: int): int { if a in mem then mem[a] else 0 }

  /** Store words at `a`, `a + 4` and so on. */
  function Write(mem: map<int, int>, a: int, words: seq<int>): map<int, int>
    decreases |words|
  {
    if words == [] then mem else Write(mem[a := words[0]], a + 4, words[1..])
  }

  function Read(mem: map<int, int>, a: int, n: nat): (words: seq<int>)
    ensures |words| == n
    decreases n
  {
    if n == 0 then [] else [Word(mem, a)] + Read(mem, a + 4, n - 1)
  }

  lemma {:induction false} WriteElsewhere(mem: map<int, int>, a: int, words: seq<int>, b: int)
    requires b < a || b >= a + 4 * |words|
    ensures Word(Write(mem, a, words), b) == Word(mem, b)
    decreases |words|
  {
    if words != [] {
      WriteElsewhere(mem[a := words[0]], a + 4, words[1..], b);
    }
  }

  lemma {:induction false} ReadBack(mem: map<int, int>, a: int, words: seq<int>)
    ensures Read(Write(mem, a, words), a, |words|) == words
    decreases |words|
  {
    if words != [] {
      ReadBack(mem[a := words[0]], a + 4, words[1..]);
      WriteElsewhere(mem[a := words[0]], a + 4, words[1..], a);
    }
  }

  /** The two memories agree from `lo` up to `hi`. */
  ghost predicate Agree(mem: map<int, int>, mem': map<int, int>, lo: int, hi: int)
  {
    forall a :: lo <= a < hi ==> Word(mem', a) == Word(mem, a)
  }

  lemma {:induction false} ReadSame(mem: map<int, int>, mem': map<int, int>, lo: int, hi: int, a: int, n: nat)
    requires Agree(mem, mem', lo, hi) && lo <= a && a + 4 * n <= hi
    ensures Read(mem', a, n) == Read(mem, a, n)
    decreases n
  {
    if n > 0 {
      ReadSame(mem, mem', lo, hi, a + 4, n - 1);
    }
  }

  lemma WriteAgrees(mem: map<int, int>, a: int, words: seq<int>, lo: int, hi: int)
    requires hi <= a || a + 4 * |words| <= lo
    ensures Agree(mem, Write(mem, a, words), lo, hi)
  {
    forall b | lo <= b < hi
      ensures Word(Write(mem, a, words), b) == Word(mem, b)
    {
      WriteElsewhere(mem, a, words, b);
    }
  }

  // ---------- what happens ----------

  datatype Event =
    | Work(cpu: Context, mem: map<int, int>)    // the running thread computes
    | Isr(mem: map<int, int>)                   // an interrupt handler runs on the main stack
    | SwitchTo(t: int)                          // arch_switch_to
    | StackInit(t: int, arg: int, entry: int, exit: int)
    | Enter                                     // PendSV taken: the hardware stacks a frame
    | Swap                                      // PendSV_Handler, with interrupts masked
    | TailChain                                 // pended again meanwhile: the handler starts over
    | Return                                    // the hardware unstacks the frame

  /** Saving R4-R11 below the hardware frame */
  function SaveLow(mem: map<int, int>, sp: int, low: seq<int>): map<int, int>
    requires |low| == 8
  {
    Write(Write(mem, sp - 16, low[..4]), sp - 32, low[4..])
  }

  /** Restoring R4-R11 from where a saved stack pointer points */
  function LoadLow(mem: map<int, int>, sp: int): seq<int>
  {
    Read(mem, sp + 16, 4) + Read(mem, sp, 4)
  }

  /** `PendSV_Handler` */
  function Handler(m: Machine): Machine
    requires |m.cpu.low| == 8
  {
    var m1 := if m.running == NULL then m
              else m.(mem := SaveLow(m.mem, m.cpu.sp, m.cpu.low), stackPtr := m.stackPtr[m.running := m.cpu.sp - 32]);
    var sp := Word(m1.stackPtr, m.next);
    m1.(cpu := m.cpu.(low := LoadLow(m1.mem, sp), sp := sp + 32), running := m.next, phase := Swapped)
  }

  /** The registers a new thread starts with */
  function FirstContext(top: int, arg: int, entry: int, exit: int): Context
  {
    Context([arg, 1, 2, 3, 12, exit, entry, 0x0100_0000], [0, 0, 0, 0, 0, 0, 0, 0], top)
  }

  /** `arch_thread_stack_init` */
  function Prepared(m: Machine, t: int, top: int, arg: int, entry: int, exit: int): Machine
  {
    var c := FirstContext(top, arg, entry, exit);
    m.(mem := Write(Write(m.mem, top - 32, c.frame), top - 64, c.low),
       stackPtr := m.stackPtr[t := top - 64])
  }

  /** The top of a stack, 8-byte aligned */
  function Top(r: Region): int { r.hi / 8 * 8 }

  function Next(m: Machine, stacks: map<int, Region>, e: Event): Machine
    requires |m.cpu.low| == 8 && (e.StackInit? ==> e.t in stacks)
  {
    match e
    case Work(cpu, mem) => m.(cpu := cpu, mem := mem)
    case Isr(mem) => m.(mem := mem)
    case SwitchTo(t) => m.(next := t, pending := true)
    case StackInit(t, arg, entry, exit) => Prepared(m, t, Top(stacks[t]), arg, entry, exit)
    case Enter =>
      var m1 := m.(pending := false, phase := Entered);
      if m.running == NULL then m1
      else m1.(mem := Write(m.mem, m.cpu.sp - 32, m.cpu.frame), cpu := m.cpu.(sp := m.cpu.sp - 32))
    case Swap => Handler(m)
    case TailChain => m.(pending := false, phase := Entered)
    case Return => m.(cpu := m.cpu.(frame := Read(m.mem, m.cpu.sp, 8), sp := m.cpu.sp + 32), phase := InThread)
  }

  /** A thread keeps off the stacks of others and leaves room on its own; an interrupt handler keeps off all of them. */
  ghost predicate Possible(m: Machine, stacks: map<int, Region>, e: Event)
  {
    match e
    case Work(cpu, mem) =>
      && m.phase.InThread? && Whole(cpu)
      && (m.running in stacks ==> Fits(stacks[m.running], cpu.sp))
      && forall t :: t in stacks && t != m.running ==> Agree(m.mem, mem, stacks[t].lo, stacks[t].hi)
    case Isr(mem) => forall t :: t in stacks ==> Agree(m.mem, mem, stacks[t].lo, stacks[t].hi)
    case SwitchTo(t) => t in m.stackPtr
    case StackInit(t, _, _, _) => t in stacks && t != NULL && t != m.running
    case Enter => m.phase.InThread? && m.pending
    case Swap => m.phase.Entered?
    case TailChain => m.phase.Swapped? && m.pending
    case Return => m.phase.Swapped? && !m.pending
  }

  /** Room for both halves of a saved context below the stack pointer */
  ghost predicate Fits(r: Region, sp: int) { r.lo + 64 <= sp <= r.hi }

  // ---------- what is kept ----------

  /**
   The context each thread had when it was last on the CPU, or starts with: kept by an observer, not
   by the machine
   */
  function Observe(m: Machine, stacks: map<int, Region>, contexts: map<int, Context>, e: Event): map<int, Context>
    requires e.StackInit? ==> e.t in stacks
  {
    match e
    case Enter => if m.running == NULL then contexts else contexts[m.running := m.cpu]
    case StackInit(t, arg, entry, exit) => contexts[t := FirstContext(Top(stacks[t]), arg, entry, exit)]
    case _ => contexts
  }

  ghost predicate Separate(stacks: map<int, Region>)
  {
    && NULL !in stacks
    && (forall t :: t in stacks ==> stacks[t].lo + 64 <= Top(stacks[t]))
    && (forall t, u :: t in stacks && u in stacks && t != u ==>
         stacks[t].hi <= stacks[u].lo || stacks[u].hi <= stacks[t].lo)
  }

  /** The context `c` lies on the stack, its hardware frame above its R4-R11. */
  ghost predicate Saved(mem: map<int, int>, r: Region, c: Context)
  {
    && Whole(c) && Fits(r, c.sp)
    && Read(mem, c.sp - 32, 8) == c.frame
    && LoadLow(mem, c.sp - 64) == c.low
  }

  /** Halfway through the exception: the frame of `c` is on the stack, its R4-R11 in the CPU. */
  ghost predicate OnCpu(m: Machine, r: Region, c: Context)
  {
    && Whole(c) && Fits(r, c.sp)
    && m.cpu.sp == c.sp - 32 && m.cpu.low == c.low
    && Read(m.mem, c.sp - 32, 8) == c.frame
  }

  ghost predicate ThreadOk(m: Machine, stacks: map<int, Region>, contexts: map<int, Context>, t: int)
    requires t in contexts && t in stacks && t in m.stackPtr
  {
    if t != m.running then Saved(m.mem, stacks[t], contexts[t]) && m.stackPtr[t] == contexts[t].sp - 64
    else if m.phase.InThread? then Fits(stacks[t], m.cpu.sp)
    else OnCpu(m, stacks[t], contexts[t])
  }

  ghost predicate Inv(m: Machine, stacks: map<int, Region>, contexts: map<int, Context>)
  {
    && Separate(stacks) && Whole(m.cpu)
    && m.stackPtr.Keys == contexts.Keys && contexts.Keys <= stacks.Keys
    && (forall t {:trigger ThreadOk(m, stacks, contexts, t)} :: t in contexts ==> ThreadOk(m, stacks, contexts, t))
    && (m.running != NULL ==> m.running in contexts)
    && (m.phase.Swapped? ==> m.running != NULL)
    && (m.pending || m.phase.Entered? || m.running != NULL ==> m.next in contexts)
    && (m.pending || m.phase.Entered? || m.running == m.next)
  }

  /** Before the first switch: no thread, nothing asked for */
  function Reset(cpu: Context, mem: map<int, int>): Machine
  {
    Machine(cpu, mem, map[], NULL, NULL, false, InThread)
  }

  lemma ResetInv(cpu: Context, mem: map<int, int>, stacks: map<int, Region>)
    requires Whole(cpu) && Separate(stacks)
    ensures Inv(Reset(cpu, mem), stacks, map[])
  {
  }

  // ---------- save and restore ----------

  /** Restoring is the inverse of saving, register by register. */
  lemma LowRoundTrip(mem: map<int, int>, sp: int, low: seq<int>)
    requires |low| == 8
    ensures LoadLow(SaveLow(mem, sp, low), sp - 32) == low
  {
    var mem1 := Write(mem, sp - 16, low[..4]);
    ReadBack(mem, sp - 16, low[..4]);
    ReadBack(mem1, sp - 32, low[4..]);
    WriteAgrees(mem1, sp - 32, low[4..], sp - 16, sp);
    ReadSame(mem1, SaveLow(mem, sp, low), sp - 16, sp, sp - 16, 4);
  }

  lemma SaveLowAgrees(mem: map<int, int>, sp: int, low: seq<int>, lo: int, hi: int)
    requires |low| == 8 && (hi <= sp - 32 || sp <= lo)
    ensures Agree(mem, SaveLow(mem, sp, low), lo, hi)
  {
    WriteAgrees(mem, sp - 16, low[..4], lo, hi);
    WriteAgrees(Write(mem, sp - 16, low[..4]), sp - 32, low[4..], lo, hi);
  }

  lemma SavedKept(mem: map<int, int>, mem': map<int, int>, r: Region, c: Context)
    requires Saved(mem, r, c) && Agree(mem, mem', r.lo, r.hi)
    ensures Saved(mem', r, c)
  {
    hide Read, Agree;
    ReadSame(mem, mem', r.lo, r.hi, c.sp - 32, 8);
    ReadSame(mem, mem', r.lo, r.hi, c.sp - 64 + 16, 4);
    ReadSame(mem, mem', r.lo, r.hi, c.sp - 64, 4);
  }

  /** A thread that is not on the CPU keeps its saved context as long as its stack is left alone. */
  lemma ParkedKept(m: Machine, m': Machine, stacks: map<int, Region>,
                   contexts: map<int, Context>, contexts': map<int, Context>, t: int)
    requires t in contexts && t in stacks && t in m.stackPtr && ThreadOk(m, stacks, contexts, t) && t != m.running
    requires t in contexts' && t in m'.stackPtr && t != m'.running
    requires contexts'[t] == contexts[t] && m'.stackPtr[t] == m.stackPtr[t]
    requires Agree(m.mem, m'.mem, stacks[t].lo, stacks[t].hi)
    ensures ThreadOk(m', stacks, contexts', t)
  {
    SavedKept(m.mem, m'.mem, stacks[t], contexts[t]);
  }

  lemma WorkInv(m: Machine, stacks: map<int, Region>, contexts: map<int, Context>, e: Event)
    requires Inv(m, stacks, contexts) && Possible(m, stacks, e) && e.Work?
    ensures Inv(Next(m, stacks, e), stacks, contexts)
  {
    var m' := Next(m, stacks, e);
    forall t | t in contexts
      ensures ThreadOk(m', stacks, contexts, t)
    {
      assert ThreadOk(m, stacks, contexts, t);
      if t != m.running {
        ParkedKept(m, m', stacks, contexts, contexts, t);
      }
    }
  }

  lemma IsrInv(m: Machine, stacks: map<int, Region>, contexts: map<int, Context>, e: Event)
    requires Inv(m, stacks, contexts) && Possible(m, stacks, e) && e.Isr?
    ensures Inv(Next(m, stacks, e), stacks, contexts)
  {
    hide Read, Saved, Agree;
    var m' := Next(m, stacks, e);
    forall t | t in contexts
      ensures ThreadOk(m', stacks, contexts, t)
    {
      assert ThreadOk(m, stacks, contexts, t);
      if t != m.running {
        ParkedKept(m, m', stacks, contexts, contexts, t);
      } else if !m.phase.InThread? {
        ReadSame(m.mem, m'.mem, stacks[t].lo, stacks[t].hi, contexts[t].sp - 32, 8);
      }
    }
  }

  lemma TopInside(r: Region)
    ensures Top(r) <= r.hi
  {
  }

  /** A new stack holds the first context, ready to be restored. */
  lemma PreparedSaved(m: Machine, t: int, r: Region, arg: int, entry: int, exit: int)
    requires r.lo + 64 <= Top(r)
    ensures Saved(Prepared(m, t, Top(r), arg, entry, exit).mem, r, FirstContext(Top(r), arg, entry, exit))
  {
    hide Read, Write, Top;
    var top := Top(r);
    var c := FirstContext(top, arg, entry, exit);
    var mem1 := Write(m.mem, top - 32, c.frame);
    var mem2 := Write(mem1, top - 64, c.low);
    ReadBack(m.mem, top - 32, c.frame);
    ReadBack(mem1, top - 64, c.low);
    WriteAgrees(mem1, top - 64, c.low, top - 32, top);
    ReadSame(mem1, mem2, top - 32, top, top - 32, 8);
    ReadSplit(mem2, top - 64, 4, 4);
    assert Read(mem2, top - 64, 8) == c.low;
    assert c.low[..4] == [0, 0, 0, 0] && c.low[4..] == [0, 0, 0, 0];
    assert (Read(mem2, top - 64, 4) + Read(mem2, top - 48, 4))[..4] == Read(mem2, top - 64, 4);
    assert (Read(mem2, top - 64, 4) + Read(mem2, top - 48, 4))[4..] == Read(mem2, top - 48, 4);
    TopInside(r);
  }

  lemma {:induction false} ReadSplit(mem: map<int, int>, a: int, m: nat, n: nat)
    ensures Read(mem, a, m + n) == Read(mem, a, m) + Read(mem, a + 4 * m, n)
    decreases m
  {
    if m > 0 {
      ReadSplit(mem, a + 4, m - 1, n);
    }
  }

  lemma StackInitInv(m: Machine, stacks: map<int, Region>, contexts: map<int, Context>, e: Event)
    requires Inv(m, stacks, contexts) && Possible(m, stacks, e) && e.StackInit?
    ensures Inv(Next(m, stacks, e), stacks, Observe(m, stacks, contexts, e))
  {
    hide Read, Write, Saved, Top;
    var m', contexts' := Next(m, stacks, e), Observe(m, stacks, contexts, e);
    TopInside(stacks[e.t]);
    var top, c := Top(stacks[e.t]), FirstContext(Top(stacks[e.t]), e.arg, e.entry, e.exit);
    PreparedSaved(m, e.t, stacks[e.t], e.arg, e.entry, e.exit);
    forall t | t in contexts'
      ensures ThreadOk(m', stacks, contexts', t)
    {
      if t != e.t {
        assert ThreadOk(m, stacks, contexts, t);
        WriteAgrees(m.mem, top - 32, c.frame, stacks[t].lo, stacks[t].hi);
        WriteAgrees(Write(m.mem, top - 32, c.frame), top - 64, c.low, stacks[t].lo, stacks[t].hi);
        assert Agree(m.mem, m'.mem, stacks[t].lo, stacks[t].hi);
        if t != m.running {
          ParkedKept(m, m', stacks, contexts, contexts', t);
        } else if !m.phase.InThread? {
          ReadSame(m.mem, m'.mem, stacks[t].lo, stacks[t].hi, contexts[t].sp - 32, 8);
        }
      }
    }
  }

  lemma EnterInv(m: Machine, stacks: map<int, Region>, contexts: map<int, Context>)
    requires Inv(m, stacks, contexts) && Possible(m, stacks, Enter)
    ensures Inv(Next(m, stacks, Enter), stacks, Observe(m, stacks, contexts, Enter))
  {
    hide Read, Write, Saved;
    var m', contexts' := Next(m, stacks, Enter), Observe(m, stacks, contexts, Enter);
    var sp := m.cpu.sp;
    if m.running != NULL {
      assert ThreadOk(m, stacks, contexts, m.running);
      ReadBack(m.mem, sp - 32, m.cpu.frame);
    }
    forall t | t in contexts'
      ensures ThreadOk(m', stacks, contexts', t)
    {
      assert ThreadOk(m, stacks, contexts, t);
      if t != m.running {
        if m.running != NULL {
          WriteAgrees(m.mem, sp - 32, m.cpu.frame, stacks[t].lo, stacks[t].hi);
        }
        ParkedKept(m, m', stacks, contexts, contexts', t);
      }
    }
  }

  /** The save half of the handler: afterwards even the outgoing thread lies on its stack. */
  lemma OutgoingSaved(m: Machine, r: Region, c: Context)
    requires OnCpu(m, r, c)
    ensures Saved(SaveLow(m.mem, m.cpu.sp, m.cpu.low), r, c)
  {
    var mem1 := SaveLow(m.mem, m.cpu.sp, m.cpu.low);
    LowRoundTrip(m.mem, m.cpu.sp, m.cpu.low);
    SaveLowAgrees(m.mem, m.cpu.sp, m.cpu.low, c.sp - 32, c.sp);
    ReadSame(m.mem, mem1, c.sp - 32, c.sp, c.sp - 32, 8);
  }

  lemma AllSaved(m: Machine, stacks: map<int, Region>, contexts: map<int, Context>, t: int)
    requires Inv(m, stacks, contexts) && m.phase.Entered? && t in contexts
    ensures Saved(Handler(m).mem, stacks[t], contexts[t])
    ensures t in Handler(m).stackPtr && Handler(m).stackPtr[t] == contexts[t].sp - 64
  {
    assert ThreadOk(m, stacks, contexts, t);
    if m.running != NULL {
      assert ThreadOk(m, stacks, contexts, m.running);
      if t == m.running {
        OutgoingSaved(m, stacks[t], contexts[t]);
      } else {
        SaveLowAgrees(m.mem, m.cpu.sp, m.cpu.low, stacks[t].lo, stacks[t].hi);
        SavedKept(m.mem, Handler(m).mem, stacks[t], contexts[t]);
      }
    }
  }

  lemma SwapInv(m: Machine, stacks: map<int, Region>, contexts: map<int, Context>)
    requires Inv(m, stacks, contexts) && m.phase.Entered?
    ensures Inv(Handler(m), stacks, contexts)
  {
    hide SaveLow, LoadLow, Saved;
    var m' := Handler(m);
    forall t | t in contexts
      ensures ThreadOk(m', stacks, contexts, t)
    {
      AllSaved(m, stacks, contexts, t);
      SavedIsWhole(m'.mem, stacks[t], contexts[t]);
    }
    AllSaved(m, stacks, contexts, m.next);
  }

  lemma SavedIsWhole(mem: map<int, int>, r: Region, c: Context)
    requires Saved(mem, r, c)
    ensures Whole(c) && Fits(r, c.sp) && Read(mem, c.sp - 32, 8) == c.frame && LoadLow(mem, c.sp - 64) == c.low
  {
  }

  /** Returning resumes the thread with exactly the registers and stack pointer it had. */
  lemma ReturnRestores(m: Machine, stacks: map<int, Region>, contexts: map<int, Context>)
    requires Inv(m, stacks, contexts) && Possible(m, stacks, Return)
    ensures m.running in contexts && Next(m, stacks, Return).cpu == contexts[m.running] && m.running == m.next
    ensures Inv(Next(m, stacks, Return), stacks, contexts)
  {
    hide Read, Saved;
    var m' := Next(m, stacks, Return);
    assert ThreadOk(m, stacks, contexts, m.running);
    forall t | t in contexts
      ensures ThreadOk(m', stacks, contexts, t)
    {
      assert ThreadOk(m, stacks, contexts, t);
    }
  }

  lemma RequestInv(m: Machine, stacks: map<int, Region>, contexts: map<int, Context>, e: Event)
    requires Inv(m, stacks, contexts) && Possible(m, stacks, e) && (e.SwitchTo? || e.TailChain?)
    ensures Inv(Next(m, stacks, e), stacks, contexts)
  {
    var m' := Next(m, stacks, e);
    forall t | t in contexts
      ensures ThreadOk(m', stacks, contexts, t)
    {
      assert ThreadOk(m, stacks, contexts, t);
    }
  }

  lemma StepInv(m: Machine, stacks: map<int, Region>, contexts: map<int, Context>, e: Event)
    requires Inv(m, stacks, contexts) && Possible(m, stacks, e)
    ensures Inv(Next(m, stacks, e), stacks, Observe(m, stacks, contexts, e))
  {
    match e
    case Work(_, _) => WorkInv(m, stacks, contexts, e);
    case Isr(_) => IsrInv(m, stacks, contexts, e);
    case StackInit(_, _, _, _) => StackInitInv(m, stacks, contexts, e);
    case Enter => EnterInv(m, stacks, contexts);
    case Swap => SwapInv(m, stacks, contexts);
    case Return => ReturnRestores(m, stacks, contexts);
    case _ => RequestInv(m, stacks, contexts, e);
  }

  // ---------- runs ----------

  ghost predicate ValidRun(m: Machine, stacks: map<int, Region>, contexts: map<int, Context>, events: seq<Event>)
    requires Inv(m, stacks, contexts)
    decreases |events|
  {
    events != [] ==>
      && Possible(m, stacks, events[0])
      && (StepInv(m, stacks, contexts, events[0]);
          ValidRun(Next(m, stacks, events[0]), stacks, Observe(m, stacks, contexts, events[0]), events[1..]))
  }

  ghost function Run(m: Machine, stacks: map<int, Region>, contexts: map<int, Context>,
                     events: seq<Event>): (r: (Machine, map<int, Context>))
    requires Inv(m, stacks, contexts) && ValidRun(m, stacks, contexts, events)
    decreases |events|
  {
    if events == [] then (m, contexts)
    else
      (StepInv(m, stacks, contexts, events[0]);
       Run(Next(m, stacks, events[0]), stacks, Observe(m, stacks, contexts, events[0]), events[1..]))
  }

  lemma {:induction false} RunInv(m: Machine, stacks: map<int, Region>, contexts: map<int, Context>, events: seq<Event>)
    requires Inv(m, stacks, contexts) && ValidRun(m, stacks, contexts, events)
    ensures var r := Run(m, stacks, contexts, events); Inv(r.0, stacks, r.1)
    decreases |events|
  {
    if events != [] {
      StepInv(m, stacks, contexts, events[0]);
      RunInv(Next(m, stacks, events[0]), stacks, Observe(m, stacks, contexts, events[0]), events[1..]);
    }
  }

  /** The thread that the last of some requests is for; `c` if there is none */
  function Latest(events: seq<Event>, c: int): int
    decreases |events|
  {
    if events == [] then c else Latest(events[1..], if events[0].SwitchTo? then events[0].t else c)
  }

  lemma {:induction false} LatestIsNext(m: Machine, stacks: map<int, Region>, contexts: map<int, Context>,
                                        events: seq<Event>)
    requires Inv(m, stacks, contexts) && ValidRun(m, stacks, contexts, events)
    ensures Run(m, stacks, contexts, events).0.next == Latest(events, m.next)
    decreases |events|
  {
    if events != [] {
      StepInv(m, stacks, contexts, events[0]);
      hide Inv, Possible;
      LatestIsNext(Next(m, stacks, events[0]), stacks, Observe(m, stacks, contexts, events[0]), events[1..]);
    }
  }

  /**
   A request is served by one pass of the handler, on entry or when it comes in during a switch: unless
   another comes in meanwhile, the exception then ends with the chosen thread on the CPU.
   */
  lemma OnePassServes(m: Machine, stacks: map<int, Region>, contexts: map<int, Context>, e: Event)
    requires Inv(m, stacks, contexts) && Possible(m, stacks, e) && (e.Enter? || e.TailChain?)
    ensures var m1 := Next(m, stacks, e);
            && Possible(m1, stacks, Swap) && |m1.cpu.low| == 8
            && Possible(Next(m1, stacks, Swap), stacks, Return) && Next(m1, stacks, Swap).running == m.next
  {
    hide ThreadOk, Separate, Write, SaveLow, LoadLow;
    StepInv(m, stacks, contexts, e);
  }

  /**
   Over every run, however many requests coalesce or come in again during a switch: when the handler
   returns, the thread on the CPU is the latest choice, with exactly the registers and stack pointer
   it had when it was last on the CPU, or its first context; and whenever no switch is outstanding,
   the thread on the CPU is the latest choice.
   */
  lemma EveryResumeIsExact(cpu: Context, mem: map<int, int>, stacks: map<int, Region>, events: seq<Event>)
    requires Whole(cpu) && Separate(stacks) && ValidRun(Reset(cpu, mem), stacks, map[], events)
    ensures Inv(Reset(cpu, mem), stacks, map[])
    ensures var (m, contexts) := Run(Reset(cpu, mem), stacks, map[], events);
            && (Possible(m, stacks, Return) ==>
                  m.running == Latest(events, NULL) && m.running in contexts && |m.cpu.low| == 8
                  && Next(m, stacks, Return).cpu == contexts[m.running])
            && (m.phase.InThread? && !m.pending ==> m.running == Latest(events, NULL))
  {
    ResetInv(cpu, mem, stacks);
    LatestIsNext(Reset(cpu, mem), stacks, map[], events);
    var (m, contexts) := Run(Reset(cpu, mem), stacks, map[], events);
    RunInv(Reset(cpu, mem), stacks, map[], events);
    if Possible(m, stacks, Return) {
      ReturnRestores(m, stacks, contexts);
    }
  }

  /** R4-R7 lie above R8-R11. */
  lemma SavedApart(mem: map<int, int>, sp: int, low: seq<int>)
    requires |low| == 8
    ensures Read(SaveLow(mem, sp, low), sp - 16, 4) == low[..4] && Read(SaveLow(mem, sp, low), sp - 32, 4) == low[4..]
  {
    var mem1 := Write(mem, sp - 16, low[..4]);
    ReadBack(mem, sp - 16, low[..4]);
    ReadBack(mem1, sp - 32, low[4..]);
    WriteAgrees(mem1, sp - 32, low[4..], sp - 16, sp);
    ReadSame(mem1, SaveLow(mem, sp, low), sp - 16, sp, sp - 16, 4);
  }

  // ---------- the first run of a thread ----------

  lemma {:induction false} ReadWord(mem: map<int, int>, a: int, n: nat, i: nat)
    requires i < n
    ensures Read(mem, a, n)[i] == Word(mem, a + 4 * i)
    decreases n
  {
    if i > 0 {
      ReadWord(mem, a + 4, n - 1, i - 1);
    }
  }

  /** The words of a new stack, one by one; nothing else is written. */
  ghost predicate Laid(mem: map<int, int>, mem': map<int, int>, top: int, arg: int, entry: int, exit: int)
  {
    && Word(mem', top - 32) == arg && Word(mem', top - 28) == 1 && Word(mem', top - 24) == 2
    && Word(mem', top - 20) == 3 && Word(mem', top - 16) == 12 && Word(mem', top - 12) == exit
    && Word(mem', top - 8) == entry && Word(mem', top - 4) == 0x0100_0000
    && (forall i :: 0 <= i < 8 ==> Word(mem', top - 64 + 4 * i) == 0)
    && (forall a :: a < top - 64 || top <= a ==> Word(mem', a) == Word(mem, a))
  }

  lemma FrameLaid(mem: map<int, int>, top: int, arg: int, entry: int, exit: int)
    ensures var c := FirstContext(top, arg, entry, exit);
            Laid(mem, Write(Write(mem, top - 32, c.frame), top - 64, c.low), top, arg, entry, exit)
  {
    hide Read, Write, Word;
    var c := FirstContext(top, arg, entry, exit);
    var mem1 := Write(mem, top - 32, c.frame);
    var mem2 := Write(mem1, top - 64, c.low);
    ReadBack(mem, top - 32, c.frame);
    ReadBack(mem1, top - 64, c.low);
    forall i | 0 <= i < 8
      ensures Word(mem2, top - 32 + 4 * i) == c.frame[i] && Word(mem2, top - 64 + 4 * i) == 0
    {
      WriteElsewhere(mem1, top - 64, c.low, top - 32 + 4 * i);
      ReadWord(mem1, top - 32, 8, i);
      ReadWord(mem2, top - 64, 8, i);
    }
    assert Word(mem2, top - 32 + 4 * 0) == arg && Word(mem2, top - 32 + 4 * 1) == 1;
    assert Word(mem2, top - 32 + 4 * 2) == 2 && Word(mem2, top - 32 + 4 * 3) == 3;
    assert Word(mem2, top - 32 + 4 * 4) == 12 && Word(mem2, top - 32 + 4 * 5) == exit;
    assert Word(mem2, top - 32 + 4 * 6) == entry && Word(mem2, top - 32 + 4 * 7) == 0x0100_0000;
    forall a | a < top - 64 || top <= a
      ensures Word(mem2, a) == Word(mem, a)
    {
      WriteElsewhere(mem, top - 32, c.frame, a);
      WriteElsewhere(mem1, top - 64, c.low, a);
    }
  }

  // The registers in the frame that the hardware stacks, by its offsets
  function R0(c: Context): int requires Whole(c) { c.frame[0] }
  function Lr(c: Context): int requires Whole(c) { c.frame[5] }
  function Pc(c: Context): int requires Whole(c) { c.frame[6] }
  function Psr(c: Context): int requires Whole(c) { c.frame[7] }

  /** The CPU is about to call `entry(arg)`, to return to `exit`, on an empty 8-byte aligned stack. */
  ghost predicate Calls(c: Context, r: Region, arg: int, entry: int, exit: int)
  {
    && Whole(c) && R0(c) == arg && Pc(c) == entry && Lr(c) == exit && Psr(c) == 0x0100_0000
    && (forall i :: 0 <= i < 8 ==> c.low[i] == 0)
    && c.sp % 8 == 0 && r.hi - 8 < c.sp <= r.hi
  }

  /** Thread `t` is not on the CPU when an exception is taken, and its stack is not set up again. */
  ghost predicate NotYet(m: Machine, stacks: map<int, Region>, contexts: map<int, Context>, events: seq<Event>, t: int)
    requires Inv(m, stacks, contexts) && ValidRun(m, stacks, contexts, events)
    decreases |events|
  {
    events != [] ==>
      && (events[0].Enter? ==> m.running != t) && (events[0].StackInit? ==> events[0].t != t)
      && (StepInv(m, stacks, contexts, events[0]);
          NotYet(Next(m, stacks, events[0]), stacks, Observe(m, stacks, contexts, events[0]), events[1..], t))
  }

  lemma {:induction false} NotYetKept(m: Machine, stacks: map<int, Region>, contexts: map<int, Context>,
                                      events: seq<Event>, t: int)
    requires Inv(m, stacks, contexts) && ValidRun(m, stacks, contexts, events)
    requires NotYet(m, stacks, contexts, events, t) && t in contexts
    ensures var (m', contexts') := Run(m, stacks, contexts, events);
            t in contexts' && contexts'[t] == contexts[t]
    decreases |events|
  {
    if events != [] {
      StepInv(m, stacks, contexts, events[0]);
      NotYetKept(Next(m, stacks, events[0]), stacks, Observe(m, stacks, contexts, events[0]), events[1..], t);
    }
  }

  /** The first context of a new thread is such a call. */
  lemma FirstCalls(r: Region, arg: int, entry: int, exit: int)
    ensures Calls(FirstContext(Top(r), arg, entry, exit), r, arg, entry, exit)
  {
    var c := FirstContext(Top(r), arg, entry, exit);
    assert c.low == [0, 0, 0, 0, 0, 0, 0, 0];
    assert Top(r) == 8 * (r.hi / 8);
    EightTimes(r.hi / 8);
  }

  lemma EightTimes(x: int)
    ensures 8 * x % 8 == 0
  {
  }

  /**
   From its set-up, through whatever happens before it first gets the CPU, a new thread starts with the
   call of its entry function: argument, program counter, return address, Thumb state, cleared R4-R11
   and the top of its stack.
   */
  lemma FirstRunCallsEntry(m: Machine, stacks: map<int, Region>, contexts: map<int, Context>,
                           t: int, arg: int, entry: int, exit: int, events: seq<Event>)
    requires Inv(m, stacks, contexts) && Possible(m, stacks, StackInit(t, arg, entry, exit))
    ensures var e := StackInit(t, arg, entry, exit);
            var m1, contexts1 := Next(m, stacks, e), Observe(m, stacks, contexts, e);
            && Inv(m1, stacks, contexts1)
            && (ValidRun(m1, stacks, contexts1, events) && NotYet(m1, stacks, contexts1, events, t) ==>
                  var m2 := Run(m1, stacks, contexts1, events).0;
                  && |m2.cpu.low| == 8
                  && (m2.running == t && Possible(m2, stacks, Return) ==>
                        Calls(Next(m2, stacks, Return).cpu, stacks[t], arg, entry, exit)))
  {
    var e := StackInit(t, arg, entry, exit);
    var m1, contexts1 := Next(m, stacks, e), Observe(m, stacks, contexts, e);
    hide Calls, Next, Observe, Possible;
    StepInv(m, stacks, contexts, e);
    SetUp(m, stacks, contexts, t, arg, entry, exit);
    if ValidRun(m1, stacks, contexts1, events) && NotYet(m1, stacks, contexts1, events, t) {
      NotYetKept(m1, stacks, contexts1, events, t);
      RunInv(m1, stacks, contexts1, events);
      var (m2, contexts2) := Run(m1, stacks, contexts1, events);
      if m2.running == t && Possible(m2, stacks, Return) {
        ReturnRestores(m2, stacks, contexts2);
      }
    }
  }

  lemma SetUp(m: Machine, stacks: map<int, Region>, contexts: map<int, Context>,
              t: int, arg: int, entry: int, exit: int)
    requires t in stacks
    ensures var contexts1 := Observe(m, stacks, contexts, StackInit(t, arg, entry, exit));
            t in contexts1 && Calls(contexts1[t], stacks[t], arg, entry, exit)
  {
    FirstCalls(stacks[t], arg, entry, exit);
  }

  /** In particular when it is chosen at once: requested, the exception taken, the handler run and left. */
  lemma ChosenAtOnce(m: Machine, stacks: map<int, Region>, contexts: map<int, Context>,
                     t: int, arg: int, entry: int, exit: int)
    requires Inv(m, stacks, contexts) && m.phase.InThread? && Possible(m, stacks, StackInit(t, arg, entry, exit))
    ensures var m1 := Next(m, stacks, StackInit(t, arg, entry, exit));
            var m2 := Next(m1, stacks, SwitchTo(t));
            var m3 := Next(m2, stacks, Enter);
            && |m3.cpu.low| == 8
            && var m4 := Next(m3, stacks, Swap);
            && |m4.cpu.low| == 8 && m4.running == t
            && Calls(Next(m4, stacks, Return).cpu, stacks[t], arg, entry, exit)
  {
    hide Calls, Write, Read, SaveLow, LoadLow;
    var e := StackInit(t, arg, entry, exit);
    StepInv(m, stacks, contexts, e);
    SetUp(m, stacks, contexts, t, arg, entry, exit);
    var m1, c1 := Next(m, stacks, e), Observe(m, stacks, contexts, e);
    StepInv(m1, stacks, c1, SwitchTo(t));
    var m2 := Next(m1, stacks, SwitchTo(t));
    StepInv(m2, stacks, c1, Enter);
    var m3, c3 := Next(m2, stacks, Enter), Observe(m2, stacks, c1, Enter);
    StepInv(m3, stacks, c3, Swap);
    ReturnRestores(Next(m3, stacks, Swap), stacks, c3);
  }
}
