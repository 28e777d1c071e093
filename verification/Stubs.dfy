/**
 The four interrupt stubs on a small register-and-stack machine: interrupt delivery, the listed
 instructions, any conforming dispatcher in the middle, and `iretq`.
 Stack slots are 8 bytes wide and named by their byte address; addresses do not wrap.
 */
module Stubs {
  import opened Words
  import opened Wrappers

  type Selector = x: int | 0 <= x < 0x1_0000

  /** The general registers that a stub saves; the stack pointer is separate. */
  datatype Reg = Rax | Rcx | Rdx | Rbx | Rbp | Rsi | Rdi | R8 | R9 | R10 | R11 | R12 | R13 | R14 | R15

  datatype Dispatcher = BreakpointDispatch | TimerIrqDispatch | LapicTimerDispatch | PageFaultDispatch

  datatype Instr =
    | Push(r: Reg)
    | Pop(r: Reg)
    | SubRsp(n: nat)
    | AddRsp(n: nat)
    | LeaRdi(disp: nat)             // leaq disp(%rsp), %rdi
    | Call(target: Dispatcher)
    | MovwImm(imm: Selector, disp: nat)  // movw $imm, disp(%rsp)
    | Iretq

  datatype State = State(
    regs: map<Reg, Word>, rsp: int, rip: Word, cs: Selector, ss: Selector, rflags: Word, mem: map<int, Word>)
  {
    function Get(r: Reg): Word {
      if r in regs then regs[r] else 0
    }

    function Load(a: int): Word {
      if a in mem then mem[a] else 0
    }
  }

  /** What each dispatcher does to the machine, from just before the call to just after the return. */
  type Callees = (Dispatcher, State) -> State

  function Step(i: Instr, callees: Callees, s: State): State {
    match i
    case Push(r) => s.(rsp := s.rsp - 8, mem := s.mem[s.rsp - 8 := s.Get(r)])
    case Pop(r) => s.(regs := s.regs[r := s.Load(s.rsp)], rsp := s.rsp + 8)
    case SubRsp(n) => s.(rsp := s.rsp - n)
    case AddRsp(n) => s.(rsp := s.rsp + n)
    case LeaRdi(disp) => s.(regs := s.regs[Rdi := (s.rsp + disp) % WORD_LIMIT])
    case Call(target) => callees(target, s)
    case MovwImm(imm, disp) =>
      var word := s.Load(s.rsp + disp);
      s.(mem := s.mem[s.rsp + disp := word - word % 0x1_0000 + imm])
    case Iretq =>
      s.(rip := s.Load(s.rsp), cs := s.Load(s.rsp + 8) % 0x1_0000, rflags := s.Load(s.rsp + 16),
         rsp := s.Load(s.rsp + 24), ss := s.Load(s.rsp + 32) % 0x1_0000)
  }

  function Exec(p: seq<Instr>, callees: Callees, s: State): State {
    if p == [] then s else Exec(p[1..], callees, Step(p[0], callees, s))
  }

  /** The machine that runs a stub: one state, updated instruction by instruction. */
  class Machine {
    var state: State

    constructor (s: State)
      ensures state == s
    {
      state := s;
    }

    method Run(program: seq<Instr>, callees: Callees)
      modifies this
      ensures state == Exec(program, callees, old(state))
    {
      for i := 0 to |program|
        invariant Exec(program[i..], callees, state) == Exec(program, callees, old(state))
      {
        assert program[i..][1..] == program[i + 1..];
        state := Step(program[i], callees, state);
      }
    }
  }

  // ---------- The stubs, as listed ----------

  const BREAKPOINT: seq<Instr> := [
    Push(Rax), Push(Rcx), Push(Rdx), Push(Rbx), Push(Rbp), Push(Rsi), Push(Rdi), Push(R8),
    Push(R9), Push(R10), Push(R11), Push(R12), Push(R13), Push(R14), Push(R15),
    SubRsp(8), Call(BreakpointDispatch), AddRsp(8),
    Pop(R15), Pop(R14), Pop(R13), Pop(R12), Pop(R11), Pop(R10), Pop(R9), Pop(R8),
    Pop(Rdi), Pop(Rsi), Pop(Rbp), Pop(Rbx), Pop(Rdx), Pop(Rcx), Pop(Rax),
    MovwImm(0x10, 32), Iretq]

  const IRQ32: seq<Instr> := [
    Push(Rax), Push(Rcx), Push(Rdx), Push(Rbx), Push(Rbp), Push(Rsi), Push(Rdi), Push(R8),
    Push(R9), Push(R10), Push(R11), Push(R12), Push(R13), Push(R14), Push(R15),
    SubRsp(8), Call(TimerIrqDispatch), AddRsp(8),
    Pop(R15), Pop(R14), Pop(R13), Pop(R12), Pop(R11), Pop(R10), Pop(R9), Pop(R8),
    Pop(Rdi), Pop(Rsi), Pop(Rbp), Pop(Rbx), Pop(Rdx), Pop(Rcx), Pop(Rax),
    MovwImm(0x10, 32), Iretq]

  const LAPIC_TIMER: seq<Instr> := [
    Push(Rax), Push(Rcx), Push(Rdx), Push(Rbx), Push(Rbp), Push(Rsi), Push(Rdi), Push(R8),
    Push(R9), Push(R10), Push(R11), Push(R12), Push(R13), Push(R14), Push(R15),
    SubRsp(8), Call(LapicTimerDispatch), AddRsp(8),
    Pop(R15), Pop(R14), Pop(R13), Pop(R12), Pop(R11), Pop(R10), Pop(R9), Pop(R8),
    Pop(Rdi), Pop(Rsi), Pop(Rbp), Pop(Rbx), Pop(Rdx), Pop(Rcx), Pop(Rax),
    MovwImm(0x10, 32), Iretq]

  const PAGE_FAULT: seq<Instr> := [
    Push(Rax), Push(Rcx), Push(Rdx), Push(Rbx), Push(Rbp), Push(Rsi), Push(Rdi), Push(R8),
    Push(R9), Push(R10), Push(R11), Push(R12), Push(R13), Push(R14), Push(R15),
    SubRsp(8), LeaRdi(128), Call(PageFaultDispatch), AddRsp(8),
    Pop(R15), Pop(R14), Pop(R13), Pop(R12), Pop(R11), Pop(R10), Pop(R9), Pop(R8),
    Pop(Rdi), Pop(Rsi), Pop(Rbp), Pop(Rbx), Pop(Rdx), Pop(Rcx), Pop(Rax),
    AddRsp(8), MovwImm(0x10, 32), Iretq]

  /** The registers in the order in which every stub pushes them. */
  const SAVED: seq<Reg> := [Rax, Rcx, Rdx, Rbx, Rbp, Rsi, Rdi, R8, R9, R10, R11, R12, R13, R14, R15]

  function Pushes(rs: seq<Reg>): (p: seq<Instr>)
    ensures |p| == |rs|
  {
    seq(|rs|, i requires 0 <= i < |rs| => Push(rs[i]))
  }

  /** Pops in the reverse order. */
  function Pops(rs: seq<Reg>): (p: seq<Instr>)
    ensures |p| == |rs|
  {
    seq(|rs|, i requires 0 <= i < |rs| => Pop(rs[|rs| - 1 - i]))
  }

  // ---------- Interrupt delivery and the calling convention ----------

  /** What the processor pushes, from a stack pointer aligned down to 16 (Intel SDM Vol. 3A, section 6.14.2). */
  function Deliver(s: State, errorCode: Option<Word>): State
    requires 0 <= s.rsp < WORD_LIMIT
  {
    var top := s.rsp - s.rsp % 16;
    var mem := s.mem[top - 8 := s.ss][top - 16 := s.rsp][top - 24 := s.rflags][top - 32 := s.cs][top - 40 := s.rip];
    match errorCode
    case None => s.(rsp := top - 40, mem := mem)
    case Some(code) => s.(rsp := top - 48, mem := mem[top - 48 := code])
  }

  /** The System V convention for a call: stack pointer and callee-saved registers come back as they were. */
  predicate KeepsCalleeSaved(before: State, after: State) {
    && after.rsp == before.rsp
    && after.Get(Rbx) == before.Get(Rbx) && after.Get(Rbp) == before.Get(Rbp)
    && after.Get(R12) == before.Get(R12) && after.Get(R13) == before.Get(R13)
    && after.Get(R14) == before.Get(R14) && after.Get(R15) == before.Get(R15)
  }

  /** A dispatcher without arguments leaves the caller's part of the stack alone. */
  ghost predicate Conforms(before: State, after: State) {
    KeepsCalleeSaved(before, after) && forall a: int | a >= before.rsp :: after.Load(a) == before.Load(a)
  }

  /** The page-fault dispatcher also advances the return address in the frame it gets a pointer to. */
  ghost predicate SkipsProbe(before: State, after: State) {
    && KeepsCalleeSaved(before, after)
    && forall a: int | a >= before.rsp ::
         after.Load(a) == if a == before.Get(Rdi) + 8 then (before.Load(a) + 2) % WORD_LIMIT else before.Load(a)
  }

  // ---------- Saving and restoring ----------

  lemma {:induction false} ExecAppend(p: seq<Instr>, q: seq<Instr>, callees: Callees, s: State)
    ensures Exec(p + q, callees, s) == Exec(q, callees, Exec(p, callees, s))
  {
    if p == [] {
      assert p + q == q;
    } else {
      assert (p + q)[1..] == p[1..] + q;
      ExecAppend(p[1..], q, callees, Step(p[0], callees, s));
    }
  }

  /** Pushing a list of registers stores them downwards and touches nothing at or above the old top. */
  lemma {:induction false} PushAll(rs: seq<Reg>, callees: Callees, s: State)
    ensures var t := Exec(Pushes(rs), callees, s);
            && t == s.(rsp := s.rsp - 8 * |rs|, mem := t.mem)
            && (forall i | 0 <= i < |rs| :: t.Load(s.rsp - 8 * (i + 1)) == s.Get(rs[i]))
            && forall a: int | a >= s.rsp :: t.Load(a) == s.Load(a)
  {
    if rs != [] {
      var s1 := Step(Push(rs[0]), callees, s);
      assert Pushes(rs)[1..] == Pushes(rs[1..]);
      PushAll(rs[1..], callees, s1);
      var t := Exec(Pushes(rs), callees, s);
      forall i | 0 <= i < |rs| ensures t.Load(s.rsp - 8 * (i + 1)) == s.Get(rs[i]) {
        if i > 0 {
          assert rs[i] == rs[1..][i - 1];
          assert t.Load(s1.rsp - 8 * (i - 1 + 1)) == s1.Get(rs[1..][i - 1]);
        }
      }
    }
  }

  /** One pop. */
  lemma PopOne(r: Reg, callees: Callees, s: State)
    ensures var u := Step(Pop(r), callees, s);
            && u == s.(rsp := s.rsp + 8, regs := u.regs) && u.Get(r) == s.Load(s.rsp)
            && (forall q: Reg | q != r :: u.Get(q) == s.Get(q)) && forall a: int :: u.Load(a) == s.Load(a)
  {
  }

  /** Popping them in reverse order loads each register from its slot and moves nothing else. */
  lemma {:induction false} PopAll(rs: seq<Reg>, callees: Callees, s: State)
    requires forall i, j | 0 <= i < j < |rs| :: rs[i] != rs[j]
    ensures var t := Exec(Pops(rs), callees, s);
            && t == s.(rsp := s.rsp + 8 * |rs|, regs := t.regs)
            && (forall i | 0 <= i < |rs| :: t.Get(rs[i]) == s.Load(s.rsp + 8 * (|rs| - 1 - i)))
            && forall r: Reg | r !in rs :: t.Get(r) == s.Get(r)
  {
    hide Step, State.Get, State.Load;
    if rs != [] {
      var n := |rs| - 1;
      var s1 := Step(Pop(rs[n]), callees, s);
      PopOne(rs[n], callees, s);
      assert Pops(rs)[1..] == Pops(rs[..n]);
      PopAll(rs[..n], callees, s1);
      var t := Exec(Pops(rs), callees, s);
      assert t == Exec(Pops(rs[..n]), callees, s1);
      assert rs[n] !in rs[..n];
      forall i | 0 <= i < |rs| ensures t.Get(rs[i]) == s.Load(s.rsp + 8 * (|rs| - 1 - i)) {
        if i < n {
          assert rs[i] == rs[..n][i];
          assert s1.rsp + 8 * (n - 1 - i) == s.rsp + 8 * (|rs| - 1 - i);
        }
      }
    }
  }

  lemma EveryRegisterSaved(r: Reg) returns (i: nat)
    ensures i < |SAVED| == 15 && SAVED[i] == r
  {
    i := match r
      case Rax => 0 case Rcx => 1 case Rdx => 2 case Rbx => 3 case Rbp => 4 case Rsi => 5 case Rdi => 6 case R8 => 7
      case R9 => 8 case R10 => 9 case R11 => 10 case R12 => 11 case R13 => 12 case R14 => 13 case R15 => 14;
  }

  /** The state right behind the pushes of a stub that was entered in state `e`. */
  function Entered(callees: Callees, e: State): State {
    Exec(Pushes(SAVED), callees, e)
  }

  /** The pushed registers are still in their slots. */
  ghost predicate SlotsIntact(callees: Callees, e: State, f: State) {
    forall a: int | e.rsp - 120 <= a < e.rsp :: f.Load(a) == Entered(callees, e).Load(a)
  }

  /**
   Whatever happened below the saved registers, popping them gives every register the value it had
   on entry, with the stack pointer back at the frame and memory as the pops found it.
   */
  lemma Restores(callees: Callees, e: State, f: State)
    requires f.rsp == e.rsp - 120 && SlotsIntact(callees, e, f)
    ensures var t := Exec(Pops(SAVED), callees, f);
            t == f.(rsp := e.rsp, regs := t.regs) && forall r: Reg :: t.Get(r) == e.Get(r)
  {
    hide Exec, Pops, Pushes;
    PushAll(SAVED, callees, e);
    SavedDistinct();
    PopAll(SAVED, callees, f);
    var t := Exec(Pops(SAVED), callees, f);
    forall r: Reg ensures t.Get(r) == e.Get(r) {
      var i := EveryRegisterSaved(r);
      SlotRestores(callees, e, f, i);
    }
  }

  lemma SavedDistinct()
    ensures |SAVED| == 15 && forall i, j | 0 <= i < j < |SAVED| :: SAVED[i] != SAVED[j]
  {
  }

  lemma SlotRestores(callees: Callees, e: State, f: State, i: nat)
    requires f.rsp == e.rsp - 120 && SlotsIntact(callees, e, f) && |SAVED| == 15 && i < 15
    requires forall k | 0 <= k < 15 :: Entered(callees, e).Load(e.rsp - 8 * (k + 1)) == e.Get(SAVED[k])
    requires forall k | 0 <= k < 15 :: Exec(Pops(SAVED), callees, f).Get(SAVED[k]) == f.Load(f.rsp
             + 8 * (|SAVED| - 1 - k))
    ensures Exec(Pops(SAVED), callees, f).Get(SAVED[i]) == e.Get(SAVED[i])
  {
    hide Exec, Pops, Pushes, Entered;
    var a := e.rsp - 8 * (i + 1);
    assert f.rsp + 8 * (|SAVED| - 1 - i) == a;
    assert f.Load(a) == Entered(callees, e).Load(a);
  }

  // ---------- The stubs for interrupts without an error code ----------

  function FiveWordStub(d: Dispatcher): seq<Instr> {
    Pushes(SAVED) + ([SubRsp(8)] + ([Call(d)] + ([AddRsp(8)] + (Pops(SAVED) + [MovwImm(0x10, 32), Iretq]))))
  }

  const PUSHES: seq<Instr> := [
    Push(Rax), Push(Rcx), Push(Rdx), Push(Rbx), Push(Rbp), Push(Rsi), Push(Rdi), Push(R8),
    Push(R9), Push(R10), Push(R11), Push(R12), Push(R13), Push(R14), Push(R15)]

  const POPS: seq<Instr> := [
    Pop(R15), Pop(R14), Pop(R13), Pop(R12), Pop(R11), Pop(R10), Pop(R9), Pop(R8),
    Pop(Rdi), Pop(Rsi), Pop(Rbp), Pop(Rbx), Pop(Rdx), Pop(Rcx), Pop(Rax)]

  lemma SavedInOrder()
    ensures Pushes(SAVED) == PUSHES && Pops(SAVED) == POPS
  {
  }

  lemma BreakpointListing()
    ensures BREAKPOINT == FiveWordStub(BreakpointDispatch)
  {
    hide Pushes, Pops;
    SavedInOrder();
  }

  lemma Irq32Listing()
    ensures IRQ32 == FiveWordStub(TimerIrqDispatch)
  {
    hide Pushes, Pops;
    SavedInOrder();
  }

  lemma LapicTimerListing()
    ensures LAPIC_TIMER == FiveWordStub(LapicTimerDispatch)
  {
    hide Pushes, Pops;
    SavedInOrder();
  }

  /** The state in which a five-word stub calls its dispatcher. */
  function AtCall(callees: Callees, s: State): State
    requires 0 <= s.rsp < WORD_LIMIT
  {
    var p := Entered(callees, Deliver(s, None));
    p.(rsp := p.rsp - 8)
  }

  /** At that call the interrupted registers are as they were; the stack pointer is 128 below the delivered frame. */
  lemma AtCallIs(callees: Callees, s: State)
    requires 0 <= s.rsp < WORD_LIMIT
    ensures var e, c := Deliver(s, None), AtCall(callees, s);
            && c.rsp == e.rsp - 128 && (forall r: Reg :: c.Get(r) == s.Get(r))
            && forall a: int | a >= e.rsp :: c.Load(a) == e.Load(a)
  {
    hide Exec, Pushes, Deliver;
    DeliverFrame(s, None);
    PushAll(SAVED, callees, Deliver(s, None));
    SavedDistinct();
  }

  /** The stack pointer at that call is 8 modulo 16, for every interrupted stack pointer. */
  lemma FiveWordCallMisaligned(callees: Callees, s: State)
    requires 0 <= s.rsp < WORD_LIMIT
    ensures AtCall(callees, s).rsp % 16 == 8
  {
    hide Exec, Pushes, Deliver;
    var e := Deliver(s, None);
    DeliverFrame(s, None);
    PushAll(SAVED, callees, e);
    SavedDistinct();
    SixteenFurther(e.rsp, 8);
  }

  lemma SixteenFurther(x: int, k: nat)
    ensures (x - 16 * k) % 16 == x % 16
  {
    var q := x / 16;
    assert x - 16 * k == 16 * (q - k) + x % 16;
  }

  /** The machine goes on exactly where it was interrupted, except that SS is the data selector. */
  ghost predicate ResumesAt(s: State, out: State, rip: Word) {
    && (forall r: Reg :: out.Get(r) == s.Get(r))
    && out.rsp == s.rsp && out.rip == rip && out.cs == s.cs && out.rflags == s.rflags && out.ss == 0x10
    && forall a: int | a >= s.rsp :: out.Load(a) == s.Load(a)
  }

  /** Below `frame` memory is as the dispatcher left it. */
  ghost predicate LeftBelow(f: State, out: State, frame: int) {
    forall a: int | a < frame :: out.Load(a) == f.Load(a)
  }

  /** The frame that delivery leaves for `iretq`, from `frame` on; what was at or above the old stack pointer stays. */
  ghost predicate HasFrame(s: State, e: State, frame: int) {
    && frame + 40 <= s.rsp
    && e.Load(frame) == s.rip && e.Load(frame + 8) == s.cs && e.Load(frame + 16) == s.rflags
    && e.Load(frame + 24) == s.rsp && e.Load(frame + 32) == s.ss
    && forall a: int | a >= s.rsp :: e.Load(a) == s.Load(a)
  }

  lemma DeliverFrame(s: State, errorCode: Option<Word>)
    requires 0 <= s.rsp < WORD_LIMIT
    ensures var e := Deliver(s, errorCode);
            && e.regs == s.regs && e.rsp % 16 == (if errorCode == None then 8 else 0)
            && HasFrame(s, e, if errorCode == None then e.rsp else e.rsp + 8)
            && (errorCode.Some? ==> e.Load(e.rsp) == errorCode.value && s.rsp - 64 < e.rsp)
  {
    var top := s.rsp - s.rsp % 16;
    assert top == 16 * (s.rsp / 16);
  }

  /** The state of a five-word stub right before it patches SS. */
  function BeforePatch(d: Dispatcher, callees: Callees, s: State): State
    requires 0 <= s.rsp < WORD_LIMIT
  {
    var f := callees(d, AtCall(callees, s));
    Exec(Pops(SAVED), callees, f.(rsp := f.rsp + 8))
  }

  lemma BeforePatchRestored(d: Dispatcher, callees: Callees, s: State)
    requires 0 <= s.rsp < WORD_LIMIT
    requires Conforms(AtCall(callees, s), callees(d, AtCall(callees, s)))
    ensures var e, t := Deliver(s, None), BeforePatch(d, callees, s);
            && t.rsp == e.rsp && (forall r: Reg :: t.Get(r) == e.Get(r))
            && (forall a: int | a >= e.rsp :: t.Load(a) == e.Load(a))
            && forall a: int :: t.Load(a) == callees(d, AtCall(callees, s)).Load(a)
  {
    hide Exec, Pops, Pushes, Deliver;
    var e := Deliver(s, None);
    var p, c := Entered(callees, e), AtCall(callees, s);
    var f := callees(d, c);
    var g := f.(rsp := f.rsp + 8);
    PushAll(SAVED, callees, e);
    SavedDistinct();
    forall a: int | a >= e.rsp - 120 ensures g.Load(a) == p.Load(a) {
      assert f.Load(a) == c.Load(a);
    }
    Restores(callees, e, g);
    forall a: int | a >= e.rsp ensures BeforePatch(d, callees, s).Load(a) == e.Load(a) {
      assert g.Load(a) == p.Load(a) == e.Load(a);
    }
  }

  lemma FiveWordRuns(d: Dispatcher, callees: Callees, s: State)
    requires 0 <= s.rsp < WORD_LIMIT
    ensures Exec(FiveWordStub(d), callees, Deliver(s, None)) ==
            Exec([MovwImm(0x10, 32), Iretq], callees, BeforePatch(d, callees, s))
  {
    hide Deliver, Pops, Pushes, Exec;
    var e := Deliver(s, None);
    var p, c := Entered(callees, e), AtCall(callees, s);
    var f := callees(d, c);
    var tail := [MovwImm(0x10, 32), Iretq];
    var r4 := Pops(SAVED) + tail;
    var r3 := [AddRsp(8)] + r4;
    var r2 := [Call(d)] + r3;
    ExecAppend(Pushes(SAVED), [SubRsp(8)] + r2, callees, e);
    ExecOne(SubRsp(8), r2, callees, p);
    ExecOne(Call(d), r3, callees, c);
    ExecOne(AddRsp(8), r4, callees, f);
    ExecAppend(Pops(SAVED), tail, callees, f.(rsp := f.rsp + 8));
  }

  /** A five-word stub with any conforming dispatcher resumes what was interrupted. */
  lemma FiveWordReturns(d: Dispatcher, callees: Callees, s: State)
    requires 0 <= s.rsp < WORD_LIMIT
    requires Conforms(AtCall(callees, s), callees(d, AtCall(callees, s)))
    ensures ResumesAt(s, Exec(FiveWordStub(d), callees, Deliver(s, None)), s.rip)
    ensures LeftBelow(callees(d, AtCall(callees, s)), Exec(FiveWordStub(d), callees, Deliver(s, None)),
                      Deliver(s, None).rsp)
  {
    hide Deliver, Pops, Pushes, Exec, BeforePatch, Conforms, ResumesAt;
    DeliverFrame(s, None);
    FiveWordRuns(d, callees, s);
    BeforePatchRestored(d, callees, s);
    ReturnFrame(callees, s, Deliver(s, None).rsp, BeforePatch(d, callees, s), s.rip);
  }

  lemma ExecOne(i: Instr, q: seq<Instr>, callees: Callees, s: State)
    ensures Exec([i] + q, callees, s) == Exec(q, callees, Step(i, callees, s))
  {
    assert ([i] + q)[1..] == q;
  }

  /** Patching SS and returning from a frame that still holds what was interrupted. */
  lemma ReturnFrame(callees: Callees, s: State, frame: int, t: State, rip: Word)
    requires 0 <= s.rsp < WORD_LIMIT && t.rsp == frame && frame + 40 <= s.rsp
    requires forall r: Reg :: t.Get(r) == s.Get(r)
    requires t.Load(frame) == rip && t.Load(frame + 8) == s.cs && t.Load(frame + 16) == s.rflags
    requires t.Load(frame + 24) == s.rsp && t.Load(frame + 32) == s.ss
    requires forall a: int | a >= s.rsp :: t.Load(a) == s.Load(a)
    ensures ResumesAt(s, Exec([MovwImm(0x10, 32), Iretq], callees, t), rip)
    ensures LeftBelow(t, Exec([MovwImm(0x10, 32), Iretq], callees, t), frame)
  {
    hide Exec, State.Load, State.Get;
    var patched := Step(MovwImm(0x10, 32), callees, t);
    assert [MovwImm(0x10, 32), Iretq] == [MovwImm(0x10, 32)] + [Iretq];
    ExecOne(MovwImm(0x10, 32), [Iretq], callees, t);
    assert [Iretq] == [Iretq] + [];
    ExecOne(Iretq, [], callees, patched);
    ExecNone(callees, Step(Iretq, callees, patched));
    PatchSs(callees, t, s.ss);
    Returns(callees, patched);
  }

  lemma ExecNone(callees: Callees, s: State)
    ensures Exec([], callees, s) == s
  {
  }

  /** The saved SS becomes the data selector, and no other word changes. */
  lemma PatchSs(callees: Callees, t: State, ss: Selector)
    requires t.Load(t.rsp + 32) == ss
    ensures var u := Step(MovwImm(0x10, 32), callees, t);
            && u.rsp == t.rsp && u.Load(t.rsp + 32) == 0x10 && (forall r: Reg :: u.Get(r) == t.Get(r))
            && forall a: int | a != t.rsp + 32 :: u.Load(a) == t.Load(a)
  {
  }

  lemma Returns(callees: Callees, t: State)
    ensures var u := Step(Iretq, callees, t);
            && u.rip == t.Load(t.rsp) && u.cs == t.Load(t.rsp + 8) % 0x1_0000 && u.rflags == t.Load(t.rsp + 16)
            && u.rsp == t.Load(t.rsp + 24) && u.ss == t.Load(t.rsp + 32) % 0x1_0000
            && (forall r: Reg :: u.Get(r) == t.Get(r)) && forall a: int :: u.Load(a) == t.Load(a)
  {
  }

  // ---------- The page-fault stub ----------

  function PageFaultStub(): seq<Instr> {
    Pushes(SAVED) + ([SubRsp(8)] + ([LeaRdi(128)] + ([Call(PageFaultDispatch)] + ([AddRsp(8)] +
    (Pops(SAVED) + ([AddRsp(8)] + [MovwImm(0x10, 32), Iretq]))))))
  }

  lemma PageFaultListing()
    ensures PAGE_FAULT == PageFaultStub()
  {
    hide Pushes, Pops;
    SavedInOrder();
  }

  /** The state in which the page-fault stub calls its dispatcher. */
  function AtFaultCall(callees: Callees, s: State, errorCode: Word): State
    requires 0 <= s.rsp < WORD_LIMIT
  {
    var p := Entered(callees, Deliver(s, Some(errorCode)));
    p.(rsp := p.rsp - 8, regs := p.regs[Rdi := (p.rsp - 8 + 128) % WORD_LIMIT])
  }

  /** The dispatcher gets an aligned stack and a pointer to the error code, with the saved RIP behind it. */
  lemma FaultCallArguments(callees: Callees, s: State, errorCode: Word)
    requires 64 <= s.rsp < WORD_LIMIT
    ensures var c := AtFaultCall(callees, s, errorCode);
            && c.rsp % 16 == 0 && c.Get(Rdi) == c.rsp + 128 == Deliver(s, Some(errorCode)).rsp
            && c.Load(c.Get(Rdi)) == errorCode && c.Load(c.Get(Rdi) + 8) == s.rip
            && forall r: Reg | r != Rdi :: c.Get(r) == s.Get(r)
  {
    hide Exec, Pushes, Deliver;
    var e := Deliver(s, Some(errorCode));
    DeliverFrame(s, Some(errorCode));
    PushAll(SAVED, callees, e);
    SavedDistinct();
    var c := AtFaultCall(callees, s, errorCode);
    assert c.Load(e.rsp) == e.Load(e.rsp) && c.Load(e.rsp + 8) == e.Load(e.rsp + 8);
  }

  /** The state of the page-fault stub right before it patches SS. */
  function FaultBeforePatch(callees: Callees, s: State, errorCode: Word): State
    requires 0 <= s.rsp < WORD_LIMIT
  {
    var f := callees(PageFaultDispatch, AtFaultCall(callees, s, errorCode));
    var t := Exec(Pops(SAVED), callees, f.(rsp := f.rsp + 8));
    t.(rsp := t.rsp + 8)
  }

  lemma FaultBeforePatchRestored(callees: Callees, s: State, errorCode: Word)
    requires 64 <= s.rsp < WORD_LIMIT
    requires var c := AtFaultCall(callees, s, errorCode); SkipsProbe(c, callees(PageFaultDispatch, c))
    ensures var e, u := Deliver(s, Some(errorCode)), FaultBeforePatch(callees, s, errorCode);
            && u.rsp == e.rsp + 8 && (forall r: Reg :: u.Get(r) == e.Get(r))
            && (forall a: int :: u.Load(a) == callees(PageFaultDispatch, AtFaultCall(callees, s, errorCode)).Load(a))
            && forall a: int | a >= e.rsp ::
                 u.Load(a) == if a == e.rsp + 8 then (e.Load(a) + 2) % WORD_LIMIT else e.Load(a)
  {
    hide Exec, Pops, Pushes, Deliver;
    var e := Deliver(s, Some(errorCode));
    var p, c := Entered(callees, e), AtFaultCall(callees, s, errorCode);
    var f := callees(PageFaultDispatch, c);
    var g := f.(rsp := f.rsp + 8);
    PushAll(SAVED, callees, e);
    SavedDistinct();
    FaultCallArguments(callees, s, errorCode);
    forall a: int | a >= e.rsp - 120
      ensures g.Load(a) == if a == e.rsp + 8 then (p.Load(a) + 2) % WORD_LIMIT else p.Load(a)
    {
      assert c.Load(a) == p.Load(a);
      assert f.Load(a) == if a == c.Get(Rdi) + 8 then (c.Load(a) + 2) % WORD_LIMIT else c.Load(a);
    }
    Restores(callees, e, g);
    var u := FaultBeforePatch(callees, s, errorCode);
    forall a: int | a >= e.rsp
      ensures u.Load(a) == if a == e.rsp + 8 then (e.Load(a) + 2) % WORD_LIMIT else e.Load(a)
    {
      assert u.Load(a) == g.Load(a) && p.Load(a) == e.Load(a);
    }
  }

  lemma FaultRuns(callees: Callees, s: State, errorCode: Word)
    requires 0 <= s.rsp < WORD_LIMIT
    ensures Exec(PageFaultStub(), callees, Deliver(s, Some(errorCode))) ==
            Exec([MovwImm(0x10, 32), Iretq], callees, FaultBeforePatch(callees, s, errorCode))
  {
    hide Deliver, Pops, Pushes, Exec;
    var e := Deliver(s, Some(errorCode));
    var p, c := Entered(callees, e), AtFaultCall(callees, s, errorCode);
    var b := p.(rsp := p.rsp - 8);
    var f := callees(PageFaultDispatch, c);
    var g := f.(rsp := f.rsp + 8);
    var tail := [MovwImm(0x10, 32), Iretq];
    var r5 := [AddRsp(8)] + tail;
    var r4 := [AddRsp(8)] + (Pops(SAVED) + r5);
    var r3 := [Call(PageFaultDispatch)] + r4;
    var r2 := [LeaRdi(128)] + r3;
    ExecAppend(Pushes(SAVED), [SubRsp(8)] + r2, callees, e);
    ExecOne(SubRsp(8), r2, callees, p);
    ExecOne(LeaRdi(128), r3, callees, b);
    ExecOne(Call(PageFaultDispatch), r4, callees, c);
    ExecOne(AddRsp(8), Pops(SAVED) + r5, callees, f);
    ExecAppend(Pops(SAVED), r5, callees, g);
    ExecOne(AddRsp(8), tail, callees, Exec(Pops(SAVED), callees, g));
  }

  /** The page-fault stub drops the error code and resumes two bytes after the faulting instruction. */
  lemma PageFaultReturns(callees: Callees, s: State, errorCode: Word)
    requires 64 <= s.rsp < WORD_LIMIT
    requires var c := AtFaultCall(callees, s, errorCode); SkipsProbe(c, callees(PageFaultDispatch, c))
    ensures ResumesAt(s, Exec(PageFaultStub(), callees, Deliver(s, Some(errorCode))), (s.rip + 2) % WORD_LIMIT)
    ensures LeftBelow(callees(PageFaultDispatch, AtFaultCall(callees, s, errorCode)),
                      Exec(PageFaultStub(), callees, Deliver(s, Some(errorCode))), Deliver(s, Some(errorCode)).rsp)
  {
    hide Deliver, Pops, Pushes, Exec, FaultBeforePatch, SkipsProbe, ResumesAt;
    DeliverFrame(s, Some(errorCode));
    FaultRuns(callees, s, errorCode);
    FaultBeforePatchRestored(callees, s, errorCode);
    var e := Deliver(s, Some(errorCode));
    ReturnFrame(callees, s, e.rsp + 8, FaultBeforePatch(callees, s, errorCode), (s.rip + 2) % WORD_LIMIT);
  }

  // ---------- The listings on the machine ----------

  /**
   An interrupt without an error code: delivery, then the listed stub of its dispatcher. The
   dispatcher is called with the interrupted registers, 128 bytes below the frame, and what it leaves
   in memory stays; everything that it must not touch goes on as interrupted.
   */
  method Interrupt(d: Dispatcher, callees: Callees, s: State) returns (out: State)
    requires 0 <= s.rsp < WORD_LIMIT && d != PageFaultDispatch
    requires Conforms(AtCall(callees, s), callees(d, AtCall(callees, s)))
    ensures ResumesAt(s, out, s.rip)
    ensures var e, c := Deliver(s, None), AtCall(callees, s);
            && c.rsp == e.rsp - 128 && (forall r: Reg :: c.Get(r) == s.Get(r))
            && forall a: int | a < e.rsp :: out.Load(a) == callees(d, c).Load(a)
  {
    hide Exec, Deliver, Conforms, ResumesAt, AtCall, FiveWordStub;
    var listing := match d
      case BreakpointDispatch => BREAKPOINT
      case TimerIrqDispatch => IRQ32
      case _ => LAPIC_TIMER;
    var machine := new Machine(Deliver(s, None));
    machine.Run(listing, callees);
    BreakpointListing();
    Irq32Listing();
    LapicTimerListing();
    FiveWordReturns(d, callees, s);
    AtCallIs(callees, s);
    out := machine.state;
  }

  /**
   A page fault: delivery with an error code, then the listed stub. The dispatcher is called with a
   pointer to the error code, and what it leaves in memory below the frame stays.
   */
  method Fault(callees: Callees, s: State, errorCode: Word) returns (out: State)
    requires 64 <= s.rsp < WORD_LIMIT
    requires var c := AtFaultCall(callees, s, errorCode); SkipsProbe(c, callees(PageFaultDispatch, c))
    ensures ResumesAt(s, out, (s.rip + 2) % WORD_LIMIT)
    ensures var e, c := Deliver(s, Some(errorCode)), AtFaultCall(callees, s, errorCode);
            && c.rsp == e.rsp - 128 && c.Get(Rdi) == e.rsp && c.Load(e.rsp) == errorCode
            && (forall r: Reg | r != Rdi :: c.Get(r) == s.Get(r))
            && forall a: int | a < e.rsp :: out.Load(a) == callees(PageFaultDispatch, c).Load(a)
  {
    hide Exec, Deliver, SkipsProbe, ResumesAt, AtFaultCall, PageFaultStub;
    var machine := new Machine(Deliver(s, Some(errorCode)));
    machine.Run(PAGE_FAULT, callees);
    PageFaultListing();
    PageFaultReturns(callees, s, errorCode);
    FaultCallArguments(callees, s, errorCode);
    out := machine.state;
  }
}
