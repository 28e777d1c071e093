/**
 Stages 2 to 5 of the kernel's main line as a state machine, interleaved in any way with the PIT
 and the local APIC timer. It starts behind the `cli` of stage 2, with the APIC timer off.
 A wait is two statements, the check of the count and the `hlt`; a tick can come between them.
 */
module BringUp {
  import opened Words
  import opened Idt

  datatype Event =
    | Installed2 | Int3Marker2 | Dispatch2 | Done2
    | Begin3 | PicOk3 | PitOk3 | Sti3 | Irq3(n: nat) | Done3
    | Begin4 | PicMasked4 | LapicMmio4 | Svr4 | TimerArm4 | Sti4 | Irq4(n: nat) | Done4
    | Begin5 | Gate5 | Probe5 | Dispatch5 | Cr2Ok5 | Done5

  datatype Handler = BreakpointIsr | PitIsr | LapicIsr | FaultIsr

  datatype Timer = Pit | Lapic

  /** One statement of the main line. */
  datatype Action =
    | Log(e: Event)
    | ClearIdt
    | SetGate(vector: Octet, handler: Handler, typeAttr: Octet)
    | LoadIdt
    | Int3
    | RemapPic        // remaps IRQ0 to vector 32 and unmasks it alone
    | MaskPic
    | EnableLapic     // the enable bit of the spurious-interrupt vector register
    | SetLvt          // vector 34, periodic, not masked
    | StartLapic      // initial count: from here on the timer runs
    | MaskLvt
    | ZeroCount(t: Timer)
    | Sti
    | Cli
    | Check(t: Timer) // `while (count < 3)`: on to the `hlt`, or past it
    | Hlt(t: Timer)   // sleep; the check comes next
    | Probe           // the load that faults
    | Halt

  /** Where the four stubs lie once the image is loaded, the code selector, and whether the probe address is mapped. */
  datatype Config = Config(breakpoint: Word, pit: Word, lapic: Word, fault: Word, cs: Half, probeMapped: bool) {
    function Address(h: Handler): Word {
      match h
      case BreakpointIsr => breakpoint
      case PitIsr => pit
      case LapicIsr => lapic
      case FaultIsr => fault
    }
  }

  /** The main line, statement by statement. */
  function Program(pc: nat): Action {
    match pc
    case 0 => ClearIdt
    case 1 => SetGate(3, BreakpointIsr, TRAP)
    case 2 => LoadIdt
    case 3 => Log(Installed2)
    case 4 => Log(Int3Marker2)
    case 5 => Int3
    case 6 => Log(Done2)
    case 7 => Log(Begin3)
    case 8 => RemapPic
    case 9 => Log(PicOk3)
    case 10 => Log(PitOk3)
    case 11 => SetGate(32, PitIsr, INTERRUPT)
    case 12 => LoadIdt
    case 13 => Log(Sti3)
    case 14 => ZeroCount(Pit)
    case 15 => Sti
    case 16 => Check(Pit)
    case 17 => Hlt(Pit)
    case 18 => Cli
    case 19 => Log(Done3)
    case 20 => Log(Begin4)
    case 21 => MaskPic
    case 22 => Log(PicMasked4)
    case 23 => Log(LapicMmio4)
    case 24 => EnableLapic
    case 25 => Log(Svr4)
    case 26 => SetLvt
    case 27 => StartLapic
    case 28 => Log(TimerArm4)
    case 29 => SetGate(34, LapicIsr, INTERRUPT)
    case 30 => LoadIdt
    case 31 => Log(Sti4)
    case 32 => ZeroCount(Lapic)
    case 33 => Sti
    case 34 => Check(Lapic)
    case 35 => Hlt(Lapic)
    case 36 => Cli
    case 37 => MaskLvt
    case 38 => Log(Done4)
    case 39 => Log(Begin5)
    case 40 => SetGate(14, FaultIsr, TRAP)
    case 41 => LoadIdt
    case 42 => Log(Gate5)
    case 43 => Log(Probe5)
    case 44 => Probe
    case 45 => Log(Done5)
    case _ => Halt
  }

  const END: nat := 46

  /** The statement that checks the count of a timer; the one behind it is the `hlt`, then comes the `cli`. */
  function CheckAt(t: Timer): nat {
    if t == Pit then 16 else 34
  }

  predicate InWait(t: Timer, pc: nat) {
    CheckAt(t) <= pc <= CheckAt(t) + 1
  }

  /** The 256 gates. */
  type Table = t: seq<Gate> | |t| == VECTORS witness seq(VECTORS, i => EMPTY)

  datatype Cpu = Cpu(pc: nat, interrupts: bool, idle: bool, crashed: bool)

  /** The PIC line of the PIT, and the timer of the local APIC. */
  datatype Devices = Devices(
    picVector: Octet, picOpen: bool, pitPending: bool,
    lapicOn: bool, lvtVector: Octet, lvtOpen: bool, lapicRuns: bool, lapicPending: bool)

  datatype Output = Output(pitCount: Word, lapicCount: Word, log: seq<Event>) {
    function Count(t: Timer): Word {
      if t == Pit then pitCount else lapicCount
    }

    function WithCount(t: Timer, n: Word): Output {
      if t == Pit then Output(n, lapicCount, log) else Output(pitCount, n, log)
    }
  }

  datatype Machine = Machine(cpu: Cpu, idt: Table, idtLoaded: bool, dev: Devices, out: Output)

  /** What the scheduler may do next. */
  datatype Choice = Main | Raises(t: Timer) | Delivers(t: Timer)

  /** The processor enters the handler: the gate of `vector` is usable and names its stub. Any other gate is the end. */
  predicate Enters(cfg: Config, s: Machine, vector: Octet, expected: Handler) {
    s.idtLoaded && s.idt[vector].Usable(cfg.cs) && s.idt[vector].Target() == cfg.Address(expected)
  }

  function Tick(t: Timer, n: nat): Event {
    if t == Pit then Irq3(n) else Irq4(n)
  }

  /** `timer_irq_dispatch` and `lapic_timer_dispatch`: count, and report the first three. */
  function Dispatch(t: Timer, o: Output): Output {
    var n := (o.Count(t) + 1) % WORD_LIMIT;
    var o' := o.WithCount(t, n);
    if n <= 3 then o'.(log := o'.log + [Tick(t, n)]) else o'
  }

  /** A trap whose gate does not lead to its stub. */
  predicate Faults(cfg: Config, a: Action, s: Machine) {
    || (a.Int3? && !Enters(cfg, s, 3, BreakpointIsr))
    || (a.Probe? && !cfg.probeMapped && !Enters(cfg, s, 14, FaultIsr))
  }

  /** The next statement: a wait loops between its check and its `hlt`. */
  function PcAfter(a: Action, pc: nat, o: Output): nat {
    match a
    case Check(t) => if o.Count(t) < 3 then pc + 1 else pc + 2
    case Hlt(_) => if pc > 0 then pc - 1 else 0
    case Halt => pc
    case _ => pc + 1
  }

  /** What one statement of the main line does to the processor, the table, the devices and the output. */
  function CpuAfter(cfg: Config, a: Action, s: Machine): Cpu {
    Cpu(PcAfter(a, s.cpu.pc, s.out), a.Sti? || (s.cpu.interrupts && !a.Cli?), s.cpu.idle || a.Hlt?,
        s.cpu.crashed || Faults(cfg, a, s))
  }

  function IdtAfter(cfg: Config, a: Action, idt: Table): Table {
    match a
    case ClearIdt => seq(VECTORS, i => EMPTY)
    case SetGate(v, h, ty) => idt[v := GateTo(cfg.Address(h), cfg.cs, ty)]
    case _ => idt
  }

  function DevicesAfter(a: Action, d: Devices): Devices {
    match a
    case RemapPic => d.(picVector := 32, picOpen := true)
    case MaskPic => d.(picOpen := false)
    case EnableLapic => d.(lapicOn := true)
    case SetLvt => d.(lvtVector := 34, lvtOpen := true)
    case StartLapic => d.(lapicRuns := true)
    case MaskLvt => d.(lvtOpen := false)
    case _ => d
  }

  function OutputAfter(cfg: Config, a: Action, o: Output): Output {
    match a
    case Log(e) => o.(log := o.log + [e])
    case Int3 => o.(log := o.log + [Dispatch2])
    case Probe => if cfg.probeMapped then o else o.(log := o.log + [Dispatch5, Cr2Ok5])
    case ZeroCount(t) => o.WithCount(t, 0)
    case _ => o
  }

  function Act(cfg: Config, a: Action, s: Machine): Machine {
    Machine(CpuAfter(cfg, a, s), IdtAfter(cfg, a, s.idt), s.idtLoaded || a.LoadIdt?, DevicesAfter(a, s.dev),
            OutputAfter(cfg, a, s.out))
  }

  predicate Pending(t: Timer, d: Devices) {
    if t == Pit then d.pitPending else d.lapicPending
  }

  function WithPending(t: Timer, d: Devices, p: bool): Devices {
    if t == Pit then d.(pitPending := p) else d.(lapicPending := p)
  }

  /** The line of a timer goes up only if the timer runs: the PIT always does, the local APIC once it is enabled. */
  predicate CanRaise(t: Timer, d: Devices) {
    t == Pit || (d.lapicOn && d.lapicRuns && d.lvtOpen)
  }

  predicate CanDeliver(t: Timer, s: Machine) {
    s.cpu.interrupts && Pending(t, s.dev) && (t == Pit ==> s.dev.picOpen)
  }

  function VectorOf(t: Timer, d: Devices): Octet {
    if t == Pit then d.picVector else d.lvtVector
  }

  function IsrOf(t: Timer): Handler {
    if t == Pit then PitIsr else LapicIsr
  }

  /**
   A timer interrupt is delivered: its line goes down, a sleeping processor wakes up, the handler runs.
   It runs in one step because its gate, an interrupt gate, keeps the flag closed until `iretq`.
   */
  function Deliver(cfg: Config, t: Timer, s: Machine): Machine {
    var vector := VectorOf(t, s.dev);
    if Enters(cfg, s, vector, IsrOf(t)) && s.idt[vector].typeAttr == INTERRUPT then
      s.(cpu := s.cpu.(idle := false), dev := WithPending(t, s.dev, false), out := Dispatch(t, s.out))
    else s.(cpu := s.cpu.(crashed := true))
  }

  /** One scheduling step. A choice that is not possible in `s` changes nothing. */
  function Step(cfg: Config, c: Choice, s: Machine): Machine {
    if s.cpu.crashed then s
    else
      match c
      case Main => if s.cpu.idle then s else Act(cfg, Program(s.cpu.pc), s)
      case Raises(t) => if CanRaise(t, s.dev) then s.(dev := WithPending(t, s.dev, true)) else s
      case Delivers(t) => if CanDeliver(t, s) then Deliver(cfg, t, s) else s
  }

  function Run(cfg: Config, s: Machine, schedule: seq<Choice>): Machine
  {
    if schedule == [] then s
    else Step(cfg, schedule[|schedule| - 1], Run(cfg, s, schedule[..|schedule| - 1]))
  }

  // ---------- What the log is meant to be ----------

  function Ticks(t: Timer, n: nat): (r: seq<Event>)
    ensures |r| == n
  {
    seq(n, (i: nat) => Tick(t, i + 1))
  }

  /** The events that belong to one statement; the `hlt` of a wait owns the three ticks that it waits for. */
  function Emits(cfg: Config, a: Action): seq<Event> {
    match a
    case Log(e) => [e]
    case Int3 => [Dispatch2]
    case Hlt(t) => Ticks(t, 3)
    case Probe => if cfg.probeMapped then [] else [Dispatch5, Cr2Ok5]
    case _ => []
  }

  /** The log of the first `pc` statements. */
  function LogAt(cfg: Config, pc: nat): seq<Event> {
    if pc == 0 then [] else LogAt(cfg, pc - 1) + Emits(cfg, Program(pc - 1))
  }

  function AtMostThree(n: nat): nat {
    if n < 3 then n else 3
  }

  // ---------- The invariant ----------

  /** The statement at which each piece of the machine is set up. */
  ghost predicate SetUp(c: Cpu, d: Devices) {
    && c.pc <= END && !c.crashed
    && (c.interrupts <==> c.pc in {16, 17, 18, 34, 35, 36})
    && (c.idle ==> c.pc in {16, 34})
    && (c.pc > 8 ==> d.picVector == 32)
    && (c.pc > 8 ==> (d.picOpen <==> c.pc <= 21))
    && (c.pc > 24 ==> d.lapicOn)
    && (c.pc > 26 ==> d.lvtVector == 34 && (d.lvtOpen <==> c.pc <= 37))
    && (d.lapicRuns <==> c.pc > 27)
    && (d.lapicPending ==> c.pc > 27)
  }

  /** The gate of vector `v` before statement `pc`: four of 256 are set, with their types; the others are all zero. */
  function GateAt(cfg: Config, pc: nat, v: nat): Gate {
    if v == 3 && pc > 1 then GateTo(cfg.breakpoint, cfg.cs, 0x8F)
    else if v == 32 && pc > 11 then GateTo(cfg.pit, cfg.cs, 0x8E)
    else if v == 34 && pc > 29 then GateTo(cfg.lapic, cfg.cs, 0x8E)
    else if v == 14 && pc > 40 then GateTo(cfg.fault, cfg.cs, 0x8F)
    else Gate(0, 0, 0, 0, 0, 0, 0)
  }

  /** The whole table, from the statement on that clears it. */
  ghost predicate GatesSet(cfg: Config, pc: nat, idt: Table, loaded: bool) {
    && (pc > 0 ==> forall v | 0 <= v < 256 :: idt[v] == GateAt(cfg, pc, v))
    && (pc > 2 ==> loaded)
  }

  /** The ticks of a wait in progress. */
  function TicksSoFar(pc: nat, o: Output): seq<Event> {
    if InWait(Pit, pc) then Ticks(Pit, AtMostThree(o.pitCount))
    else if InWait(Lapic, pc) then Ticks(Lapic, AtMostThree(o.lapicCount))
    else []
  }

  /** The log so far: the statements done, and the ticks of a wait in progress. */
  ghost predicate LogAsPlanned(cfg: Config, pc: nat, o: Output) {
    && (forall t :: pc == CheckAt(t) - 1 ==> o.Count(t) == 0)
    && (forall t :: pc == CheckAt(t) + 2 ==> o.Count(t) >= 3)
    && o.log == LogAt(cfg, pc) + TicksSoFar(pc, o)
  }

  /** The invariant after `steps` scheduling steps. */
  ghost predicate Inv(cfg: Config, s: Machine, steps: nat) {
    && SetUp(s.cpu, s.dev) && GatesSet(cfg, s.cpu.pc, s.idt, s.idtLoaded) && LogAsPlanned(cfg, s.cpu.pc, s.out)
    && s.out.pitCount <= steps && s.out.lapicCount <= steps
  }

  /** The state behind the `cli` of stage 2: no interrupts, empty log, and the APIC timer off. */
  predicate Initial(s: Machine) {
    && s.cpu == Cpu(0, false, false, false) && s.out == Output(0, 0, [])
    && !s.dev.lapicRuns && !s.dev.lapicPending
  }

  // ---------- Where the statements are ----------

  lemma WhereInterruptFlag(pc: nat)
    ensures Program(pc).Sti? <==> pc in {15, 33}
    ensures Program(pc).Cli? <==> pc in {18, 36}
  {
  }

  lemma WhereWaits(pc: nat)
    ensures Program(pc) == Check(Pit) <==> pc == 16
    ensures Program(pc) == Check(Lapic) <==> pc == 34
    ensures Program(pc) == Hlt(Pit) <==> pc == 17
    ensures Program(pc) == Hlt(Lapic) <==> pc == 35
    ensures Program(pc).Check? ==> pc in {16, 34}
    ensures Program(pc).Hlt? ==> pc in {17, 35}
    ensures Program(pc).Halt? <==> pc >= END
  {
  }

  lemma WhereDevices(pc: nat)
    ensures Program(pc).RemapPic? <==> pc == 8
    ensures Program(pc).MaskPic? <==> pc == 21
    ensures Program(pc).EnableLapic? <==> pc == 24
    ensures Program(pc).SetLvt? <==> pc == 26
    ensures Program(pc).StartLapic? <==> pc == 27
    ensures Program(pc).MaskLvt? <==> pc == 37
  {
  }

  lemma WhereCounters(pc: nat)
    ensures Program(pc) == ZeroCount(Pit) <==> pc == 14
    ensures Program(pc) == ZeroCount(Lapic) <==> pc == 32
    ensures Program(pc).ZeroCount? ==> pc in {14, 32}
  {
  }

  lemma WhereTables(pc: nat)
    ensures Program(pc).ClearIdt? <==> pc == 0
    ensures pc == 2 ==> Program(pc).LoadIdt?
    ensures Program(pc).Int3? ==> pc > 2
    ensures Program(pc).Probe? ==> pc > 40
  {
  }

  lemma WhereGates(pc: nat)
    ensures pc == 1 <==> Program(pc) == SetGate(3, BreakpointIsr, TRAP)
    ensures pc == 11 <==> Program(pc) == SetGate(32, PitIsr, INTERRUPT)
    ensures pc == 29 <==> Program(pc) == SetGate(34, LapicIsr, INTERRUPT)
    ensures pc == 40 <==> Program(pc) == SetGate(14, FaultIsr, TRAP)
    ensures Program(pc).SetGate? ==> pc in {1, 11, 29, 40}
  {
  }

  // ---------- The main line keeps the invariant ----------

  /** A gate that was set is entered. */
  lemma SetGateEnters(cfg: Config, s: Machine, vector: Octet, h: Handler, typeAttr: Octet)
    requires s.idtLoaded && typeAttr in {TRAP, INTERRUPT}
    requires s.idt[vector] == GateTo(cfg.Address(h), cfg.cs, typeAttr)
    ensures Enters(cfg, s, vector, h)
  {
    hide Gate.Target, GateTo, Gate.Usable, Config.Address;
    GateDecodes(cfg.Address(h), cfg.cs, typeAttr);
  }

  lemma NoFault(cfg: Config, s: Machine)
    requires GatesSet(cfg, s.cpu.pc, s.idt, s.idtLoaded)
    ensures !Faults(cfg, Program(s.cpu.pc), s)
  {
    hide Program, GateTo, Enters;
    WhereTables(s.cpu.pc);
    if s.cpu.pc > 2 {
      SetGateEnters(cfg, s, 3, BreakpointIsr, TRAP);
    }
    if s.cpu.pc > 40 {
      SetGateEnters(cfg, s, 14, FaultIsr, TRAP);
    }
  }

  lemma MainSetUp(cfg: Config, s: Machine)
    requires SetUp(s.cpu, s.dev) && GatesSet(cfg, s.cpu.pc, s.idt, s.idtLoaded) && !s.cpu.idle
    ensures var a := Program(s.cpu.pc); SetUp(CpuAfter(cfg, a, s), DevicesAfter(a, s.dev))
  {
    hide Program, GatesSet, Faults;
    NoFault(cfg, s);
    WhereInterruptFlag(s.cpu.pc);
    WhereWaits(s.cpu.pc);
    WhereDevices(s.cpu.pc);
  }

  /** How far a statement goes: one on, or about within a wait. */
  lemma NextPc(pc: nat, o: Output)
    requires pc <= END
    ensures var pc' := PcAfter(Program(pc), pc, o);
            && (pc' == pc + 1 || pc == END == pc' || pc in {16, 17, 34, 35})
            && (pc in {16, 34} ==> pc' == if o.Count(if pc == 16 then Pit else Lapic) < 3 then pc + 1 else pc + 2)
            && (pc in {17, 35} ==> pc' == pc - 1)
  {
    hide Program;
    WhereWaits(pc);
  }

  lemma MainGates(cfg: Config, pc: nat, o: Output, idt: Table, loaded: bool)
    requires GatesSet(cfg, pc, idt, loaded) && pc <= END
    ensures var a := Program(pc); GatesSet(cfg, PcAfter(a, pc, o), IdtAfter(cfg, a, idt), loaded || a.LoadIdt?)
  {
    hide Program, GateTo, PcAfter;
    NextPc(pc, o);
    WhereTables(pc);
    WhereGates(pc);
  }

  lemma NoTicks(t: Timer)
    ensures Ticks(t, 0) == []
  {
  }

  lemma LogGoesOn(cfg: Config, pc: nat)
    ensures LogAt(cfg, pc + 1) == LogAt(cfg, pc) + Emits(cfg, Program(pc))
  {
  }

  /** A wait adds nothing itself: its ticks did, and once there are three of them they are all. */
  lemma WaitLogs(cfg: Config, t: Timer)
    ensures LogAt(cfg, CheckAt(t) + 1) == LogAt(cfg, CheckAt(t))
    ensures LogAt(cfg, CheckAt(t) + 2) == LogAt(cfg, CheckAt(t)) + Ticks(t, 3)
  {
    hide Program, LogAt, Ticks;
    var c := CheckAt(t);
    WhereWaits(c);
    WhereWaits(c + 1);
    LogGoesOn(cfg, c);
    LogGoesOn(cfg, c + 1);
    assert Program(c) == Check(t) && Program(c + 1) == Hlt(t);
    assert LogAt(cfg, c) + [] == LogAt(cfg, c);
    assert LogAt(cfg, c + 1) == LogAt(cfg, c);
    assert Emits(cfg, Hlt(t)) == Ticks(t, 3);
    assert LogAt(cfg, c + 2) == LogAt(cfg, c + 1) + Emits(cfg, Program(c + 1));
  }

  lemma WaitMainLog(cfg: Config, t: Timer, pc: nat, o: Output)
    requires LogAsPlanned(cfg, pc, o) && InWait(t, pc)
    ensures var a := Program(pc); LogAsPlanned(cfg, PcAfter(a, pc, o), OutputAfter(cfg, a, o))
  {
    hide Program, Ticks, LogAt;
    var c := CheckAt(t);
    WhereWaits(pc);
    WaitLogs(cfg, t);
    NextPc(pc, o);
    assert Program(pc) == (if pc == c then Check(t) else Hlt(t));
    assert o.log == LogAt(cfg, c) + Ticks(t, AtMostThree(o.Count(t)));
    assert LogAt(cfg, c + 2) + [] == LogAt(cfg, c + 2);
    var a := Program(pc);
    assert OutputAfter(cfg, a, o) == o;
    if pc == c && o.Count(t) >= 3 {
      assert PcAfter(a, pc, o) == c + 2;
      assert TicksSoFar(c + 2, o) == [];
      assert LogAsPlanned(cfg, c + 2, o);
    } else if pc == c {
      assert PcAfter(a, pc, o) == c + 1;
      assert LogAsPlanned(cfg, c + 1, o);
    } else {
      assert PcAfter(a, pc, o) == c;
      assert LogAsPlanned(cfg, c, o);
    }
  }

  /** A statement adds to the log what belongs to it. */
  lemma MainLog(cfg: Config, pc: nat, o: Output)
    requires LogAsPlanned(cfg, pc, o) && pc <= END
    ensures var a := Program(pc); LogAsPlanned(cfg, PcAfter(a, pc, o), OutputAfter(cfg, a, o))
  {
    if InWait(Pit, pc) {
      WaitMainLog(cfg, Pit, pc, o);
    } else if InWait(Lapic, pc) {
      WaitMainLog(cfg, Lapic, pc, o);
    } else {
      hide Program, Ticks, LogAt, LogAsPlanned, Emits;
      PlainMainLog(cfg, pc, o);
    }
  }

  lemma PlainMainLog(cfg: Config, pc: nat, o: Output)
    requires LogAsPlanned(cfg, pc, o) && pc <= END && !InWait(Pit, pc) && !InWait(Lapic, pc)
    ensures var a := Program(pc); LogAsPlanned(cfg, PcAfter(a, pc, o), OutputAfter(cfg, a, o))
  {
    hide Program, Ticks, LogAt;
    WhereWaits(pc);
    WhereCounters(pc);
    WhereInterruptFlag(pc);
    LogGoesOn(cfg, pc);
    NoTicks(Pit);
    NoTicks(Lapic);
    assert o.log + [] == o.log && LogAt(cfg, pc) + [] == LogAt(cfg, pc);
  }

  lemma SetUpBounds(s: Machine)
    requires SetUp(s.cpu, s.dev)
    ensures s.cpu.pc <= END && !s.cpu.crashed
  {
  }

  lemma MainKeeps(cfg: Config, s: Machine, steps: nat)
    requires Inv(cfg, s, steps) && !s.cpu.idle
    ensures Inv(cfg, Act(cfg, Program(s.cpu.pc), s), steps + 1)
  {
    hide Program, SetUp, GatesSet, LogAsPlanned, IdtAfter, DevicesAfter, Faults, PcAfter;
    SetUpBounds(s);
    MainSetUp(cfg, s);
    MainGates(cfg, s.cpu.pc, s.out, s.idt, s.idtLoaded);
    MainLog(cfg, s.cpu.pc, s.out);
  }

  // ---------- So do the timers ----------

  /**
   Interrupts find their gates: what can be delivered comes in its own wait or just behind it, and
   has a usable gate to its stub.
   */
  lemma DeliverableHasGate(cfg: Config, s: Machine, steps: nat, t: Timer)
    requires Inv(cfg, s, steps) && CanDeliver(t, s)
    ensures CheckAt(t) <= s.cpu.pc <= CheckAt(t) + 2 && Enters(cfg, s, VectorOf(t, s.dev), IsrOf(t))
    ensures s.idt[VectorOf(t, s.dev)].typeAttr == 0x8E
  {
    hide LogAsPlanned, GateTo, Gate.Target, Gate.Usable, Enters;
    if t == Pit {
      SetGateEnters(cfg, s, 32, PitIsr, INTERRUPT);
      GateDecodes(cfg.pit, cfg.cs, INTERRUPT);
    } else {
      SetGateEnters(cfg, s, 34, LapicIsr, INTERRUPT);
      GateDecodes(cfg.lapic, cfg.cs, INTERRUPT);
    }
  }

  lemma AppendTwice(a: seq<Event>, b: seq<Event>, c: seq<Event>)
    ensures a + (b + c) == (a + b) + c
  {
  }

  lemma OneMoreTick(t: Timer, n: nat)
    ensures Ticks(t, n + 1) == Ticks(t, n) + [Tick(t, n + 1)]
  {
  }

  /** A tick in or just behind its wait keeps the log on plan: ticks 1 to 3 are reported once, later ones are silent. */
  lemma TickLog(cfg: Config, t: Timer, pc: nat, o: Output)
    requires LogAsPlanned(cfg, pc, o) && CheckAt(t) <= pc <= CheckAt(t) + 2 && o.Count(t) + 1 < WORD_LIMIT
    ensures LogAsPlanned(cfg, pc, Dispatch(t, o))
  {
    hide LogAt, Ticks, Tick;
    var n := o.Count(t);
    OneMoreTick(t, n);
    if n < 3 {
      AppendTwice(LogAt(cfg, pc), Ticks(t, n), [Tick(t, n + 1)]);
    }
  }

  lemma DeliverKeeps(cfg: Config, s: Machine, steps: nat, t: Timer)
    requires Inv(cfg, s, steps) && CanDeliver(t, s) && steps + 1 < WORD_LIMIT
    ensures Inv(cfg, Deliver(cfg, t, s), steps + 1)
    ensures Deliver(cfg, t, s).cpu == s.cpu.(idle := false) && Deliver(cfg, t, s).out.Count(t) == s.out.Count(t) + 1
    ensures forall t' :: Pending(t', Deliver(cfg, t, s).dev) <==> t' != t && Pending(t', s.dev)
  {
    hide GatesSet, LogAsPlanned, Enters, Tick;
    DeliverableHasGate(cfg, s, steps, t);
    TickLog(cfg, t, s.cpu.pc, s.out);
  }

  lemma RaiseKeeps(cfg: Config, s: Machine, steps: nat, t: Timer)
    requires Inv(cfg, s, steps) && CanRaise(t, s.dev)
    ensures Inv(cfg, s.(dev := WithPending(t, s.dev, true)), steps + 1)
  {
    hide GatesSet, LogAsPlanned;
  }

  lemma StepKeeps(cfg: Config, c: Choice, s: Machine, steps: nat)
    requires Inv(cfg, s, steps) && steps + 1 < WORD_LIMIT
    ensures Inv(cfg, Step(cfg, c, s), steps + 1)
  {
    hide Program, SetUp, GatesSet, LogAsPlanned, Act, Deliver, CanDeliver, CanRaise, WithPending;
    match c
    case Main =>
      if !s.cpu.idle {
        MainKeeps(cfg, s, steps);
      }
    case Raises(t) =>
      if CanRaise(t, s.dev) {
        RaiseKeeps(cfg, s, steps, t);
      }
    case Delivers(t) =>
      if CanDeliver(t, s) {
        DeliverKeeps(cfg, s, steps, t);
      }
  }

  lemma {:induction false} RunKeeps(cfg: Config, s: Machine, steps: nat, schedule: seq<Choice>)
    requires Inv(cfg, s, steps) && steps + |schedule| < WORD_LIMIT
    ensures Inv(cfg, Run(cfg, s, schedule), steps + |schedule|)
  {
    hide Step, Inv;
    if schedule != [] {
      var n := |schedule| - 1;
      RunKeeps(cfg, s, steps, schedule[..n]);
      StepKeeps(cfg, schedule[n], Run(cfg, s, schedule[..n]), steps + n);
    }
  }

  lemma InitialInv(cfg: Config, s: Machine)
    requires Initial(s)
    ensures Inv(cfg, s, 0)
  {
    assert LogAt(cfg, 0) == [];
  }

  // ---------- Whole runs ----------

  /** Over every schedule, no interrupt is delivered without its gate, and no trap goes wrong. */
  lemma InterruptsHaveGates(cfg: Config, s: Machine, schedule: seq<Choice>)
    requires Initial(s) && |schedule| < WORD_LIMIT
    ensures var u := Run(cfg, s, schedule);
            && !u.cpu.crashed
            && forall t :: CanDeliver(t, u) ==>
                 Enters(cfg, u, VectorOf(t, u.dev), IsrOf(t)) && u.idt[VectorOf(t, u.dev)].typeAttr == 0x8E
  {
    hide Run, Enters, SetUp, GatesSet, LogAsPlanned, CanDeliver, Initial;
    InitialInv(cfg, s);
    RunKeeps(cfg, s, 0, schedule);
    var u := Run(cfg, s, schedule);
    SetUpBounds(u);
    forall t | CanDeliver(t, u)
      ensures Enters(cfg, u, VectorOf(t, u.dev), IsrOf(t)) && u.idt[VectorOf(t, u.dev)].typeAttr == 0x8E
    {
      DeliverableHasGate(cfg, u, |schedule|, t);
    }
  }

  /** Over every schedule the whole table is as planned: four gates, each from its statement on, and 252 empty ones. */
  lemma TableThroughout(cfg: Config, s: Machine, schedule: seq<Choice>)
    requires Initial(s) && |schedule| < WORD_LIMIT
    ensures var u := Run(cfg, s, schedule);
            u.cpu.pc > 0 ==> forall v | 0 <= v < 256 :: u.idt[v] == GateAt(cfg, u.cpu.pc, v)
  {
    hide Run, SetUp, LogAsPlanned, Initial, GateAt;
    InitialInv(cfg, s);
    RunKeeps(cfg, s, 0, schedule);
  }

  /** A delivery takes the line of its timer down and leaves that of the other one, over every schedule. */
  lemma DeliveryTakesLineDown(cfg: Config, s: Machine, schedule: seq<Choice>, t: Timer)
    requires Initial(s) && |schedule| + 1 < WORD_LIMIT && CanDeliver(t, Run(cfg, s, schedule))
    ensures var u, v := Run(cfg, s, schedule), Step(cfg, Delivers(t), Run(cfg, s, schedule));
            && !v.cpu.idle && v.cpu.pc == u.cpu.pc && v.out.Count(t) == u.out.Count(t) + 1
            && forall t' :: Pending(t', v.dev) <==> t' != t && Pending(t', u.dev)
  {
    hide Run, SetUp, GatesSet, LogAsPlanned, Initial, Deliver, CanDeliver, Pending;
    InitialInv(cfg, s);
    RunKeeps(cfg, s, 0, schedule);
    SetUpBounds(Run(cfg, s, schedule));
    DeliverKeeps(cfg, Run(cfg, s, schedule), |schedule|, t);
  }

  lemma {:induction false} LogsGrow(cfg: Config, pc: nat, pc': nat)
    requires pc <= pc'
    ensures LogAt(cfg, pc) <= LogAt(cfg, pc')
  {
    hide Program, Emits;
    if pc < pc' {
      LogsGrow(cfg, pc, pc' - 1);
    }
  }

  /** During a wait the log is a prefix of what it is after it. */
  lemma WaitLog(cfg: Config, t: Timer, pc: nat, o: Output)
    requires InWait(t, pc) && LogAsPlanned(cfg, pc, o)
    ensures o.log <= LogAt(cfg, CheckAt(t) + 2)
  {
    hide LogAt, Ticks;
    WaitLogs(cfg, t);
    FirstTicks(t, AtMostThree(o.Count(t)));
  }

  lemma FirstTicks(t: Timer, n: nat)
    requires n <= 3
    ensures Ticks(t, n) <= Ticks(t, 3)
  {
  }

  lemma PlanIsPrefix(cfg: Config, pc: nat, o: Output)
    requires LogAsPlanned(cfg, pc, o) && pc <= END
    ensures o.log <= LogAt(cfg, END) && (pc == END ==> o.log == LogAt(cfg, END))
  {
    hide LogAt, Ticks;
    if t :| InWait(t, pc) {
      WaitLog(cfg, t, pc, o);
      LogsGrow(cfg, CheckAt(t) + 2, END);
    } else {
      assert TicksSoFar(pc, o) == [];
      LogsGrow(cfg, pc, END);
    }
  }

  /**
   The log does not depend on timing: over every interleaving of statements and timer events it is a
   prefix of one fixed log, and it is that log once the main line is through.
   */
  lemma LogIndependentOfTiming(cfg: Config, s: Machine, schedule: seq<Choice>)
    requires Initial(s) && |schedule| < WORD_LIMIT
    ensures var t := Run(cfg, s, schedule);
            t.out.log <= LogAt(cfg, END) && (t.cpu.pc == END ==> t.out.log == LogAt(cfg, END))
  {
    hide Run, LogAt, SetUp, GatesSet, LogAsPlanned, Initial;
    InitialInv(cfg, s);
    RunKeeps(cfg, s, 0, schedule);
    var u := Run(cfg, s, schedule);
    SetUpBounds(u);
    PlanIsPrefix(cfg, u.cpu.pc, u.out);
  }

  /** The events of `k` statements from `from` on. */
  function LogOf(cfg: Config, from: nat, k: nat): seq<Event>
    decreases k
  {
    if k == 0 then [] else Emits(cfg, Program(from)) + LogOf(cfg, from + 1, k - 1)
  }

  lemma {:induction false} LogSplits(cfg: Config, from: nat, k: nat)
    ensures LogAt(cfg, from + k) == LogAt(cfg, from) + LogOf(cfg, from, k)
    decreases k
  {
    hide Program, Emits;
    if k > 0 {
      LogSplits(cfg, from + 1, k - 1);
      var e, rest := Emits(cfg, Program(from)), LogOf(cfg, from + 1, k - 1);
      assert LogAt(cfg, from) + (e + rest) == (LogAt(cfg, from) + e) + rest;
    }
  }

  const STAGE2_LOG: seq<Event> := [Installed2, Int3Marker2, Dispatch2, Done2]
  const STAGE3_LOG: seq<Event> := [Begin3, PicOk3, PitOk3, Sti3, Irq3(1), Irq3(2), Irq3(3), Done3]
  const STAGE4_LOG: seq<Event> :=
    [Begin4, PicMasked4, LapicMmio4, Svr4, TimerArm4, Sti4, Irq4(1), Irq4(2), Irq4(3), Done4]

  /** A probe that is mapped raises nothing. */
  function Stage5Log(probeMapped: bool): seq<Event> {
    [Begin5, Gate5, Probe5] + (if probeMapped then [] else [Dispatch5, Cr2Ok5]) + [Done5]
  }

  lemma Stage2Emits(cfg: Config)
    ensures LogOf(cfg, 0, 7) == STAGE2_LOG
  {
  }

  lemma Stage3Begins(cfg: Config)
    ensures LogOf(cfg, 7, 9) == [Begin3, PicOk3, PitOk3, Sti3]
  {
  }

  lemma Stage3Ends(cfg: Config)
    ensures LogOf(cfg, 16, 4) == Ticks(Pit, 3) + [Done3]
  {
    hide Ticks;
  }

  lemma ThreeTicks(t: Timer)
    ensures Ticks(t, 3) == [Tick(t, 1), Tick(t, 2), Tick(t, 3)]
  {
  }

  lemma Stage3Emits(cfg: Config)
    ensures LogOf(cfg, 7, 9) + LogOf(cfg, 16, 4) == STAGE3_LOG
  {
    hide LogOf, Ticks;
    Stage3Begins(cfg);
    Stage3Ends(cfg);
    ThreeTicks(Pit);
  }

  lemma Stage4Begins(cfg: Config)
    ensures LogOf(cfg, 20, 5) == [Begin4, PicMasked4, LapicMmio4]
  {
  }

  lemma Stage4Arms(cfg: Config)
    ensures LogOf(cfg, 25, 5) == [Svr4, TimerArm4]
  {
  }

  lemma Stage4Opens(cfg: Config)
    ensures LogOf(cfg, 30, 4) == [Sti4]
  {
  }

  lemma Stage4Ends(cfg: Config)
    ensures LogOf(cfg, 34, 5) == Ticks(Lapic, 3) + [Done4]
  {
    hide Ticks;
  }

  lemma Stage4Emits(cfg: Config)
    ensures LogOf(cfg, 20, 5) + LogOf(cfg, 25, 5) + LogOf(cfg, 30, 4) + LogOf(cfg, 34, 5) == STAGE4_LOG
  {
    hide LogOf, Ticks;
    Stage4Begins(cfg);
    Stage4Arms(cfg);
    Stage4Opens(cfg);
    Stage4Ends(cfg);
    ThreeTicks(Lapic);
  }

  lemma Stage5Begins(cfg: Config)
    ensures LogOf(cfg, 39, 5) == [Begin5, Gate5, Probe5]
  {
  }

  lemma Stage5Ends(cfg: Config)
    ensures LogOf(cfg, 44, 2) == (if cfg.probeMapped then [] else [Dispatch5, Cr2Ok5]) + [Done5]
  {
  }

  lemma EmptyLog(cfg: Config)
    ensures LogAt(cfg, 0) == []
  {
  }

  /**
   The log of stages 2 to 5 in full: each tick once, before its stage is done, and the fault if the
   probe is not mapped.
   */
  lemma ExpectedLog(cfg: Config)
    ensures LogAt(cfg, END) == STAGE2_LOG + STAGE3_LOG + STAGE4_LOG + Stage5Log(cfg.probeMapped)
  {
    hide LogOf, LogAt;
    EmptyLog(cfg);
    LogSplits(cfg, 0, 7);
    LogSplits(cfg, 7, 9);
    LogSplits(cfg, 16, 4);
    Stage2Emits(cfg);
    Stage3Emits(cfg);
    assert LogAt(cfg, 20) == STAGE2_LOG + STAGE3_LOG;
    LogSplits(cfg, 20, 5);
    LogSplits(cfg, 25, 5);
    LogSplits(cfg, 30, 4);
    LogSplits(cfg, 34, 5);
    Stage4Emits(cfg);
    assert LogAt(cfg, 39) == STAGE2_LOG + STAGE3_LOG + STAGE4_LOG;
    LogSplits(cfg, 39, 5);
    LogSplits(cfg, 44, 2);
    Stage5Begins(cfg);
    Stage5Ends(cfg);
  }
}
