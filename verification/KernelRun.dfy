/** The kernel from its entry to the end of stage 5: what stage 1 builds decides what the later stages log. */
module KernelRun {
  import opened AddressSpace
  import opened BringUp
  import opened FirmwareMap
  import opened Bytes
  import opened ByteMemory
  import opened Idt
  import opened KernelImage
  import opened Loader
  import opened PageTableBuilder
  import opened PageTables
  import opened Stage1
  import opened Words
  import opened Wrappers

  /** The link offsets of the four stubs in the image. */
  datatype Offsets = Offsets(breakpoint: Word, pit: Word, lapic: Word, fault: Word)

  /** `kLinear`: where a link offset lies once the image is loaded at `kernelPhys`. */
  function Linear(kernelPhys: Word, offset: Word): Word {
    (kernelPhys + offset) % WORD_LIMIT
  }

  /** The stubs at their linear addresses, and the probe as the page tables in memory have it. */
  function ConfigOf(m: seq<Word>, root: nat, kernelPhys: Word, at: Offsets, cs: Half): Config {
    Config(Linear(kernelPhys, at.breakpoint), Linear(kernelPhys, at.pit), Linear(kernelPhys, at.lapic),
           Linear(kernelPhys, at.fault), cs, Translate(m, root, PROBE_UNMAPPED).Some?)
  }

  /** The log of stages 2 to 5; the fault lines are there if the probe address is not mapped. */
  function FullLog(probeMapped: bool): seq<Event> {
    STAGE2_LOG + STAGE3_LOG + STAGE4_LOG + Stage5Log(probeMapped)
  }

  /** Each gate, once it is set, names the stub of its own vector in the loaded image, in the right code segment. */
  ghost predicate GatesLead(u: Machine, kernelPhys: Word, at: Offsets, cs: Half) {
    && (u.cpu.pc > 1 ==> LeadsTo(u.idt[3], kernelPhys + at.breakpoint, cs))
    && (u.cpu.pc > 11 ==> LeadsTo(u.idt[32], kernelPhys + at.pit, cs))
    && (u.cpu.pc > 29 ==> LeadsTo(u.idt[34], kernelPhys + at.lapic, cs))
    && (u.cpu.pc > 40 ==> LeadsTo(u.idt[14], kernelPhys + at.fault, cs))
  }

  predicate LeadsTo(g: Gate, address: nat, cs: Half) {
    g.Usable(cs) && g.Target() == address % 0x1_0000_0000_0000_0000
  }

  /** Over one schedule: the log is a prefix of `log`, it is `log` at the end, and nothing goes wrong on the way. */
  ghost predicate Follows(cfg: Config, s: Machine, schedule: seq<Choice>, log: seq<Event>) {
    var u := Run(cfg, s, schedule);
    !u.cpu.crashed && u.out.log <= log && (u.cpu.pc == END ==> u.out.log == log)
  }

  lemma RunFollows(cfg: Config, s: Machine, schedule: seq<Choice>)
    requires Initial(s) && |schedule| < WORD_LIMIT
    ensures Follows(cfg, s, schedule, FullLog(cfg.probeMapped))
  {
    hide Run, Initial, LogAt, Enters, CanDeliver, Stage5Log;
    InterruptsHaveGates(cfg, s, schedule);
    LogIndependentOfTiming(cfg, s, schedule);
    ExpectedLog(cfg);
  }

  lemma RunLeads(cfg: Config, s: Machine, schedule: seq<Choice>, kernelPhys: Word, at: Offsets)
    requires Initial(s) && |schedule| < WORD_LIMIT
    requires cfg.breakpoint == (kernelPhys + at.breakpoint) % WORD_LIMIT
    requires cfg.pit == (kernelPhys + at.pit) % WORD_LIMIT
    requires cfg.lapic == (kernelPhys + at.lapic) % WORD_LIMIT && cfg.fault == (kernelPhys + at.fault) % WORD_LIMIT
    ensures GatesLead(Run(cfg, s, schedule), kernelPhys, at, cfg.cs)
  {
    hide Run, Initial, GateTo, Gate.Target, Gate.Usable;
    TableThroughout(cfg, s, schedule);
    GateDecodes(cfg.breakpoint, cfg.cs, 0x8F);
    GateDecodes(cfg.pit, cfg.cs, 0x8E);
    GateDecodes(cfg.lapic, cfg.cs, 0x8E);
    GateDecodes(cfg.fault, cfg.cs, 0x8F);
  }

  /**
   Stage 1, and then every run of the later stages. If it comes through, each gate leads to its own
   stub at `kernelPhys` plus its link offset; the stage 5 probe raises its page fault exactly if the
   boot address space does not show 0xABC00000, and the log is fixed by that alone.
   */
  method RunKernel(mem: array<Word>, b: Boot, at: Offsets, cs: Half, ghost bufferPages: nat)
    returns (r: Outcome, ghost cfg: Config)
    requires mem.Length == MEM_WORDS && GoodArguments(b)
    requires HandedOver(b, bufferPages) && SoundMap(MapOf(mem[..], b), b, bufferPages) && EndKnown(MapOf(mem[..], b), b)
    modifies mem
    ensures b.kernelPages <= 24065 ==> r.Running?
    ensures r.Running? ==>
              && cfg.breakpoint == (b.kernelPhys + at.breakpoint) % 0x1_0000_0000_0000_0000
              && cfg.pit == (b.kernelPhys + at.pit) % 0x1_0000_0000_0000_0000
              && cfg.lapic == (b.kernelPhys + at.lapic) % 0x1_0000_0000_0000_0000
              && cfg.fault == (b.kernelPhys + at.fault) % 0x1_0000_0000_0000_0000
              && cfg.cs == cs && (cfg.probeMapped <==> Translate(mem[..], b.mmapPhys / 4096, 0xABC0_0000).Some?)
    ensures r.Running? ==>
              forall s, schedule | Initial(s) && |schedule| < WORD_LIMIT ::
                && Follows(cfg, s, schedule, FullLog(BootShows(b, 0xABC0_0000)))
                && GatesLead(Run(cfg, s, schedule), b.kernelPhys, at, cs)
  {
    hide HandedOver, SoundMap, EndKnown, MapOf, PoolOf, Needed, Serves, Translate, Intended, ChangedOnlyIn, Apart;
    hide Initial, Follows, GatesLead, FullLog, BootShows, StopsAt, Regions.AllTables;
    var root;
    ghost var tables;
    r, root, tables := KernelStage1(mem, b, bufferPages);
    cfg := ConfigOf(mem[..], root / 4096, b.kernelPhys, at, cs);
    if r.Running? {
      assert Translate(mem[..], root / 4096, PROBE_UNMAPPED) == BootMap(b, PROBE_UNMAPPED);
      forall s, schedule | Initial(s) && |schedule| < WORD_LIMIT
        ensures Follows(cfg, s, schedule, FullLog(BootShows(b, 0xABC0_0000)))
        ensures GatesLead(Run(cfg, s, schedule), b.kernelPhys, at, cs)
      {
        RunFollows(cfg, s, schedule);
        RunLeads(cfg, s, schedule, b.kernelPhys, at);
      }
    }
  }

  /** A stub that lies in a load segment is mapped where its gate points, without any wrap. */
  lemma StubMapped(m: seq<Word>, root: nat, kernelPhys: Word, elf: seq<Byte>, raw: seq<Byte>, i: nat, offset: Word,
                   g: Gate, cs: Half)
    requires ImageShown(m, root, kernelPhys, elf, raw) && InSegment(elf, i, offset)
    requires LeadsTo(g, kernelPhys + offset, cs)
    ensures g.Target() == kernelPhys + offset && Translate(m, root, g.Target()) == Some(Access(g.Target(), true))
    ensures ByteAt(m, g.Target()) == PaddedByte(raw, offset)
  {
    hide ByteAt, Translate, PaddedByte, InSegment, Gate.Target, Gate.Usable;
    assert ShowsByte(m, root, kernelPhys + offset, PaddedByte(raw, offset));
  }
}
