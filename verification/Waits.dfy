/**
 Liveness of the two waits of the main line, over all schedules. A round of a schedule is fair if in
 it each timer raises its line, its interrupt can be delivered after that, and the main line moves on
 after that, with anything in between. Three ticks get a wait done; a fourth one is needed exactly if
 the third came between the check of the count and the `hlt`.
 */
module Waits {
  import opened BringUp
  import opened Idt
  import opened Words

  // ---------- How much is left to do ----------

  /** The fair rounds that a wait still takes. */
  function Rounds(count: nat, atHlt: bool): nat {
    if count < 3 then 4 - count else if atHlt then 2 else 1
  }

  function RoundsLeft(t: Timer, s: Machine): nat {
    Rounds(s.out.Count(t), s.cpu.pc == CheckAt(t) + 1)
  }

  /** The statements still to come, each worth five, and the rounds of a wait in progress. */
  function Rank(s: Machine): nat {
    var pc := s.cpu.pc;
    if InWait(Pit, pc) then 140 + RoundsLeft(Pit, s)
    else if InWait(Lapic, pc) then 50 + RoundsLeft(Lapic, s)
    else if pc <= END then 5 * (END - pc)
    else 0
  }

  /** The rank tells which wait the main line is in, and the statement outside of the waits. */
  lemma RankTells(s: Machine, u: Machine)
    requires Rank(s) == Rank(u) && s.cpu.pc <= END && u.cpu.pc <= END
    ensures forall t :: InWait(t, s.cpu.pc) <==> InWait(t, u.cpu.pc)
    ensures (forall t :: !InWait(t, s.cpu.pc)) ==> u.cpu.pc == s.cpu.pc
  {
  }

  /** No more than what is behind the wait of `t` is left exactly if the main line is past that wait. */
  lemma RankPast(t: Timer, s: Machine)
    requires s.cpu.pc <= END
    ensures s.cpu.pc >= CheckAt(t) + 2 <==> Rank(s) <= (if t == Pit then 140 else 50)
    ensures Rank(s) <= 5 * END && (Rank(s) == 0 <==> s.cpu.pc == END)
  {
  }

  lemma Bounds(cfg: Config, s: Machine, steps: nat)
    requires Inv(cfg, s, steps)
    ensures s.cpu.pc <= END && !s.cpu.crashed
    ensures s.cpu.idle ==> exists t :: s.cpu.pc == CheckAt(t)
  {
    hide GatesSet, LogAsPlanned;
    if s.cpu.idle {
      assert s.cpu.pc == CheckAt(Pit) || s.cpu.pc == CheckAt(Lapic);
    }
  }

  // ---------- One step ----------

  /** A statement of the main line in a wait. */
  lemma MainInWait(cfg: Config, s: Machine, steps: nat, t: Timer)
    requires Inv(cfg, s, steps) && InWait(t, s.cpu.pc) && !s.cpu.idle
    ensures var u := Step(cfg, Main, s);
            && u.out == s.out && u.dev == s.dev
            && (if s.cpu.pc == CheckAt(t) + 1 then u.cpu.pc == CheckAt(t) && u.cpu.idle
                else if s.out.Count(t) < 3 then u.cpu.pc == CheckAt(t) + 1 && !u.cpu.idle
                else u.cpu.pc == CheckAt(t) + 2)
  {
    hide Program, SetUp, GatesSet, LogAsPlanned, Faults, PcAfter, IdtAfter;
    SetUpBounds(s);
    WhereWaits(s.cpu.pc);
    NextPc(s.cpu.pc, s.out);
  }

  /** A statement of the main line elsewhere: one statement less to come. */
  lemma MainElsewhere(cfg: Config, s: Machine, steps: nat)
    requires Inv(cfg, s, steps) && s.cpu.pc < END && forall t :: !InWait(t, s.cpu.pc)
    ensures Step(cfg, Main, s).cpu.pc == s.cpu.pc + 1 && Rank(Step(cfg, Main, s)) < Rank(s)
  {
    hide Program, SetUp, GatesSet, LogAsPlanned, Faults, PcAfter, IdtAfter, DevicesAfter, OutputAfter;
    Bounds(cfg, s, steps);
    assert !InWait(Pit, s.cpu.pc) && !InWait(Lapic, s.cpu.pc);
    NextPc(s.cpu.pc, s.out);
  }

  /** A timer moves nothing in the main line, and its counts only grow. */
  lemma TimerStep(cfg: Config, c: Choice, s: Machine, steps: nat)
    requires Inv(cfg, s, steps) && steps + 1 < WORD_LIMIT && c != Main
    ensures var u := Step(cfg, c, s);
            && u.cpu.pc == s.cpu.pc && (u.cpu.idle ==> s.cpu.idle)
            && (forall t :: u.out.Count(t) == s.out.Count(t) || (u.out.Count(t) == s.out.Count(t) + 1 && !u.cpu.idle))
            && (forall t :: InWait(t, s.cpu.pc) && u.out.Count(t) == s.out.Count(t) ==> u.cpu.idle == s.cpu.idle)
            && (forall t :: c != Delivers(t) ==> (Pending(t, s.dev) ==> Pending(t, u.dev)))
  {
    hide SetUp, GatesSet, LogAsPlanned, Enters, Tick;
    Bounds(cfg, s, steps);
    if t :| c == Delivers(t) {
      if CanDeliver(t, s) {
        DeliverKeeps(cfg, s, steps, t);
        DeliverableHasGate(cfg, s, steps, t);
      }
    }
  }

  lemma StepRank(cfg: Config, c: Choice, s: Machine, steps: nat)
    requires Inv(cfg, s, steps) && steps + 1 < WORD_LIMIT
    ensures Rank(Step(cfg, c, s)) <= Rank(s)
  {
    hide Inv, Step;
    Bounds(cfg, s, steps);
    if c != Main {
      TimerStep(cfg, c, s, steps);
    } else if s.cpu.idle {
      assert Step(cfg, Main, s) == s by { IdleStays(cfg, s); }
    } else if t :| InWait(t, s.cpu.pc) {
      MainInWait(cfg, s, steps, t);
    } else if s.cpu.pc < END {
      MainElsewhere(cfg, s, steps);
    } else {
      AtEnd(cfg, s, steps);
    }
  }

  lemma IdleStays(cfg: Config, s: Machine)
    requires s.cpu.idle
    ensures Step(cfg, Main, s) == s
  {
  }

  lemma AtEnd(cfg: Config, s: Machine, steps: nat)
    requires Inv(cfg, s, steps) && s.cpu.pc == END
    ensures Step(cfg, Main, s).cpu.pc == END
  {
    hide Program, SetUp, GatesSet, LogAsPlanned, Faults, IdtAfter, DevicesAfter, OutputAfter;
    WhereWaits(END);
  }

  // ---------- Within a wait ----------

  /** A tick beyond the first `n` was counted, and nobody went to sleep over a count that is complete. */
  predicate Ticked(t: Timer, s: Machine, n: nat) {
    && InWait(t, s.cpu.pc) && s.out.Count(t) > n
    && (s.out.Count(t) >= 3 && s.cpu.pc == CheckAt(t) ==> !s.cpu.idle)
  }

  /** Such a tick was counted, or is about to be. */
  predicate Ready(t: Timer, s: Machine, n: nat) {
    InWait(t, s.cpu.pc) && s.out.Count(t) >= n && (Pending(t, s.dev) || Ticked(t, s, n))
  }

  lemma RaiseReadies(cfg: Config, s: Machine, steps: nat, t: Timer)
    requires Inv(cfg, s, steps) && InWait(t, s.cpu.pc)
    ensures Ready(t, Step(cfg, Raises(t), s), s.out.Count(t))
  {
    hide GatesSet, LogAsPlanned;
  }

  lemma DeliverTicks(cfg: Config, s: Machine, steps: nat, t: Timer, n: nat)
    requires Inv(cfg, s, steps) && steps + 1 < WORD_LIMIT && Ready(t, s, n)
    ensures Ticked(t, Step(cfg, Delivers(t), s), n)
  {
    hide GatesSet, LogAsPlanned, Enters, Deliver;
    if CanDeliver(t, s) {
      DeliverKeeps(cfg, s, steps, t);
    }
  }

  /** As long as the rank stays, so does readiness. */
  lemma ReadyStep(cfg: Config, c: Choice, s: Machine, steps: nat, t: Timer, n: nat)
    requires Inv(cfg, s, steps) && steps + 1 < WORD_LIMIT && Rank(Step(cfg, c, s)) == Rank(s)
    ensures Ticked(t, s, n) ==> Ticked(t, Step(cfg, c, s), n)
    ensures Ready(t, s, n) ==> Ready(t, Step(cfg, c, s), n)
  {
    hide Inv, Step, Pending;
    if InWait(t, s.cpu.pc) {
      if c == Main {
        if s.cpu.idle {
          IdleStays(cfg, s);
        } else {
          MainInWait(cfg, s, steps, t);
        }
      } else {
        TimerStep(cfg, c, s, steps);
        if c == Delivers(t) && Ready(t, s, n) {
          DeliverTicks(cfg, s, steps, t, n);
        }
      }
    }
  }

  /** With the tick counted and the rank as it was before it, the next statement gets on. */
  lemma LastMain(cfg: Config, s: Machine, u: Machine, steps: nat, t: Timer)
    requires Inv(cfg, u, steps) && s.cpu.pc <= END && InWait(t, s.cpu.pc) && Rank(u) == Rank(s)
    requires Ticked(t, u, s.out.Count(t))
    ensures Rank(Step(cfg, Main, u)) < Rank(u)
  {
    hide Inv, Step;
    Bounds(cfg, u, steps);
    assert u.out.Count(t) >= 3;
    assert !u.cpu.idle;
    MainInWait(cfg, u, steps, t);
  }

  // ---------- Stretches of a schedule ----------

  lemma {:induction false} RunAppend(cfg: Config, s: Machine, first: seq<Choice>, second: seq<Choice>)
    ensures Run(cfg, s, first + second) == Run(cfg, Run(cfg, s, first), second)
  {
    hide Step;
    if second == [] {
      assert first + second == first;
    } else {
      var n := |second| - 1;
      assert (first + second)[..|first + second| - 1] == first + second[..n];
      RunAppend(cfg, s, first, second[..n]);
    }
  }

  lemma RunOne(cfg: Config, s: Machine, c: Choice)
    ensures Run(cfg, s, [c]) == Step(cfg, c, s)
  {
    hide Step;
    assert [c][..0] == [];
  }

  lemma {:induction false} RankFalls(cfg: Config, s: Machine, steps: nat, schedule: seq<Choice>)
    requires Inv(cfg, s, steps) && steps + |schedule| < WORD_LIMIT
    ensures Rank(Run(cfg, s, schedule)) <= Rank(s) && Run(cfg, s, schedule).cpu.pc <= END
  {
    hide Inv, Step, Rank;
    RunKeeps(cfg, s, steps, schedule);
    Bounds(cfg, Run(cfg, s, schedule), steps + |schedule|);
    if schedule != [] {
      var n := |schedule| - 1;
      RankFalls(cfg, s, steps, schedule[..n]);
      RunKeeps(cfg, s, steps, schedule[..n]);
      StepRank(cfg, schedule[n], Run(cfg, s, schedule[..n]), steps + n);
    }
  }

  lemma {:induction false} StaysReady(cfg: Config, s: Machine, steps: nat, schedule: seq<Choice>, t: Timer, n: nat)
    requires Inv(cfg, s, steps) && steps + |schedule| < WORD_LIMIT && Rank(Run(cfg, s, schedule)) == Rank(s)
    ensures Ticked(t, s, n) ==> Ticked(t, Run(cfg, s, schedule), n)
    ensures Ready(t, s, n) ==> Ready(t, Run(cfg, s, schedule), n)
  {
    hide Inv, Step, Rank, Ticked, Ready;
    if schedule != [] {
      var k := |schedule| - 1;
      var u := Run(cfg, s, schedule[..k]);
      RunKeeps(cfg, s, steps, schedule[..k]);
      RankFalls(cfg, s, steps, schedule[..k]);
      StepRank(cfg, schedule[k], u, steps + k);
      StaysReady(cfg, s, steps, schedule[..k], t, n);
      ReadyStep(cfg, schedule[k], u, steps + k, t, n);
    }
  }

  // ---------- Fair rounds ----------

  /** A stretch in which timer `t` raises its line, later it may be delivered, and later the main line moves. */
  function Stretch(t: Timer, a: seq<Choice>, b: seq<Choice>, c: seq<Choice>, d: seq<Choice>): seq<Choice> {
    (a + [Raises(t)]) + (b + [Delivers(t)]) + (c + [Main]) + d
  }

  ghost predicate FairFor(t: Timer, round: seq<Choice>) {
    exists a, b, c, d :: round == Stretch(t, a, b, c, d)
  }

  ghost predicate Fair(round: seq<Choice>) {
    forall t :: FairFor(t, round)
  }

  /** A leg of a stretch: some choices, then one. */
  lemma Leg(cfg: Config, s: Machine, steps: nat, leg: seq<Choice>, c: Choice) returns (u: Machine, v: Machine)
    requires Inv(cfg, s, steps) && steps + |leg| + 1 < WORD_LIMIT
    ensures u == Run(cfg, s, leg) && v == Step(cfg, c, u) && v == Run(cfg, s, leg + [c])
    ensures Inv(cfg, u, steps + |leg|) && Inv(cfg, v, steps + |leg| + 1) && Rank(v) <= Rank(u) <= Rank(s)
  {
    hide Inv, Step, Rank;
    u := Run(cfg, s, leg);
    v := Step(cfg, c, u);
    RunKeeps(cfg, s, steps, leg);
    RankFalls(cfg, s, steps, leg);
    StepKeeps(cfg, c, u, steps + |leg|);
    StepRank(cfg, c, u, steps + |leg|);
    RunAppend(cfg, s, leg, [c]);
    RunOne(cfg, u, c);
  }

  /** In the wait of its timer, a fair stretch gets on. */
  lemma StretchGetsOn(cfg: Config, s: Machine, steps: nat, t: Timer, a: seq<Choice>, b: seq<Choice>, c: seq<Choice>,
      d: seq<Choice>)
    requires Inv(cfg, s, steps) && InWait(t, s.cpu.pc) && steps + |Stretch(t, a, b, c, d)| < WORD_LIMIT
    ensures Rank(Run(cfg, s, Stretch(t, a, b, c, d))) < Rank(s)
  {
    hide Inv, Step, Rank, Run, Ticked, Ready;
    Bounds(cfg, s, steps);
    var s1, s2 := Leg(cfg, s, steps, a, Raises(t));
    var n2 := steps + |a| + 1;
    var s3, s4 := Leg(cfg, s2, n2, b, Delivers(t));
    var n4 := n2 + |b| + 1;
    var s5, s6 := Leg(cfg, s4, n4, c, Main);
    var n6 := n4 + |c| + 1;
    RankFalls(cfg, s6, n6, d);
    RunAppend(cfg, s, a + [Raises(t)], b + [Delivers(t)]);
    RunAppend(cfg, s, (a + [Raises(t)]) + (b + [Delivers(t)]), c + [Main]);
    RunAppend(cfg, s, (a + [Raises(t)]) + (b + [Delivers(t)]) + (c + [Main]), d);
    if Rank(s5) == Rank(s) {
      Bounds(cfg, s1, steps + |a|);
      RankTells(s, s1);
      RaiseReadies(cfg, s1, steps + |a|, t);
      StaysReady(cfg, s2, n2, b, t, s1.out.Count(t));
      DeliverTicks(cfg, s3, n2 + |b|, t, s1.out.Count(t));
      StaysReady(cfg, s4, n4, c, t, s1.out.Count(t));
      LastMain(cfg, s1, s5, n4 + |c|, t);
    }
  }

  /** Outside the waits any statement gets on. */
  lemma MainGetsOn(cfg: Config, s: Machine, steps: nat, a: seq<Choice>, d: seq<Choice>)
    requires Inv(cfg, s, steps) && s.cpu.pc < END && steps + |(a + [Main]) + d| < WORD_LIMIT
    requires forall t :: !InWait(t, s.cpu.pc)
    ensures Rank(Run(cfg, s, (a + [Main]) + d)) < Rank(s)
  {
    hide Inv, Step, Rank, Run;
    Bounds(cfg, s, steps);
    var u, v := Leg(cfg, s, steps, a, Main);
    RankFalls(cfg, v, steps + |a| + 1, d);
    RunAppend(cfg, s, a + [Main], d);
    if Rank(u) == Rank(s) {
      Bounds(cfg, u, steps + |a|);
      RankTells(s, u);
      MainElsewhere(cfg, u, steps + |a|);
    }
  }

  /** Every fair round gets on, wherever the main line is. */
  lemma RoundGetsOn(cfg: Config, s: Machine, steps: nat, round: seq<Choice>)
    requires Inv(cfg, s, steps) && s.cpu.pc < END && Fair(round) && steps + |round| < WORD_LIMIT
    ensures Rank(Run(cfg, s, round)) < Rank(s)
  {
    hide Inv, Rank, Run, Stretch;
    var t := if InWait(Lapic, s.cpu.pc) then Lapic else Pit;
    assert FairFor(t, round);
    var a, b, c, d :| round == Stretch(t, a, b, c, d);
    if InWait(t, s.cpu.pc) {
      StretchGetsOn(cfg, s, steps, t, a, b, c, d);
    } else {
      assert forall t' :: !InWait(t', s.cpu.pc) by { NeitherWait(s.cpu.pc); }
      var front := (a + [Raises(t)]) + (b + [Delivers(t)]) + c;
      assert round == (front + [Main]) + d by { MainInStretch(t, a, b, c, d); }
      MainGetsOn(cfg, s, steps, front, d);
    }
  }

  lemma NeitherWait(pc: nat)
    requires !InWait(Pit, pc) && !InWait(Lapic, pc)
    ensures forall t :: !InWait(t, pc)
  {
  }

  lemma MainInStretch(t: Timer, a: seq<Choice>, b: seq<Choice>, c: seq<Choice>, d: seq<Choice>)
    ensures Stretch(t, a, b, c, d) == (((a + [Raises(t)]) + (b + [Delivers(t)]) + c) + [Main]) + d
  {
    var front := (a + [Raises(t)]) + (b + [Delivers(t)]);
    assert front + (c + [Main]) == (front + c) + [Main];
  }

  // ---------- All schedules ----------

  function Flatten(rounds: seq<seq<Choice>>): seq<Choice> {
    if rounds == [] then [] else Flatten(rounds[..|rounds| - 1]) + rounds[|rounds| - 1]
  }

  /** Each fair round takes at least one off the rank, until nothing is left. */
  lemma {:induction false} RoundsGetOn(cfg: Config, s: Machine, steps: nat, rounds: seq<seq<Choice>>)
    requires Inv(cfg, s, steps) && steps + |Flatten(rounds)| < WORD_LIMIT
    requires forall i | 0 <= i < |rounds| :: Fair(rounds[i])
    ensures var u := Run(cfg, s, Flatten(rounds)); Rank(u) == 0 || Rank(u) + |rounds| <= Rank(s)
  {
    hide Inv, Rank, Run, Fair;
    if rounds == [] {
      RunNothing(cfg, s);
    } else {
      var n := |rounds| - 1;
      var first, last := Flatten(rounds[..n]), rounds[n];
      RoundsGetOn(cfg, s, steps, rounds[..n]);
      RunKeeps(cfg, s, steps, first);
      var u := Run(cfg, s, first);
      RunAppend(cfg, s, first, last);
      Bounds(cfg, u, steps + |first|);
      RankFalls(cfg, u, steps + |first|, last);
      if u.cpu.pc < END {
        RoundGetsOn(cfg, u, steps + |first|, last);
      } else {
        RankPast(Pit, u);
      }
    }
  }

  lemma RunNothing(cfg: Config, s: Machine)
    ensures Run(cfg, s, []) == s
  {
  }

  /** Every run with enough fair rounds finishes, whatever happened before and in between, with the whole log. */
  lemma EveryFairRunFinishes(cfg: Config, s: Machine, past: seq<Choice>, rounds: seq<seq<Choice>>)
    requires Initial(s) && |past| + |Flatten(rounds)| < WORD_LIMIT
    requires (forall i | 0 <= i < |rounds| :: Fair(rounds[i])) && |rounds| >= 5 * END
    ensures var u := Run(cfg, s, past + Flatten(rounds)); u.cpu.pc == END && u.out.log == LogAt(cfg, END)
  {
    hide Inv, Rank, Run, Fair, Initial, Flatten, LogAt;
    InitialInv(cfg, s);
    RunKeeps(cfg, s, 0, past);
    var v := Run(cfg, s, past);
    Bounds(cfg, v, |past|);
    RankPast(Pit, v);
    RoundsGetOn(cfg, v, |past|, rounds);
    RunAppend(cfg, s, past, Flatten(rounds));
    var u := Run(cfg, s, past + Flatten(rounds));
    RunKeeps(cfg, s, 0, past + Flatten(rounds));
    Bounds(cfg, u, |past + Flatten(rounds)|);
    RankPast(Pit, u);
    LogIndependentOfTiming(cfg, s, past + Flatten(rounds));
  }

  /**
   A wait is passed after as many fair rounds as it lacks ticks and one more, over every schedule:
   at most four from its start, one if the count is complete, and two if it became complete between
   the check and the `hlt`.
   */
  lemma WaitPasses(cfg: Config, s: Machine, steps: nat, t: Timer, rounds: seq<seq<Choice>>)
    requires Inv(cfg, s, steps) && InWait(t, s.cpu.pc) && steps + |Flatten(rounds)| < WORD_LIMIT
    requires (forall i | 0 <= i < |rounds| :: Fair(rounds[i])) && |rounds| >= RoundsLeft(t, s)
    ensures Run(cfg, s, Flatten(rounds)).cpu.pc >= CheckAt(t) + 2
  {
    hide Inv, Run, Fair, Flatten;
    RoundsGetOn(cfg, s, steps, rounds);
    var u := Run(cfg, s, Flatten(rounds));
    RunKeeps(cfg, s, steps, Flatten(rounds));
    Bounds(cfg, u, steps + |Flatten(rounds)|);
    RankPast(t, u);
  }

  // ---------- The count is complete ----------

  /** Past a wait there is no way back into it. */
  lemma {:induction false} StaysPast(cfg: Config, s: Machine, steps: nat, t: Timer, schedule: seq<Choice>)
    requires Inv(cfg, s, steps) && s.cpu.pc >= CheckAt(t) + 2 && steps + |schedule| < WORD_LIMIT
    ensures Run(cfg, s, schedule).cpu.pc >= CheckAt(t) + 2
  {
    hide Inv, Run;
    Bounds(cfg, s, steps);
    RankPast(t, s);
    RankFalls(cfg, s, steps, schedule);
    RankPast(t, Run(cfg, s, schedule));
  }

  /** Awake at the check with three ticks counted: the wait is passed exactly by the next statement of the main line. */
  lemma {:induction false} AwakePasses(cfg: Config, s: Machine, steps: nat, t: Timer, schedule: seq<Choice>)
    requires Inv(cfg, s, steps) && steps + |schedule| < WORD_LIMIT
    requires s.cpu.pc == CheckAt(t) && !s.cpu.idle && s.out.Count(t) >= 3
    ensures var u := Run(cfg, s, schedule);
            if Main in schedule then u.cpu.pc >= CheckAt(t) + 2
            else u.cpu.pc == CheckAt(t) && !u.cpu.idle && u.out.Count(t) >= 3
  {
    hide Inv, Step;
    if schedule != [] {
      var k := |schedule| - 1;
      var u := Run(cfg, s, schedule[..k]);
      AwakePasses(cfg, s, steps, t, schedule[..k]);
      RunKeeps(cfg, s, steps, schedule[..k]);
      assert schedule == schedule[..k] + [schedule[k]];
      if Main in schedule[..k] {
        StaysPast(cfg, u, steps + k, t, [schedule[k]]);
        RunOne(cfg, u, schedule[k]);
      } else if schedule[k] == Main {
        MainInWait(cfg, u, steps + k, t);
      } else {
        TimerStep(cfg, schedule[k], u, steps + k);
      }
    }
  }

  /** Asleep at the check, or about to be. */
  predicate Sleeps(t: Timer, s: Machine) {
    s.cpu.pc == CheckAt(t) + 1 || (s.cpu.pc == CheckAt(t) && s.cpu.idle)
  }

  /** Further ticks came, or there was none and the processor sleeps. */
  predicate NoTickAsleep(t: Timer, s: Machine, n: nat) {
    s.cpu.pc >= CheckAt(t) && (s.out.Count(t) > n || (s.out.Count(t) == n && Sleeps(t, s)))
  }

  lemma CountStays(cfg: Config, s: Machine, steps: nat, t: Timer)
    requires Inv(cfg, s, steps) && s.cpu.pc >= CheckAt(t)
    ensures Step(cfg, Main, s).out.Count(t) == s.out.Count(t)
  {
    hide Program, SetUp, GatesSet, LogAsPlanned, Faults, PcAfter, IdtAfter, DevicesAfter;
    WhereCounters(s.cpu.pc);
  }

  lemma SleepStep(cfg: Config, c: Choice, s: Machine, steps: nat, t: Timer, n: nat)
    requires Inv(cfg, s, steps) && steps + 1 < WORD_LIMIT && n >= 3 && NoTickAsleep(t, s, n)
    ensures NoTickAsleep(t, Step(cfg, c, s), n)
  {
    hide Inv, Step;
    Bounds(cfg, s, steps);
    if c != Main {
      TimerStep(cfg, c, s, steps);
    } else if s.cpu.idle {
      IdleStays(cfg, s);
    } else {
      CountStays(cfg, s, steps, t);
      if InWait(t, s.cpu.pc) {
        MainInWait(cfg, s, steps, t);
      } else {
        RankPast(t, s);
        StepRank(cfg, Main, s, steps);
        StepKeeps(cfg, Main, s, steps);
        Bounds(cfg, Step(cfg, Main, s), steps + 1);
        RankPast(t, Step(cfg, Main, s));
      }
    }
  }

  /**
   If the third tick came between the check and the `hlt`, nothing but a further tick ends the sleep:
   over every schedule, the wait is passed only after the count has grown again.
   */
  lemma {:induction false} LostWakeUpSleeps(cfg: Config, s: Machine, steps: nat, t: Timer, schedule: seq<Choice>)
    requires Inv(cfg, s, steps) && steps + |schedule| < WORD_LIMIT && Sleeps(t, s) && s.out.Count(t) >= 3
    ensures var u := Run(cfg, s, schedule);
            u.out.Count(t) > s.out.Count(t) || (u.out.Count(t) == s.out.Count(t) && Sleeps(t, u))
    ensures NoTickAsleep(t, Run(cfg, s, schedule), s.out.Count(t))
  {
    hide Inv, Step, Sleeps;
    if schedule == [] {
      SleepsInWait(t, s);
    } else {
      var k := |schedule| - 1;
      LostWakeUpSleeps(cfg, s, steps, t, schedule[..k]);
      RunKeeps(cfg, s, steps, schedule[..k]);
      SleepStep(cfg, schedule[k], Run(cfg, s, schedule[..k]), steps + k, t, s.out.Count(t));
    }
  }

  lemma SleepsInWait(t: Timer, s: Machine)
    requires Sleeps(t, s)
    ensures s.cpu.pc >= CheckAt(t)
  {
  }

  // ---------- Reachable states ----------

  /** In its wait, a tick of the timer raises the count by one and wakes the processor. */
  lemma TickCounts(cfg: Config, s: Machine, steps: nat, t: Timer) returns (u: Machine)
    requires Inv(cfg, s, steps) && steps + 2 < WORD_LIMIT && InWait(t, s.cpu.pc)
    ensures u == Run(cfg, s, [Raises(t)] + [Delivers(t)]) && Inv(cfg, u, steps + 2)
    ensures u.cpu.pc == s.cpu.pc && !u.cpu.idle && u.out.Count(t) == s.out.Count(t) + 1
  {
    hide GatesSet, LogAsPlanned, Enters, Run, Deliver;
    var v := Step(cfg, Raises(t), s);
    StepKeeps(cfg, Raises(t), s, steps);
    u := Step(cfg, Delivers(t), v);
    StepKeeps(cfg, Delivers(t), v, steps + 1);
    DeliverKeeps(cfg, v, steps + 1, t);
    RunOne(cfg, s, Raises(t));
    RunAppend(cfg, s, [Raises(t)], [Delivers(t)]);
    RunOne(cfg, v, Delivers(t));
  }

  /** The main line gets from any statement outside the waits to the next one, or to a wait. */
  lemma {:induction false} Reaches(cfg: Config, s: Machine, steps: nat, target: nat) returns (u: Machine,
      schedule: seq<Choice>)
    requires Inv(cfg, s, steps) && s.cpu.pc <= target <= END && steps + (target - s.cpu.pc) < WORD_LIMIT
    requires forall pc | s.cpu.pc <= pc < target :: !InWait(Pit, pc) && !InWait(Lapic, pc)
    ensures u == Run(cfg, s, schedule) && |schedule| == target - s.cpu.pc
    ensures Inv(cfg, u, steps + |schedule|) && u.cpu.pc == target
    decreases target - s.cpu.pc
  {
    hide Inv, Step, Run;
    if s.cpu.pc == target {
      u, schedule := s, [];
      RunNothing(cfg, s);
    } else {
      var v := Step(cfg, Main, s);
      NeitherWait(s.cpu.pc);
      MainElsewhere(cfg, s, steps);
      StepKeeps(cfg, Main, s, steps);
      RunOne(cfg, s, Main);
      var rest;
      u, rest := Reaches(cfg, v, steps + 1, target);
      schedule := [Main] + rest;
      RunAppend(cfg, s, [Main], rest);
    }
  }

  /** From the beginning the main line reaches the first check, awake and with no tick counted. */
  lemma ReachesFirstCheck(cfg: Config, s: Machine) returns (u: Machine, schedule: seq<Choice>)
    requires Initial(s)
    ensures u == Run(cfg, s, schedule) && |schedule| == 16 && Inv(cfg, u, 16)
    ensures u.cpu.pc == CheckAt(Pit) && !u.cpu.idle && u.out.pitCount == 0
  {
    hide Inv, Step, Run, Initial;
    InitialInv(cfg, s);
    StartsAtZero(s);
    var v, first := Reaches(cfg, s, 0, 15);
    BeforeFirstCheck(cfg, v, 15);
    u := Step(cfg, Main, v);
    StepKeeps(cfg, Main, v, 15);
    schedule := first + [Main];
    RunAppend(cfg, s, first, [Main]);
    RunOne(cfg, v, Main);
  }

  lemma StartsAtZero(s: Machine)
    requires Initial(s)
    ensures s.cpu.pc == 0
  {
  }

  lemma BeforeFirstCheck(cfg: Config, s: Machine, steps: nat)
    requires Inv(cfg, s, steps) && s.cpu.pc == 15
    ensures var u := Step(cfg, Main, s); u.cpu.pc == 16 && !u.cpu.idle && u.out.pitCount == 0
  {
    hide Program, GatesSet, LogAt, Faults, IdtAfter, DevicesAfter;
    assert 15 == CheckAt(Pit) - 1 && s.out.Count(Pit) == 0;
    WhereInterruptFlag(15);
  }

  /** Three ticks and one statement get past the wait from there. */
  lemma ThreeTicksPass(cfg: Config, s: Machine, steps: nat, t: Timer) returns (u: Machine, schedule: seq<Choice>)
    requires Inv(cfg, s, steps) && s.cpu.pc == CheckAt(t) && steps + 7 < WORD_LIMIT
    ensures u == Run(cfg, s, schedule) && |schedule| == 7 && Inv(cfg, u, steps + 7) && u.cpu.pc == CheckAt(t) + 2
  {
    hide Inv, Step, Run;
    var tick := [Raises(t)] + [Delivers(t)];
    var a := TickCounts(cfg, s, steps, t);
    var b := TickCounts(cfg, a, steps + 2, t);
    var c := TickCounts(cfg, b, steps + 4, t);
    MainInWait(cfg, c, steps + 6, t);
    StepKeeps(cfg, Main, c, steps + 6);
    u := Step(cfg, Main, c);
    schedule := tick + tick + tick + [Main];
    RunAppend(cfg, s, tick, tick);
    RunAppend(cfg, s, tick + tick, tick);
    RunAppend(cfg, s, tick + tick + tick, [Main]);
    RunOne(cfg, c, Main);
  }

  /**
   The lost wake-up is reachable: with the third tick between the check and the `hlt`, the processor
   sleeps although three ticks are counted.
   */
  lemma LostWakeUp(cfg: Config, s: Machine) returns (u: Machine, schedule: seq<Choice>)
    requires Initial(s)
    ensures u == Run(cfg, s, schedule) && u.cpu.pc == CheckAt(Pit) && u.cpu.idle && u.out.pitCount == 3
  {
    hide Inv, Step, Run, Initial;
    var tick := [Raises(Pit)] + [Delivers(Pit)];
    var v, first := ReachesFirstCheck(cfg, s);
    var a := TickCounts(cfg, v, 16, Pit);
    var b := TickCounts(cfg, a, 18, Pit);
    MainInWait(cfg, b, 20, Pit);
    StepKeeps(cfg, Main, b, 20);
    var c := Step(cfg, Main, b);
    var d := TickCounts(cfg, c, 21, Pit);
    MainInWait(cfg, d, 23, Pit);
    u := Step(cfg, Main, d);
    schedule := first + tick + tick + [Main] + tick + [Main];
    RunAppend(cfg, s, first, tick);
    RunAppend(cfg, s, first + tick, tick);
    RunAppend(cfg, s, first + tick + tick, [Main]);
    RunOne(cfg, b, Main);
    RunAppend(cfg, s, first + tick + tick + [Main], tick);
    RunAppend(cfg, s, first + tick + tick + [Main] + tick, [Main]);
    RunOne(cfg, d, Main);
  }

  lemma GateStillEmpty(cfg: Config, s: Machine, steps: nat)
    requires Inv(cfg, s, steps) && s.cpu.pc == 28
    ensures var u := Step(cfg, Raises(Lapic), s);
            u.dev.lapicPending && u.idt[34] == Gate(0, 0, 0, 0, 0, 0, 0) && !u.cpu.interrupts
  {
    hide LogAsPlanned;
  }

  /**
   The APIC timer can be waiting for service while its gate is still empty; only the closed
   interrupt flag covers that.
   */
  lemma ArmedBeforeGate(cfg: Config, s: Machine) returns (u: Machine, schedule: seq<Choice>)
    requires Initial(s)
    ensures u == Run(cfg, s, schedule) && u.dev.lapicPending
    ensures u.idt[34] == Gate(0, 0, 0, 0, 0, 0, 0) && !u.cpu.interrupts
  {
    hide Inv, Step, Run, Initial;
    var a, first := ReachesFirstCheck(cfg, s);
    var b, second := ThreeTicksPass(cfg, a, 16, Pit);
    var c, third := Reaches(cfg, b, 23, 28);
    GateStillEmpty(cfg, c, 23 + |third|);
    u := Step(cfg, Raises(Lapic), c);
    schedule := first + second + third + [Raises(Lapic)];
    RunAppend(cfg, s, first, second);
    RunAppend(cfg, s, first + second, third);
    RunAppend(cfg, s, first + second + third, [Raises(Lapic)]);
    RunOne(cfg, c, Raises(Lapic));
  }
}
