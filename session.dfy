/**
 * The interactive session: an optional world plus three settings, the
 * commands that act on them, and the `run` loop that evolves the world a
 * bounded number of times and may stop early once it is stable.
 */
module Session {
  import opened Grids
  import opened Rules
  import opened Stamps
  import opened Tokens
  import opened Engine

  /**
   * A command line after its words have been read. `Load` carries the
   * token stream of the named file, `Random` the draws of the random source.
   */
  datatype Command =
    | Exit                                        // "exit" or "quit"
    | Create(width: int, height: int)
    | Load(filename: string, tokens: seq<int>)
    | Save(filename: string)
    | Print(value: int)
    | Delay(ms: int)
    | Stability(value: int)
    | Run(generations: int)
    | SetCell(x: int, y: int, state: int)          // "set" with three numbers
    | SetCellAt(position: int, state: int)          // "set" with two numbers
    | GetCell(x: int, y: int)                     // "get" with two numbers
    | GetCellAt(position: int)                   // "get" with one number
    | Add(pattern: Pattern, x: int, y: int)       // "glider", "toad", "beacon", "methuselah"
    | Random(count: int, picks: seq<Pick>)
    | Help
    | Unknown
  {
    /** The commands that report "No world exists" when there is no world. */
    predicate NeedsWorld()
    {
      Save? || Run? || SetCell? || SetCellAt? || GetCell? || GetCellAt? || Add? || Random?
    }
  }

  /** What a command reports back, in place of the printed messages. */
  datatype Reply =
    | Done                                  // the command did what it names
    | NoWorld                               // "No world exists. Create or load a world first."
    | Rejected                              // an argument check failed
    | CellState(alive: bool)                // `get`
    | Written(tokens: seq<int>)             // `save`: what goes into the file
    | Simulated(generations: int, stable: bool) // `run`
    | HelpText
    | UnknownCommand

  /** The result of `runSimulation`: the final state, the number of `evolve` calls, the early-stop flag. */
  datatype Outcome = Outcome(state: State, generations: int, stable: bool)

  /**
   * The loop of `runSimulation` from iteration `done` on: evolve, then stop
   * if checking is on, at least three generations have run and the history
   * is stable; otherwise go on until `generations` iterations.
   */
  function RunFrom(s: State, width: int, height: int, generations: int, check: bool, done: nat): (r: Outcome)
    requires width > 0 && height > 0 && IsGrid(s.current, width, height) && |s.history| <= 3
    ensures IsGrid(r.state.current, width, height) && |r.state.history| <= 3
    decreases generations - done
  {
    if done >= generations then Outcome(s, done, false)
    else
      var t := Step(s, width, height);
      if check && done >= 2 && Stable(t.history) then Outcome(t, done + 1, true)
      else RunFrom(t, width, height, generations, check, done + 1)
  }

  /** `runSimulation(generations)` on the world's state, with the stability check on or off. */
  function Simulate(s: State, width: int, height: int, generations: int, check: bool): (r: Outcome)
    requires width > 0 && height > 0 && IsGrid(s.current, width, height) && |s.history| <= 3
    ensures IsGrid(r.state.current, width, height) && |r.state.history| <= 3
  {
    RunFrom(s, width, height, generations, check, 0)
  }

  /** `n` evolves are one evolve followed by `n - 1` more. */
  lemma StepsFirst(s: State, width: int, height: int, n: nat)
    requires width > 0 && height > 0 && IsGrid(s.current, width, height) && |s.history| <= 3 && n > 0
    ensures Steps(s, width, height, n) == Steps(Step(s, width, height), width, height, n - 1)
    ensures n == 1 ==> Steps(s, width, height, n) == Step(s, width, height)
  {
  }

  /**
   * The loop runs at most `generations` times, exactly that many unless it
   * stops early, and its final state is that many `evolve`s from the start.
   */
  lemma {:induction false} RunFromCount(s: State, width: int, height: int, generations: int, check: bool, done: nat)
    requires width > 0 && height > 0 && IsGrid(s.current, width, height) && |s.history| <= 3
    requires done <= generations
    ensures var r := RunFrom(s, width, height, generations, check, done);
            done <= r.generations <= generations &&
            (!r.stable ==> r.generations == generations) &&
            r.state == Steps(s, width, height, r.generations - done)
    decreases generations - done
  {
    var r := RunFrom(s, width, height, generations, check, done);
    if done < generations {
      var t := Step(s, width, height);
      if check && done >= 2 && Stable(t.history) {
        assert r == Outcome(t, done + 1, true);
        StepsFirst(s, width, height, 1);
      } else {
        assert r == RunFrom(t, width, height, generations, check, done + 1);
        RunFromCount(t, width, height, generations, check, done + 1);
        StepsFirst(s, width, height, r.generations - done);
      }
    }
  }

  /** An early stop happens only with the check on, after at least three generations, on a stable history. */
  lemma {:induction false} RunFromStopReason(s: State, width: int, height: int, generations: int, check: bool, done: nat)
    requires width > 0 && height > 0 && IsGrid(s.current, width, height) && |s.history| <= 3
    ensures var r := RunFrom(s, width, height, generations, check, done);
            r.stable ==> check && r.generations >= 3 && Stable(r.state.history)
    decreases generations - done
  {
    if done < generations {
      var t := Step(s, width, height);
      if !(check && done >= 2 && Stable(t.history)) {
        RunFromStopReason(t, width, height, generations, check, done + 1);
      }
    }
  }

  /** The loop does not run past a generation, from the third on, where the check would have fired. */
  lemma {:induction false} RunFromNoEarlierStop(s: State, width: int, height: int, generations: int, check: bool, done: nat)
    requires width > 0 && height > 0 && IsGrid(s.current, width, height) && |s.history| <= 3
    ensures var r := RunFrom(s, width, height, generations, check, done);
            forall j :: 0 < j < r.generations - done && done + j >= 3 ==>
              !(check && Stable(Steps(s, width, height, j).history))
    decreases generations - done
  {
    if done < generations {
      var t := Step(s, width, height);
      if !(check && done >= 2 && Stable(t.history)) {
        var r := RunFrom(t, width, height, generations, check, done + 1);
        assert RunFrom(s, width, height, generations, check, done) == r;
        RunFromNoEarlierStop(t, width, height, generations, check, done + 1);
        forall j | 0 < j < r.generations - done && done + j >= 3
          ensures !(check && Stable(Steps(s, width, height, j).history))
        {
          StepsFirst(s, width, height, j);
        }
      }
    }
  }

  /**
   * `runSimulation(n)` evolves at most `n` times, exactly `n` times unless it
   * stops early; an early stop needs the check on, three or more generations
   * and a stable history, and no earlier generation from the third on was stable.
   */
  lemma SimulateSpec(s: State, width: int, height: int, generations: int, check: bool)
    requires width > 0 && height > 0 && IsGrid(s.current, width, height) && |s.history| <= 3
    requires generations >= 0
    ensures var r := Simulate(s, width, height, generations, check);
            0 <= r.generations <= generations &&
            (!r.stable ==> r.generations == generations) &&
            r.state == Steps(s, width, height, r.generations) &&
            (r.stable ==> check && r.generations >= 3 && Stable(r.state.history)) &&
            forall j :: 3 <= j < r.generations ==> !(check && Stable(Steps(s, width, height, j).history))
  {
    RunFromCount(s, width, height, generations, check, 0);
    RunFromStopReason(s, width, height, generations, check, 0);
    RunFromNoEarlierStop(s, width, height, generations, check, 0);
  }

  /** With the check off the loop never stops early. */
  lemma UncheckedRunsAll(s: State, width: int, height: int, generations: int)
    requires width > 0 && height > 0 && IsGrid(s.current, width, height) && |s.history| <= 3
    requires generations >= 0
    ensures var r := Simulate(s, width, height, generations, false);
            !r.stable && r.generations == generations && r.state == Steps(s, width, height, generations)
  {
    SimulateSpec(s, width, height, generations, false);
  }

  /** `n` evolves of a state reached by evolution alone leave it so. */
  lemma {:induction false} StepsKeepEvolved(s: State, width: int, height: int, n: nat)
    requires width > 0 && height > 0 && Evolved(s, width, height)
    ensures Evolved(Steps(s, width, height, n), width, height)
    decreases n
  {
    if n > 0 {
      StepKeepsEvolved(s, width, height);
      StepsKeepEvolved(Step(s, width, height), width, height, n - 1);
    }
  }

  /** Three `remember`s leave exactly the three grids remembered. */
  lemma RememberThree(history: seq<Grid>, g1: Grid, g2: Grid, g3: Grid)
    requires |history| <= 3
    ensures Remember(Remember(Remember(history, g1), g2), g3) == [g1, g2, g3]
  {
    var h1 := Remember(history, g1);
    var h2 := Remember(h1, g2);
    assert h1[|h1| - 1] == g1;
    assert |h2| >= 2 && h2[|h2| - 2..] == [g1, g2];
  }

  /** Three generations, each the next of the one before, form a chained window. */
  lemma ChainedThree(g1: Grid, g2: Grid, g3: Grid, width: int, height: int)
    requires width > 0 && height > 0 && IsGrid(g1, width, height)
    requires g2 == NextGen(g1, width, height) && g3 == NextGen(g2, width, height)
    ensures Chained([g1, g2, g3], width, height)
  {
  }

  /**
   * Three evolves refill the window with three chained generations, whatever
   * `set`, the stampers or `random` did to the grid before.
   */
  lemma ThreeStepsEvolved(s: State, width: int, height: int)
    requires width > 0 && height > 0 && IsGrid(s.current, width, height) && |s.history| <= 3
    ensures Evolved(Steps(s, width, height, 3), width, height)
  {
    var s1 := Step(s, width, height);
    var s2 := Step(s1, width, height);
    var s3 := Step(s2, width, height);
    assert Steps(s, width, height, 3) == s3 by {
      StepsFirst(s, width, height, 3);
      StepsFirst(s1, width, height, 2);
      StepsFirst(s2, width, height, 1);
    }
    assert s3.history == [s1.current, s2.current, s3.current] by {
      RememberThree(s.history, s1.current, s2.current, s3.current);
    }
    ChainedThree(s1.current, s2.current, s3.current, width, height);
  }

  /**
   * Three evolves or more, from any grid and window, leave a window of
   * chained generations ending in the current grid.
   */
  lemma {:induction false} StepsEvolved(s: State, width: int, height: int, n: nat)
    requires width > 0 && height > 0 && IsGrid(s.current, width, height) && |s.history| <= 3
    requires n >= 3
    ensures Evolved(Steps(s, width, height, n), width, height)
    decreases n
  {
    if n == 3 {
      ThreeStepsEvolved(s, width, height);
    } else {
      StepsFirst(s, width, height, n);
      StepsEvolved(Step(s, width, height), width, height, n - 1);
    }
  }

  /**
   * An early stop means the final grid is a still life or a period-2
   * oscillator, from any world `run` accepts: the stop comes after three
   * evolves or more, which leave a window of chained generations.
   */
  lemma StopMeansPeriodic(s: State, width: int, height: int, generations: int, check: bool)
    requires width > 0 && height > 0 && IsGrid(s.current, width, height) && |s.history| <= 3
    requires generations >= 0
    ensures var r := Simulate(s, width, height, generations, check);
            r.stable ==> NextGen(NextGen(r.state.current, width, height), width, height) == r.state.current
  {
    SimulateSpec(s, width, height, generations, check);
    var r := Simulate(s, width, height, generations, check);
    if r.stable {
      StepsEvolved(s, width, height, r.generations);
      StableRepeats(r.state, width, height);
    }
  }

  /**
   * What a world-needing command does to the existing world `w` and replies:
   * dimensions kept; `save` and `get` only read; `set`, the stampers and
   * `random` change only the grid (not `next`, not the history); `run` evolves
   * as `Simulate` says and leaves `next` equal to the grid; failed argument
   * checks change nothing.
   */
  twostate predicate WorldEffect(w: GameOfLife, cmd: Command, reply: Reply, check: bool)
    requires old(w.Valid())
    reads w
  {
    w.width == old(w.width) && w.height == old(w.height) &&
    ((cmd.Save? || cmd.GetCell? || cmd.GetCellAt? ||
      (cmd.Run? && cmd.generations <= 0) || (cmd.Random? && cmd.count <= 0)) ==> unchanged(w)) &&
    (cmd.Save? ==>
       reply == if cmd.filename != [] then Written(Encode(old(w.width), old(w.height), old(w.current))) else Rejected) &&
    (cmd.GetCell? ==>
       reply == CellState(Get(old(w.current), old(w.width), old(w.height), cmd.x, cmd.y))) &&
    (cmd.GetCellAt? ==>
       reply == CellState(GetPos(old(w.current), old(w.width), old(w.height), cmd.position))) &&
    (cmd.SetCell? ==>
       w.current == SetAt(old(w.current), old(w.width), old(w.height), cmd.x, cmd.y, cmd.state != 0) &&
       w.history == old(w.history) && w.next == old(w.next)) &&
    (cmd.SetCellAt? ==>
       w.current == SetPos(old(w.current), old(w.width), old(w.height), cmd.position, cmd.state != 0) &&
       w.history == old(w.history) && w.next == old(w.next)) &&
    (cmd.Add? ==>
       w.current == Stamp(old(w.current), old(w.width), old(w.height), cmd.x, cmd.y, Cells(cmd.pattern)) &&
       w.history == old(w.history) && w.next == old(w.next)) &&
    (cmd.Random? && cmd.count > 0 ==>
       w.current == StampAll(old(w.current), old(w.width), old(w.height), cmd.picks) &&
       w.history == old(w.history) && w.next == old(w.next)) &&
    (cmd.Run? ==>
       if cmd.generations > 0 then
         var r := Simulate(old(w.Snapshot()), old(w.width), old(w.height), cmd.generations, check);
         w.Snapshot() == r.state && w.next == w.current && reply == Simulated(r.generations, r.stable)
       else reply == Rejected)
  }

  class CommandLine {
    var world: GameOfLife?
    var printEnabled: bool
    var delayTime: int
    var stabilityCheckEnabled: bool

    /** A world, when there is one, is well formed. */
    ghost predicate Valid()
      reads this, world
    {
      world != null ==> world.Valid()
    }

    /** `CommandLine()`: no world, printing on, 100 ms delay, stability check on. */
    constructor ()
      ensures Valid()
      ensures world == null && printEnabled && delayTime == 100 && stabilityCheckEnabled
    {
      world := null;
      printEnabled := true;
      delayTime := 100;
      stabilityCheckEnabled := true;
    }

    /**
     * `runSimulation(generations)`: evolve until `generations` iterations
     * have run or, with the check on, the history is stable after the third.
     */
    method RunSimulation(generations: int) returns (ran: int, stable: bool)
      requires Valid()
      modifies world
      ensures Valid()
      ensures world != null ==> world.width == old(world.width) && world.height == old(world.height)
      ensures world == null ==> ran == 0 && !stable
      ensures world != null && generations > 0 ==> world.next == world.current
      ensures world != null ==>
                Outcome(world.Snapshot(), ran, stable)
                == Simulate(old(world.Snapshot()), world.width, world.height, generations, stabilityCheckEnabled)
    {
      if world == null {
        return 0, false;
      }
      var w := world;
      var isStable := false;
      var i := 0;
      while i < generations && !isStable
        invariant w.Valid() && 0 <= i
        invariant w.width == old(w.width) && w.height == old(w.height)
        invariant i == 0 ==> !isStable
        invariant i > 0 ==> w.next == w.current
        invariant Simulate(old(w.Snapshot()), w.width, w.height, generations, stabilityCheckEnabled)
                  == if isStable then Outcome(w.Snapshot(), i, true)
                     else RunFrom(w.Snapshot(), w.width, w.height, generations, stabilityCheckEnabled, i)
        decreases generations - i
      {
        w.Evolve();
        if stabilityCheckEnabled && i >= 2 && w.IsStable() {
          isStable := true;
        }
        i := i + 1;
      }
      ran, stable := i, isStable;
    }

    /**
     * The branches of `processCommand` that act on an existing world: `save`,
     * `run`, `set`, `get`, the four stampers and `random`, each after its
     * argument check.
     */
    method WorldCommand(cmd: Command) returns (reply: Reply)
      requires Valid() && world != null && cmd.NeedsWorld()
      requires cmd.Random? && cmd.count > 0 ==>
                 |cmd.picks| == cmd.count && AnchorsInRange(cmd.picks, world.width, world.height)
      modifies world
      ensures Valid()
      ensures WorldEffect(world, cmd, reply, stabilityCheckEnabled)
    {
      reply := Done;
      if cmd.Save? {
        if cmd.filename != [] {
          var written := world.Save();
          reply := Written(written);
        } else {
          reply := Rejected;
        }
      } else if cmd.Run? {
        if cmd.generations <= 0 {
          return Rejected;
        }
        var ran, stable := RunSimulation(cmd.generations);
        reply := Simulated(ran, stable);
      } else if cmd.SetCell? {
        world.SetCell(cmd.x, cmd.y, cmd.state != 0);
      } else if cmd.SetCellAt? {
        world.SetCellAt(cmd.position, cmd.state != 0);
      } else if cmd.GetCell? {
        reply := CellState(world.GetCell(cmd.x, cmd.y));
      } else if cmd.GetCellAt? {
        reply := CellState(world.GetCellAt(cmd.position));
      } else if cmd.Add? {
        match cmd.pattern {
          case Glider => world.AddGlider(cmd.x, cmd.y);
          case Toad => world.AddToad(cmd.x, cmd.y);
          case Beacon => world.AddBeacon(cmd.x, cmd.y);
          case Methuselah => world.AddMethuselah(cmd.x, cmd.y);
        }
      } else {
        if cmd.count > 0 {
          world.AddRandomPatterns(cmd.count, cmd.picks);
        } else {
          reply := Rejected;
        }
      }
    }

    /**
     * `processCommand(input)`: returns false only for `exit`/`quit`; every
     * world-needing command is refused without a world; the argument checks
     * of `create`, `load`, `save`, `run` and `random` refuse and change nothing.
     */
    method ProcessCommand(cmd: Command) returns (more: bool, reply: Reply)
      requires Valid()
      requires cmd.Load? && cmd.filename != [] ==> Decode(cmd.tokens).Some?
      requires cmd.Random? && cmd.count > 0 && world != null ==>
                 |cmd.picks| == cmd.count && AnchorsInRange(cmd.picks, world.width, world.height)
      modifies this, world
      ensures Valid()
      ensures more <==> !cmd.Exit?
      // The settings change only through their own commands.
      ensures printEnabled == if cmd.Print? then cmd.value != 0 else old(printEnabled)
      ensures delayTime == if cmd.Delay? then cmd.ms else old(delayTime)
      ensures stabilityCheckEnabled == if cmd.Stability? then cmd.value != 0 else old(stabilityCheckEnabled)
      // Only `create` and `load` replace the world.
      ensures !(cmd.Create? || cmd.Load?) ==> world == old(world)
      ensures cmd.NeedsWorld() && old(world) == null ==> reply == NoWorld
      ensures cmd.Create? ==>
                if cmd.width > 0 && cmd.height > 0 then
                  fresh(world) && world.width == cmd.width && world.height == cmd.height &&
                  world.current == Dead(cmd.width, cmd.height) && world.next == world.current &&
                  world.history == [world.current]
                else world == old(world) && reply == Rejected
      ensures cmd.Load? ==>
                if cmd.filename != [] then
                  fresh(world) && world.width == cmd.tokens[0] && world.height == cmd.tokens[1] &&
                  world.current == Decode(cmd.tokens).value.cells &&
                  world.next == Dead(world.width, world.height) && world.history == [world.current]
                else world == old(world) && reply == Rejected
      ensures old(world) != null && cmd.NeedsWorld() ==> WorldEffect(old(world), cmd, reply, stabilityCheckEnabled)
      ensures old(world) != null &&
              !(cmd.NeedsWorld() || (cmd.Create? && cmd.width > 0 && cmd.height > 0) ||
                (cmd.Load? && cmd.filename != [])) ==>
                unchanged(old(world))
    {
      more, reply := true, Done;
      if cmd.Exit? {
        more := false;
      } else if cmd.Create? {
        if cmd.width > 0 && cmd.height > 0 {
          world := new GameOfLife(cmd.width, cmd.height);
        } else {
          reply := Rejected;
        }
      } else if cmd.Load? {
        if cmd.filename != [] {
          world := new GameOfLife.FromFile(cmd.tokens);
        } else {
          reply := Rejected;
        }
      } else if cmd.Print? {
        printEnabled := cmd.value != 0;
      } else if cmd.Delay? {
        delayTime := cmd.ms;
      } else if cmd.Stability? {
        stabilityCheckEnabled := cmd.value != 0;
      } else if cmd.NeedsWorld() {
        if world == null {
          return true, NoWorld;
        }
        reply := WorldCommand(cmd);
      } else if cmd.Help? {
        reply := HelpText;
      } else {
        reply := UnknownCommand;
      }
    }
  }
}
