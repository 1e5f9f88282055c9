/**
 * One turn of the read loop of main (sish.c:47-94) as a value: the history ring and the
 * pipe counter before the line, the line, and what the turn does. Processes, pipes and the
 * working directory are not modelled; what the shell asks of them is returned as a list
 * of effects, in the order the shell issues them.
 */
module Interpreter {
  import opened Options
  import opened History
  import opened Builtins
  import opened Tokenizer
  import opened Pipeline

  /** The messages perror prints for a built-in that cannot run. */
  datatype Failure =
    | CdTooManyArgs       // "too many arguments for cd"
    | CdNeedsArg          // "cd requires an argument"
    | HistoryTooManyArgs  // "too many arguments for history"
    | OffsetOutOfBound    // "offset out of bound"
    | NotValidHistoryArg  // "not a valid argument for history"

  /** What the shell asks of the system, in order. */
  datatype Effect =
    | Exit                           // shellExit: free the ring and exit
    | Fork(child: Child)             // fork a child wired as described, which calls execvp
    | ChangeDir(dir: string)         // chdir(dir)
    | Printed(entries: seq<Entry>)   // the lines `history` prints
    | Report(failure: Failure)       // perror
    | CloseParentPipes(count: nat)   // the parent closes both ends of fd[0..count-1]
    | Reap                           // wait until no child is left
    | NullCommand                    // execute called with args[0] == NULL: strcmp(NULL, ...)
    | ReplayTooDeep                  // replays nested beyond the fuel (the C stack)

  /** The globals that survive from one line to the next: the history ring and pipeCount
      (argCount and args[0] are back to 0 and NULL at the start of every line). */
  datatype State = State(ring: Ring, pipeCount: nat)

  datatype Outcome = Outcome(state: State, effects: seq<Effect>)

  /** One fork request per child, in order. */
  function Forks(children: seq<Child>): seq<Effect>
  {
    seq(|children|, i requires 0 <= i < |children| => Fork(children[i]))
  }

  /** Forking children requests nothing else: no exit, no null command. */
  lemma ForksOnlyFork(children: seq<Child>)
    ensures Exit !in Forks(children) && NullCommand !in Forks(children)
  {
  }

  /** execute (sish.c:172-221), with cd (sish.c:236-246) and executeHistory
      (sish.c:278-328), on the terminal stage args of the line str. str is "" when a replay
      runs the stored line (sish.c:321), so that nothing is stored twice. fuel bounds how
      deep replays may nest. */
  function Execute(st: State, args: seq<string>, str: string, fuel: nat): (o: Outcome)
    requires WellFormed(st.ring) && args != []
    ensures WellFormed(o.state.ring)
    decreases fuel, 2
  {
    var stored := st.(ring := Append(st.ring, str));
    match Classify(args)
    case CdTooMany => Outcome(st, [Report(CdTooManyArgs)])
    case CdMissing => Outcome(st, [Report(CdNeedsArg)])
    case Cd(dir) => Outcome(st, [ChangeDir(dir)])
    case HistoryTooMany => Outcome(stored, [Report(HistoryTooManyArgs)])
    case HistoryList => Outcome(stored, [Printed(Listing(stored.ring))])
    case HistoryClear => Outcome(stored.(ring := Cleared(stored.ring)), [])
    case HistoryReplay(offset) => Replay(st, args, offset, str, fuel)
    case HistoryInvalid => Outcome(stored, [Report(NotValidHistoryArg)])
    case External(argv) => Outcome(st, [Fork(LastChild(argv, st.pipeCount))])
  }

  /** `history <offset>` (sish.c:288-317), invoked with the tokens invocation: the offset
      is resolved before str is stored; an offset out of bound stores str and reports
      it. */
  function Replay(st: State, invocation: seq<string>, offset: nat, str: string, fuel: nat): (o: Outcome)
    requires WellFormed(st.ring)
    ensures WellFormed(o.state.ring)
    decreases fuel, 1
  {
    match Lookup(st.ring, offset)
    case None => Outcome(st.(ring := Append(st.ring, str)), [Report(OffsetOutOfBound)])
    case Some(line) => RunStored(st, Parse(line), invocation, str, fuel)
  }

  /** The replay of a resolved line, cut into its stages (sish.c:318-322): parsing it
      forks the non-terminal stages, then str is stored and the terminal stage executed
      with an empty str. args still holds the invocation's tokens when parseLine starts
      (only argCount is reset, sish.c:318), so a line with no piece at all runs the
      invocation again, and a line whose last piece has no token reaches execute with
      args[0] == NULL; the lemmas below show that no stored line is like either. */
  function RunStored(st: State, stages: seq<Stage>, invocation: seq<string>, str: string, fuel: nat): (o: Outcome)
    requires WellFormed(st.ring)
    ensures WellFormed(o.state.ring)
    decreases fuel, 0
  {
    var args := ArgsAfter(stages, invocation);
    var forks := Forks(Plan(stages, st.pipeCount));
    var piped := State(Append(st.ring, str), st.pipeCount + Pipes(stages));
    if args == [] then Outcome(piped, forks + [NullCommand])
    else if fuel == 0 then Outcome(piped, forks + [ReplayTooDeep])
    else
      var o := Execute(piped, args, "", fuel - 1);
      Outcome(o.state, forks + o.effects)
  }

  /** One turn of the read loop for a line already stripped of its newline: "exit" ends
      the shell; any other line is cut into stages and runs as a Turn. */
  function Step(st: State, line: string, fuel: nat): (o: Outcome)
    requires WellFormed(st.ring)
    ensures WellFormed(o.state.ring)
  {
    if line == "exit" then Outcome(st, [Exit]) else Turn(st, Parse(line), line, fuel)
  }

  /** The state execute starts from in main (sish.c:76-78): the line stored unless the
      terminal stage is a history command, which stores it itself. */
  function Recorded(piped: State, args: seq<string>, line: string): (st: State)
    requires WellFormed(piped.ring) && args != []
    ensures WellFormed(st.ring) && st.pipeCount == piped.pipeCount
  {
    if args[0] != "history" then piped.(ring := Append(piped.ring, line)) else piped
  }

  /** The rest of a turn, once parseLine has cut the line into stages: the non-terminal
      stages are forked; a line whose last piece has no token goes back to the prompt at
      once (sish.c:73-75), leaving pipeCount and the pipes as they are; any other line is
      stored unless its terminal stage is a `history` command, executed, and followed by
      closing the pipes, reaping the children and resetting pipeCount (sish.c:77-93). */
  function Turn(st: State, stages: seq<Stage>, line: string, fuel: nat): (o: Outcome)
    requires WellFormed(st.ring)
    ensures WellFormed(o.state.ring)
  {
    var args := Terminal(stages);
    var forks := Forks(Plan(stages, st.pipeCount));
    var piped := st.(pipeCount := st.pipeCount + Pipes(stages));
    if args == [] then Outcome(piped, forks)
    else
      var recorded := Recorded(piped, args, line);
      var o := Execute(recorded, args, line, fuel);
      Outcome(State(o.state.ring, 0), forks + o.effects + [CloseParentPipes(o.state.pipeCount), Reap])
  }

  // ---------------------------------------------------------------------------------
  // Stored lines are commands

  /** A line main stores: one that reached dispatch, so it is not "exit" and its terminal
      stage has a token. */
  predicate Recordable(line: string)
  {
    line != "exit" && IsCommand(line)
  }

  /** Every line the ring can still replay is one main stored. */
  ghost predicate Replayable(r: Ring)
  {
    WellFormed(r) && forall t | t in LiveSlots(r) :: Recordable(t)
  }

  lemma AppendKeepsReplayable(r: Ring, s: string)
    requires Replayable(r) && (s == "" || Recordable(s))
    ensures Replayable(Append(r, s))
  {
    AppendLiveSlots(r, s);
  }

  // ---------------------------------------------------------------------------------
  // Recording discipline

  /** "exit" is one word, so it never reaches dispatch as a `history` or `cd` command. */
  lemma ExitIsOneWord()
    ensures Parse("exit") == [["exit"]]
  {
    ParseWord("exit");
  }

  /** A line that reaches dispatch is not empty. */
  lemma CommandIsNotEmpty(line: string)
    requires IsCommand(line)
    ensures line != ""
  {
  }

  /** Whatever execute does, the ring ends up as str stored (when the terminal stage is a
      `history` command; execute stores nothing for cd and external commands), possibly
      cleared afterwards by a `history -c`, run directly or through replays. */
  lemma {:induction false} ExecuteStoresOnce(st: State, args: seq<string>, str: string, fuel: nat)
    requires WellFormed(st.ring) && args != []
    ensures var r := if args[0] == "history" then Append(st.ring, str) else st.ring;
      var ring' := Execute(st, args, str, fuel).state.ring;
      ring' == r || ring' == Cleared(r)
    decreases fuel, 2
  {
    match Classify(args)
    case HistoryReplay(offset) => ReplayStoresOnce(st, args, offset, str, fuel);
    case _ =>
  }

  /** A replay stores its invocation once, whatever it replays: the nested execute gets
      an empty str and stores nothing, though it may clear. */
  lemma {:induction false} ReplayStoresOnce(st: State, invocation: seq<string>, offset: nat, str: string, fuel: nat)
    requires WellFormed(st.ring)
    ensures var r := Append(st.ring, str);
      var ring' := Replay(st, invocation, offset, str, fuel).state.ring;
      ring' == r || ring' == Cleared(r)
    decreases fuel, 1
  {
    match Lookup(st.ring, offset)
    case None =>
    case Some(line) => RunStoredStoresOnce(st, Parse(line), invocation, str, fuel);
  }

  lemma {:induction false} RunStoredStoresOnce(st: State, stages: seq<Stage>, invocation: seq<string>,
                                               str: string, fuel: nat)
    requires WellFormed(st.ring)
    ensures var r := Append(st.ring, str);
      var ring' := RunStored(st, stages, invocation, str, fuel).state.ring;
      ring' == r || ring' == Cleared(r)
    decreases fuel, 0
  {
    var args := ArgsAfter(stages, invocation);
    if args != [] && fuel > 0 {
      var piped := State(Append(st.ring, str), st.pipeCount + Pipes(stages));
      ExecuteStoresOnce(piped, args, "", fuel - 1);
    }
  }

  /** A turn stores its line exactly once, and only when the line reaches dispatch: main
      stores it when its terminal stage is not a `history` command, executeHistory
      otherwise, which may then clear the ring. */
  lemma TurnStoresOnce(st: State, stages: seq<Stage>, line: string, fuel: nat)
    requires WellFormed(st.ring)
    ensures var args := Terminal(stages);
      var r := Append(st.ring, line);
      var ring' := Turn(st, stages, line, fuel).state.ring;
      if args == [] then ring' == st.ring
      else if args[0] != "history" then ring' == r
      else ring' == r || ring' == Cleared(r)
  {
    var args := Terminal(stages);
    if args != [] {
      var piped := st.(pipeCount := st.pipeCount + Pipes(stages));
      if args[0] != "history" {
        ExecuteStoresOnce(piped.(ring := Append(st.ring, line)), args, line, fuel);
      } else {
        ExecuteStoresOnce(piped, args, line, fuel);
      }
    }
  }

  /** The line of a turn is stored exactly once, and only when it reaches dispatch.
      Nothing else is ever stored. */
  lemma StoresLineOnce(st: State, line: string, fuel: nat)
    requires WellFormed(st.ring)
    ensures var ring' := Step(st, line, fuel).state.ring;
      if !Recordable(line) then ring' == st.ring
      else if Terminal(Parse(line))[0] != "history" then ring' == Append(st.ring, line)
      else ring' == Append(st.ring, line) || ring' == Cleared(Append(st.ring, line))
  {
    if line != "exit" {
      TurnStoresOnce(st, Parse(line), line, fuel);
    }
  }

  /** Every turn keeps the ring replayable: what it stores is a line that reached
      dispatch, and a clear either empties the ring or leaves it as it was. */
  lemma StepKeepsReplayable(st: State, line: string, fuel: nat)
    requires Replayable(st.ring)
    ensures Replayable(Step(st, line, fuel).state.ring)
  {
    StoresLineOnce(st, line, fuel);
    if Recordable(line) {
      AppendKeepsReplayable(st.ring, line);
    }
  }

  /** Under that invariant the nested execute of a replay never sees args[0] == NULL. */
  lemma {:induction false} ExecuteNeverNull(st: State, args: seq<string>, str: string, fuel: nat)
    requires Replayable(st.ring) && args != [] && (str == "" || Recordable(str))
    ensures NullCommand !in Execute(st, args, str, fuel).effects
    decreases fuel, 2
  {
    match Classify(args)
    case HistoryReplay(offset) => ReplayNeverNull(st, args, offset, str, fuel);
    case _ =>
  }

  lemma {:induction false} ReplayNeverNull(st: State, invocation: seq<string>, offset: nat, str: string, fuel: nat)
    requires Replayable(st.ring) && (str == "" || Recordable(str))
    ensures NullCommand !in Replay(st, invocation, offset, str, fuel).effects
    decreases fuel, 1
  {
    match Lookup(st.ring, offset)
    case None =>
    case Some(line) =>
      assert line in LiveSlots(st.ring);
      RunStoredNeverNull(st, Parse(line), invocation, str, fuel);
  }

  lemma {:induction false} RunStoredNeverNull(st: State, stages: seq<Stage>, invocation: seq<string>,
                                              str: string, fuel: nat)
    requires Replayable(st.ring) && Terminal(stages) != [] && (str == "" || Recordable(str))
    ensures NullCommand !in RunStored(st, stages, invocation, str, fuel).effects
    decreases fuel, 0
  {
    assert WellFormed(st.ring);
    var args := Terminal(stages);
    var forks := Forks(Plan(stages, st.pipeCount));
    ForksOnlyFork(Plan(stages, st.pipeCount));
    if fuel > 0 {
      var piped := State(Append(st.ring, str), st.pipeCount + Pipes(stages));
      assert Replayable(piped.ring) by {
        AppendKeepsReplayable(st.ring, str);
      }
      var o := Execute(piped, args, "", fuel - 1);
      assert NullCommand !in o.effects by {
        ExecuteNeverNull(piped, args, "", fuel - 1);
      }
      assert RunStored(st, stages, invocation, str, fuel).effects == forks + o.effects;
    } else {
      assert RunStored(st, stages, invocation, str, fuel).effects == forks + [ReplayTooDeep];
    }
  }

  lemma TurnNeverNull(st: State, stages: seq<Stage>, line: string, fuel: nat)
    requires Replayable(st.ring) && (Terminal(stages) == [] || Recordable(line))
    ensures NullCommand !in Turn(st, stages, line, fuel).effects
  {
    assert WellFormed(st.ring);
    var args := Terminal(stages);
    var forks := Forks(Plan(stages, st.pipeCount));
    ForksOnlyFork(Plan(stages, st.pipeCount));
    if args != [] {
      var recorded := Recorded(st.(pipeCount := st.pipeCount + Pipes(stages)), args, line);
      assert Replayable(recorded.ring) by {
        AppendKeepsReplayable(st.ring, line);
      }
      ExecuteNeverNull(recorded, args, line, fuel);
      TurnDispatches(st, stages, line, fuel);
    }
  }

  /** The effects of a turn that reaches dispatch, in terms of execute's. */
  lemma TurnDispatches(st: State, stages: seq<Stage>, line: string, fuel: nat)
    requires WellFormed(st.ring) && Terminal(stages) != []
    ensures var args := Terminal(stages);
      var o := Execute(Recorded(st.(pipeCount := st.pipeCount + Pipes(stages)), args, line), args, line, fuel);
      Turn(st, stages, line, fuel).effects ==
        Forks(Plan(stages, st.pipeCount)) + o.effects + [CloseParentPipes(o.state.pipeCount), Reap]
  {
  }

  /** No turn on a replayable ring ever calls execute with args[0] == NULL. */
  lemma StepNeverNull(st: State, line: string, fuel: nat)
    requires Replayable(st.ring)
    ensures NullCommand !in Step(st, line, fuel).effects
  {
    if line != "exit" {
      TurnNeverNull(st, Parse(line), line, fuel);
    }
  }

  /** In terms of the abstract history: a turn either leaves the log alone (a line that
      does not reach dispatch), appends its line, or, for a clear below 100 lines,
      empties it. */
  lemma StepKeepsLog(st: State, log: seq<string>, line: string, fuel: nat)
    requires Abstracts(st.ring, log)
    ensures var ring' := Step(st, line, fuel).state.ring;
      if !Recordable(line) then Abstracts(ring', log)
      else Abstracts(ring', log + [line]) || Abstracts(ring', [])
  {
    StoresLineOnce(st, line, fuel);
    if Recordable(line) {
      CommandIsNotEmpty(line);
      AppendExtendsLog(st.ring, log, line);
      ClearedForgets(Append(st.ring, line), log + [line]);
    }
  }

  // ---------------------------------------------------------------------------------
  // The history built-in

  /** A turn whose terminal stage is `history` alone stores the line first and then
      lists the ring with the line in it (sish.c:280-281). */
  lemma TurnListsHistory(st: State, stages: seq<Stage>, line: string, fuel: nat)
    requires WellFormed(st.ring) && Terminal(stages) == ["history"]
    ensures var r := Append(st.ring, line);
      Turn(st, stages, line, fuel) == Outcome(State(r, 0),
        Forks(Plan(stages, st.pipeCount)) +
        [Printed(Listing(r)), CloseParentPipes(st.pipeCount + Pipes(stages)), Reap])
  {
    var forks := Forks(Plan(stages, st.pipeCount));
    var r := Append(st.ring, line);
    var piped := State(st.ring, st.pipeCount + Pipes(stages));
    var o := Execute(piped, ["history"], line, fuel);
    assert o == Outcome(piped.(ring := r), [Printed(Listing(r))]);
    assert forks + o.effects + [CloseParentPipes(piped.pipeCount), Reap] ==
      forks + [Printed(Listing(r)), CloseParentPipes(piped.pipeCount), Reap];
  }

  /** `history` stores itself before it lists: the listing is that of the ring with the
      line already in it, and its last entry is the line itself. */
  lemma HistoryListsItself(st: State, line: string, fuel: nat)
    requires WellFormed(st.ring) && Terminal(Parse(line)) == ["history"]
    ensures var stages := Parse(line);
      var r := Append(st.ring, line);
      && Step(st, line, fuel) == Outcome(State(r, 0),
           Forks(Plan(stages, st.pipeCount)) +
           [Printed(Listing(r)), CloseParentPipes(st.pipeCount + Pipes(stages)), Reap])
      && Listing(r)[|Listing(r)| - 1].text == line
  {
    var stages := Parse(line);
    assert Step(st, line, fuel) == Turn(st, stages, line, fuel) by {
      ExitIsOneWord();
    }
    TurnListsHistory(st, stages, line, fuel);
    CommandIsNotEmpty(line);
    ListingEndsWithNewest(st.ring, line);
  }

  /** A turn whose terminal stage is `history -c` stores the line and clears the ring
      (sish.c:279-286); it prints nothing. */
  lemma TurnClearsHistory(st: State, stages: seq<Stage>, line: string, fuel: nat)
    requires WellFormed(st.ring) && Terminal(stages) == ["history", "-c"]
    ensures var pc := st.pipeCount + Pipes(stages);
      Turn(st, stages, line, fuel) == Outcome(State(Cleared(Append(st.ring, line)), 0),
        Forks(Plan(stages, st.pipeCount)) + [CloseParentPipes(pc), Reap])
  {
    var forks := Forks(Plan(stages, st.pipeCount));
    var piped := State(st.ring, st.pipeCount + Pipes(stages));
    var o := Execute(piped, ["history", "-c"], line, fuel);
    assert o == Outcome(piped.(ring := Cleared(Append(st.ring, line))), []);
    assert forks + o.effects == forks;
  }

  /** `history -c` stores itself and then clears: below 100 lines that forgets
      everything, the line included. When the line is the 100th or a later one, the loop
      of history runs over a full ring, where `strcpy(arg, "-c") == 0` never holds
      (sish.c:266): nothing is blanked and the line stays stored. */
  lemma ClearForgetsOnlyBelowCapacity(st: State, line: string, fuel: nat)
    requires WellFormed(st.ring) && Terminal(Parse(line)) == ["history", "-c"]
    ensures var ring' := Step(st, line, fuel).state.ring;
      && (st.ring.count + 1 < Capacity ==> ring'.count == 0 && ring'.position == 0 && Listing(ring') == [])
      && (st.ring.count + 1 >= Capacity ==> ring' == Append(st.ring, line))
  {
    var stages := Parse(line);
    assert Step(st, line, fuel) == Turn(st, stages, line, fuel) by {
      ExitIsOneWord();
    }
    TurnClearsHistory(st, stages, line, fuel);
    CommandIsNotEmpty(line);
  }

  /** The message a failing `history` command reports: too many arguments, an offset out
      of bound, or an argument that is neither -c nor digits. */
  function HistoryFailure(args: seq<string>): Failure
    requires |args| >= 2
  {
    if |args| > 2 then HistoryTooManyArgs
    else if AllDigits(args[1]) then OffsetOutOfBound
    else NotValidHistoryArg
  }

  /** A `history` stage that fails (sish.c:185-188, 293-317, 324-327) still stores the
      line, runs nothing and reports why. */
  lemma TurnReportsHistoryFailure(st: State, stages: seq<Stage>, line: string, fuel: nat)
    requires WellFormed(st.ring)
    requires var args := Terminal(stages);
      |args| >= 2 && args[0] == "history" &&
      (|args| == 2 ==> args[1] != "-c" && (AllDigits(args[1]) ==> Lookup(st.ring, Atoi(args[1])).None?))
    ensures Turn(st, stages, line, fuel) == Outcome(State(Append(st.ring, line), 0),
      Forks(Plan(stages, st.pipeCount)) +
      [Report(HistoryFailure(Terminal(stages))), CloseParentPipes(st.pipeCount + Pipes(stages)), Reap])
  {
    var args := Terminal(stages);
    var forks := Forks(Plan(stages, st.pipeCount));
    var piped := State(st.ring, st.pipeCount + Pipes(stages));
    var failure := HistoryFailure(args);
    var o := Execute(piped, args, line, fuel);
    assert o == Outcome(piped.(ring := Append(st.ring, line)), [Report(failure)]) by {
      if |args| > 2 {
        assert Classify(args) == HistoryTooMany;
      } else if AllDigits(args[1]) {
        assert Classify(args) == HistoryReplay(Atoi(args[1]));
        assert o == Replay(piped, args, Atoi(args[1]), line, fuel);
      } else {
        assert Classify(args) == HistoryInvalid;
      }
    }
    assert forks + o.effects + [CloseParentPipes(piped.pipeCount), Reap] ==
      forks + [Report(failure), CloseParentPipes(piped.pipeCount), Reap];
  }

  /** A typed `history` line that fails is still stored, runs nothing and reports why. */
  lemma HistoryFailuresAreStored(st: State, line: string, fuel: nat)
    requires WellFormed(st.ring) && IsCommand(line)
    requires var args := Terminal(Parse(line));
      args[0] == "history" && |args| >= 2 &&
      (|args| == 2 ==> args[1] != "-c" && (AllDigits(args[1]) ==> Lookup(st.ring, Atoi(args[1])).None?))
    ensures var stages := Parse(line);
      Step(st, line, fuel) == Outcome(State(Append(st.ring, line), 0),
        Forks(Plan(stages, st.pipeCount)) +
        [Report(HistoryFailure(Terminal(stages))), CloseParentPipes(st.pipeCount + Pipes(stages)), Reap])
  {
    var stages := Parse(line);
    assert Step(st, line, fuel) == Turn(st, stages, line, fuel) by {
      ExitIsOneWord();
    }
    TurnReportsHistoryFailure(st, stages, line, fuel);
  }

  // ---------------------------------------------------------------------------------
  // Pipelines and replays

  /** A turn whose terminal stage is an external command stores the line and runs the
      whole pipeline: one child per stage, wired as parseLine and execute wire them, then
      the parent closes every pipe and reaps (sish.c:77-93, 195-219). */
  lemma TurnRunsPipeline(st: State, stages: seq<Stage>, line: string, fuel: nat)
    requires WellFormed(st.ring) && Terminal(stages) != []
    requires Classify(Terminal(stages)).External?
    ensures Turn(st, stages, line, fuel) == Outcome(State(Append(st.ring, line), 0),
      Forks(Children(stages, st.pipeCount)) +
      [CloseParentPipes(st.pipeCount + Pipes(stages)), Reap])
  {
    var args := Terminal(stages);
    var pc := st.pipeCount;
    var plan := Plan(stages, pc);
    var last := LastChild(args, pc + Pipes(stages));
    var piped := State(Append(st.ring, line), pc + Pipes(stages));
    assert Execute(piped, args, line, fuel) == Outcome(piped, [Fork(last)]);
    assert Forks(plan + [last]) == Forks(plan) + [Fork(last)];
  }

  /** A typed line whose terminal stage is an external command is stored by main and runs
      as a pipeline. */
  lemma ExternalRunsPipeline(st: State, line: string, fuel: nat)
    requires WellFormed(st.ring) && Recordable(line)
    requires Classify(Terminal(Parse(line))).External?
    ensures var stages := Parse(line);
      Step(st, line, fuel) == Outcome(State(Append(st.ring, line), 0),
        Forks(Children(stages, st.pipeCount)) +
        [CloseParentPipes(st.pipeCount + Pipes(stages)), Reap])
  {
    var stages := Parse(line);
    assert Step(st, line, fuel) == Turn(st, stages, line, fuel);
    TurnRunsPipeline(st, stages, line, fuel);
  }

  /** Replaying a resolved line whose terminal stage is an external command runs its
      whole pipeline, wired from the pipes that already exist. */
  lemma RunStoredExternal(st: State, stages: seq<Stage>, invocation: seq<string>, str: string, fuel: nat)
    requires WellFormed(st.ring) && fuel > 0
    requires Terminal(stages) != [] && Classify(Terminal(stages)).External?
    ensures RunStored(st, stages, invocation, str, fuel) ==
      Outcome(State(Append(st.ring, str), st.pipeCount + Pipes(stages)),
        Forks(Children(stages, st.pipeCount)))
  {
    var pc := st.pipeCount;
    var plan := Plan(stages, pc);
    var piped := State(Append(st.ring, str), pc + Pipes(stages));
    var last := LastChild(Terminal(stages), pc + Pipes(stages));
    assert Forks(plan + [last]) == Forks(plan) + [Fork(last)];
    assert Execute(piped, Terminal(stages), "", fuel - 1) == Outcome(piped, [Fork(last)]);
  }

  /** `history n`, when slot n holds a line whose terminal stage is an external command,
      runs that line's pipeline and stores the invocation. */
  lemma ReplayExecutesStored(st: State, n: string, t: string, str: string, fuel: nat)
    requires WellFormed(st.ring) && fuel > 0 && AllDigits(n)
    requires Lookup(st.ring, Atoi(n)) == Some(t)
    requires Terminal(Parse(t)) != [] && Classify(Terminal(Parse(t))).External?
    ensures var stages := Parse(t);
      Execute(st, ["history", n], str, fuel) ==
        Outcome(State(Append(st.ring, str), st.pipeCount + Pipes(stages)),
          Forks(Children(stages, st.pipeCount)))
  {
    assert n != "-c" by {
      if n != [] {
        assert IsDigit(n[0]);
      }
    }
    assert Classify(["history", n]) == HistoryReplay(Atoi(n));
    assert Execute(st, ["history", n], str, fuel) == Replay(st, ["history", n], Atoi(n), str, fuel);
    RunStoredExternal(st, Parse(t), ["history", n], str, fuel);
  }

  /** A turn whose only stage is `history n`, when slot n holds a line whose terminal
      stage is an external command: the replay runs that line's pipeline, and the turn
      ends as for a typed line. */
  lemma TurnReplaysStored(st: State, line: string, n: string, t: string, fuel: nat)
    requires WellFormed(st.ring) && fuel > 0 && AllDigits(n)
    requires Lookup(st.ring, Atoi(n)) == Some(t)
    requires Terminal(Parse(t)) != [] && Classify(Terminal(Parse(t))).External?
    ensures var stages := Parse(t);
      Turn(st, [["history", n]], line, fuel) == Outcome(State(Append(st.ring, line), 0),
        Forks(Children(stages, st.pipeCount)) +
        [CloseParentPipes(st.pipeCount + Pipes(stages)), Reap])
  {
    var typed: seq<Stage> := [["history", n]];
    var o := Execute(st, ["history", n], line, fuel);
    assert o.state.ring == Append(st.ring, line) &&
      o.state.pipeCount == st.pipeCount + Pipes(Parse(t)) &&
      o.effects == Forks(Children(Parse(t), st.pipeCount)) by {
      ReplayExecutesStored(st, n, t, line, fuel);
    }
    var piped := st.(pipeCount := st.pipeCount + Pipes(typed));
    assert Terminal(typed) == ["history", n];
    assert Pipes(typed) == 0 && piped == st;
    assert Recorded(piped, ["history", n], line) == st;
    assert Forks(Plan(typed, st.pipeCount)) == [];
    assert Turn(st, typed, line, fuel) ==
      Outcome(State(o.state.ring, 0), [] + o.effects + [CloseParentPipes(o.state.pipeCount), Reap]);
  }

  /** `history n` typed as a one-stage line replays slot n the same way. */
  lemma ReplayRunsStored(st: State, line: string, n: string, t: string, fuel: nat)
    requires WellFormed(st.ring) && fuel > 0
    requires Parse(line) == [["history", n]] && AllDigits(n)
    requires Lookup(st.ring, Atoi(n)) == Some(t)
    requires Terminal(Parse(t)) != [] && Classify(Terminal(Parse(t))).External?
    ensures var stages := Parse(t);
      Step(st, line, fuel) == Outcome(State(Append(st.ring, line), 0),
        Forks(Children(stages, st.pipeCount)) +
        [CloseParentPipes(st.pipeCount + Pipes(stages)), Reap])
  {
    assert Step(st, line, fuel) == Turn(st, [["history", n]], line, fuel) by {
      ExitIsOneWord();
    }
    TurnReplaysStored(st, line, n, t, fuel);
  }

  /** Replaying a stored line whose terminal stage is an external command forks exactly
      the children that typing the line again would: same argument vectors, same pipes.
      Only the ring differs, which stores the invocation instead of the replayed line. */
  lemma ReplayForksAsTyped(st: State, line: string, n: string, t: string, fuel: nat)
    requires Replayable(st.ring) && fuel > 0
    requires Parse(line) == [["history", n]] && AllDigits(n)
    requires Lookup(st.ring, Atoi(n)) == Some(t)
    requires Classify(Terminal(Parse(t))).External?
    ensures Step(st, line, fuel).effects == Step(st, t, fuel).effects
    ensures Step(st, line, fuel).state.ring == Append(st.ring, line)
    ensures Step(st, t, fuel).state.ring == Append(st.ring, t)
  {
    assert t in LiveSlots(st.ring);
    ReplayRunsStored(st, line, n, t, fuel);
    ExternalRunsPipeline(st, t, fuel);
  }

  /** A stored line that replays itself never settles: when slot k holds `history k`, or
      a line with no piece at all (which leaves args holding `history k`), every level
      looks up the same line again, so the replays nest until the fuel, or in the C
      program the stack, runs out. */
  lemma {:induction false} SelfReplayNeverSettles(st: State, t: string, k: nat, fuel: nat)
    requires WellFormed(st.ring)
    requires Lookup(st.ring, k) == Some(t)
    requires Parse(t) == [["history", Decimal(k)]] || Parse(t) == []
    ensures Execute(st, ["history", Decimal(k)], "", fuel) == Outcome(st, [ReplayTooDeep])
    decreases fuel
  {
    var d := Decimal(k);
    var stages := Parse(t);
    AtoiDecimal(k);
    assert d != "-c" by {
      assert IsDigit(d[0]);
    }
    assert Classify(["history", d]) == HistoryReplay(k);
    assert Plan(stages, st.pipeCount) == [] && Pipes(stages) == 0;
    assert State(Append(st.ring, ""), st.pipeCount) == st;
    if fuel > 0 {
      SelfReplayNeverSettles(st, t, k, fuel - 1);
      assert RunStored(st, stages, ["history", d], "", fuel) ==
        Outcome(st, [] + Execute(st, ["history", d], "", fuel - 1).effects);
    }
  }

  /** `history 0` asks for a replay of offset 0, whose numeral is "0". */
  lemma HistoryZero()
    ensures Classify(["history", "0"]) == HistoryReplay(0) && Decimal(0) == "0"
  {
    assert Atoi("0") == 0 by {
      assert "0"[..0] == [];
    }
  }

  /** The line `history 0` is one stage of two words. */
  lemma ParseHistoryZero()
    ensures Parse("history 0") == [["history", "0"]]
  {
    var stages: seq<Stage> := [["history", "0"]];
    UnparseHistoryZero();
    assert forall i, tok | 0 <= i < |stages| && tok in stages[i] ::
      tok != "" && ' ' !in tok && '|' !in tok by {
      assert stages[0] == ["history", "0"];
    }
    ParseUnparse(stages);
  }

  lemma UnparseHistoryZero()
    ensures Unparse([["history", "0"]]) == "history 0"
  {
    assert Join(["history", "0"], ' ') == "history 0" by {
      assert Join(["0"], ' ') == "0";
    }
    assert Join(["history 0"], '|') == "history 0";
  }

  /** A fresh ring has no line 0; once a line is stored it is line 0, also after a second
      store. */
  lemma FreshRingLineZero(line: string)
    requires line != ""
    ensures Lookup(Empty(), 0) == None
    ensures Lookup(Append(Empty(), line), 0) == Some(line)
    ensures Lookup(Append(Append(Empty(), line), line), 0) == Some(line)
  {
  }

  /** A replay that never settles needs no prepared ring: on a fresh shell, `history 0`
      typed twice is enough. The first finds no line 0, stores itself there and reports
      the offset (sish.c:297-300); the second replays it, and every nested level finds
      `history 0` in slot 0 again. */
  lemma TypedSelfReplayNeverSettles(fuel: nat)
    ensures Session(Start(), ["history 0", "history 0"], fuel).effects ==
      [Report(OffsetOutOfBound), CloseParentPipes(0), Reap, ReplayTooDeep, CloseParentPipes(0), Reap]
  {
    var line := "history 0";
    ParseHistoryZero();
    ExitIsOneWord();
    FirstHistoryZero(line, fuel);
    SecondHistoryZero(line, fuel);
    SessionOfTwo(Start(), line, line, fuel);
  }

  /** Two lines, neither of them "exit", run one after the other. */
  lemma SessionOfTwo(st: State, a: string, b: string, fuel: nat)
    requires WellFormed(st.ring) && a != "exit" && b != "exit"
    ensures var first := Step(st, a, fuel);
      Session(st, [a, b], fuel).effects == first.effects + Step(first.state, b, fuel).effects
  {
    var first := Step(st, a, fuel);
    var second := Step(first.state, b, fuel);
    assert [b][1..] == [];
    assert Session(first.state, [b], fuel).effects == second.effects + [];
    assert [a, b][1..] == [b];
    assert Session(st, [a, b], fuel).effects == first.effects + Session(first.state, [b], fuel).effects;
  }

  /** On a fresh shell `history 0` finds no line 0: it stores itself and reports. */
  lemma FirstHistoryZero(line: string, fuel: nat)
    requires Parse(line) == [["history", "0"]]
    ensures Step(Start(), line, fuel) ==
      Outcome(State(Append(Empty(), line), 0), [Report(OffsetOutOfBound), CloseParentPipes(0), Reap])
  {
    var stages := Parse(line);
    HistoryZero();
    ExitIsOneWord();
    assert line != "";
    FreshRingLineZero(line);
    assert Terminal(stages) == ["history", "0"];
    assert Forks(Plan(stages, 0)) == [];
    assert HistoryFailure(["history", "0"]) == OffsetOutOfBound by {
      assert IsDigit("0"[0]);
    }
    TurnReportsHistoryFailure(Start(), stages, line, fuel);
    assert Step(Start(), line, fuel) == Turn(Start(), stages, line, fuel);
  }

  /** With `history 0` in slot 0, typing it again replays it until the nesting bound. */
  lemma SecondHistoryZero(line: string, fuel: nat)
    requires Parse(line) == [["history", "0"]]
    ensures Step(State(Append(Empty(), line), 0), line, fuel).effects ==
      [ReplayTooDeep, CloseParentPipes(0), Reap]
  {
    var stages := Parse(line);
    var args := ["history", "0"];
    var st := State(Append(Empty(), line), 0);
    var r2 := Append(st.ring, line);
    HistoryZero();
    ExitIsOneWord();
    assert line != "";
    FreshRingLineZero(line);
    assert Plan(stages, 0) == [];
    var o := Execute(st, args, line, fuel);
    assert o == RunStored(st, stages, args, line, fuel) by {
      assert o == Replay(st, args, 0, line, fuel);
    }
    if fuel > 0 {
      SelfReplayNeverSettles(State(r2, 0), line, 0, fuel - 1);
    }
    assert o == Outcome(State(r2, 0), [ReplayTooDeep]);
    TurnDispatches(st, stages, line, fuel);
  }

  // ---------------------------------------------------------------------------------
  // cd and the pipes

  /** The effect of a cd stage: chdir with exactly one argument, a report otherwise. */
  function CdEffect(args: seq<string>): Effect
    requires args != []
  {
    if |args| > 2 then Report(CdTooManyArgs)
    else if |args| == 1 then Report(CdNeedsArg)
    else ChangeDir(args[1])
  }

  /** A turn whose terminal stage is cd (sish.c:236-246) changes directory only with
      exactly one argument; otherwise it reports the error and calls no chdir. The line
      is stored either way, by main. */
  lemma TurnChangesDir(st: State, stages: seq<Stage>, line: string, fuel: nat)
    requires WellFormed(st.ring) && Terminal(stages) != [] && Terminal(stages)[0] == "cd"
    ensures Turn(st, stages, line, fuel) == Outcome(State(Append(st.ring, line), 0),
      Forks(Plan(stages, st.pipeCount)) +
      [CdEffect(Terminal(stages)), CloseParentPipes(st.pipeCount + Pipes(stages)), Reap])
  {
    var args := Terminal(stages);
    var forks := Forks(Plan(stages, st.pipeCount));
    var effect := CdEffect(args);
    var piped := State(Append(st.ring, line), st.pipeCount + Pipes(stages));
    var o := Execute(piped, args, line, fuel);
    assert o == Outcome(piped, [effect]);
    assert forks + o.effects + [CloseParentPipes(piped.pipeCount), Reap] ==
      forks + [effect, CloseParentPipes(piped.pipeCount), Reap];
  }

  /** cd on a typed line: the same, from the line. */
  lemma CdRule(st: State, line: string, fuel: nat)
    requires WellFormed(st.ring) && IsCommand(line) && Terminal(Parse(line))[0] == "cd"
    ensures var stages := Parse(line);
      Step(st, line, fuel) == Outcome(State(Append(st.ring, line), 0),
        Forks(Plan(stages, st.pipeCount)) +
        [CdEffect(Terminal(stages)), CloseParentPipes(st.pipeCount + Pipes(stages)), Reap])
  {
    var stages := Parse(line);
    assert Step(st, line, fuel) == Turn(st, stages, line, fuel) by {
      ExitIsOneWord();
    }
    TurnChangesDir(st, stages, line, fuel);
  }

  /** A line whose last piece is blank forks its other stages and goes straight back to
      the prompt: no close, no wait, and pipeCount keeps its pipes. The next line's last
      child then reads the pipe the blank-ended line left open, and the next line's close
      and reset cover those pipes too. */
  lemma BlankLastPieceLeaksPipe(st: State, blank: string, next: string, fuel: nat)
    requires WellFormed(st.ring) && st.pipeCount == 0
    requires |Parse(blank)| == 2 && Terminal(Parse(blank)) == []
    requires Recordable(next) && |Parse(next)| == 1 && Classify(Terminal(Parse(next))).External?
    ensures var first := Step(st, blank, fuel);
      var second := Step(first.state, next, fuel);
      && first == Outcome(State(st.ring, 1), [Fork(Child(Parse(blank)[0], None, Some(0), 1))])
      && second == Outcome(State(Append(st.ring, next), 0),
           [Fork(Child(Parse(next)[0], Some(0), None, 1)), CloseParentPipes(1), Reap])
  {
    assert blank != "exit" by {
      ExitIsOneWord();
    }
    var stages := Parse(blank);
    assert Plan(stages, 0) == [PipedChild(stages[0], 0)];
    var first := Step(st, blank, fuel);
    assert first == Outcome(State(st.ring, 1), [Fork(Child(stages[0], None, Some(0), 1))]);
    TurnRunsPipeline(first.state, Parse(next), next, fuel);
    assert Children(Parse(next), 1) == [Child(Parse(next)[0], Some(0), None, 1)];
  }

  /** execute never closes a pipe: pipeCount after it, replays included, is at least
      what it was before. */
  lemma {:induction false} ExecuteKeepsPipes(st: State, args: seq<string>, str: string, fuel: nat)
    requires WellFormed(st.ring) && args != []
    ensures Execute(st, args, str, fuel).state.pipeCount >= st.pipeCount
    decreases fuel, 2
  {
    match Classify(args)
    case HistoryReplay(offset) => ReplayKeepsPipes(st, args, offset, str, fuel);
    case _ =>
  }

  lemma {:induction false} ReplayKeepsPipes(st: State, invocation: seq<string>, offset: nat, str: string, fuel: nat)
    requires WellFormed(st.ring)
    ensures Replay(st, invocation, offset, str, fuel).state.pipeCount >= st.pipeCount
    decreases fuel, 1
  {
    match Lookup(st.ring, offset)
    case None =>
    case Some(line) => RunStoredKeepsPipes(st, Parse(line), invocation, str, fuel);
  }

  lemma {:induction false} RunStoredKeepsPipes(st: State, stages: seq<Stage>, invocation: seq<string>,
                                               str: string, fuel: nat)
    requires WellFormed(st.ring)
    ensures RunStored(st, stages, invocation, str, fuel).state.pipeCount >= st.pipeCount
    decreases fuel, 0
  {
    var args := ArgsAfter(stages, invocation);
    if args != [] && fuel > 0 {
      var piped := State(Append(st.ring, str), st.pipeCount + Pipes(stages));
      ExecuteKeepsPipes(piped, args, "", fuel - 1);
    }
  }

  /** A pipe left open by an earlier line (pipeCount > 0 at the start of the turn) feeds
      the first child of the next line that forks one: its first piped stage
      (sish.c:146-151) or, for a one-stage line, its external command (sish.c:201-206).
      The turn's close covers the leftover pipes as well as its own, and pipeCount is
      reset (sish.c:83-91). */
  lemma LeftoverPipeFeedsNextLine(st: State, next: string, fuel: nat)
    requires WellFormed(st.ring) && st.pipeCount > 0 && Recordable(next)
    requires Pipes(Parse(next)) > 0 || Classify(Terminal(Parse(next))).External?
    ensures var stages := Parse(next);
      var o := Step(st, next, fuel);
      && o.state.pipeCount == 0
      && |o.effects| >= 3
      && o.effects[0].Fork?
      && o.effects[0].child.argv == stages[0]
      && o.effects[0].child.stdin == Some(st.pipeCount - 1)
      && o.effects[|o.effects| - 1] == Reap
      && o.effects[|o.effects| - 2].CloseParentPipes?
      && o.effects[|o.effects| - 2].count >= st.pipeCount + Pipes(stages)
  {
    var stages := Parse(next);
    var args := Terminal(stages);
    var forks := Forks(Plan(stages, st.pipeCount));
    var recorded := Recorded(st.(pipeCount := st.pipeCount + Pipes(stages)), args, next);
    var o1 := Execute(recorded, args, next, fuel);
    assert Step(st, next, fuel) == Turn(st, stages, next, fuel);
    TurnDispatches(st, stages, next, fuel);
    ExecuteKeepsPipes(recorded, args, next, fuel);
    var effects := forks + o1.effects + [CloseParentPipes(o1.state.pipeCount), Reap];
    assert effects[|effects| - 2] == CloseParentPipes(o1.state.pipeCount);
    if Pipes(stages) > 0 {
      PlanAt(stages, st.pipeCount, 0);
      assert effects[0] == forks[0];
    } else {
      assert |stages| == 1 && args == stages[0];
      assert o1.effects == [Fork(LastChild(args, st.pipeCount))];
      assert effects[0] == o1.effects[0];
    }
  }

  /** The child of the first Fork among effects, if there is one. */
  function FirstFork(effects: seq<Effect>): Option<Child>
  {
    if effects == [] then None
    else if effects[0].Fork? then Some(effects[0].child)
    else FirstFork(effects[1..])
  }

  lemma {:induction false} FirstForkAppend(a: seq<Effect>, b: seq<Effect>)
    ensures FirstFork(a + b) == if FirstFork(a).Some? then FirstFork(a) else FirstFork(b)
  {
    if a == [] {
      assert a + b == b;
    } else {
      assert (a + b)[1..] == a[1..] + b;
      FirstForkAppend(a[1..], b);
    }
  }

  /** The pipe whose read end a child forked while p pipes exist takes as input: the
      newest one, or none when p == 0 (PipedChild and LastChild alike). */
  function Upstream(p: nat): Option<nat>
  {
    if p == 0 then None else Some(p - 1)
  }

  /** Nothing execute does before its first fork opens a pipe, replays included: the
      first child it forks reads the newest pipe already open. */
  lemma {:induction false} ExecuteFirstFork(st: State, args: seq<string>, str: string, fuel: nat)
    requires WellFormed(st.ring) && args != []
    ensures var c := FirstFork(Execute(st, args, str, fuel).effects);
      c.Some? ==> c.value.stdin == Upstream(st.pipeCount)
    decreases fuel, 2
  {
    match Classify(args)
    case HistoryReplay(offset) => ReplayFirstFork(st, args, offset, str, fuel);
    case _ =>
  }

  lemma {:induction false} ReplayFirstFork(st: State, invocation: seq<string>, offset: nat, str: string, fuel: nat)
    requires WellFormed(st.ring)
    ensures var c := FirstFork(Replay(st, invocation, offset, str, fuel).effects);
      c.Some? ==> c.value.stdin == Upstream(st.pipeCount)
    decreases fuel, 1
  {
    match Lookup(st.ring, offset)
    case None =>
    case Some(line) => RunStoredFirstFork(st, Parse(line), invocation, str, fuel);
  }

  /** A recalled line forks its piped stages first, the first of them reading the newest
      open pipe (sish.c:146-151); with no piped stage its first fork is the nested
      execute's, made with pipeCount unchanged. */
  lemma {:induction false} RunStoredFirstFork(st: State, stages: seq<Stage>, invocation: seq<string>,
                                              str: string, fuel: nat)
    requires WellFormed(st.ring)
    ensures var c := FirstFork(RunStored(st, stages, invocation, str, fuel).effects);
      c.Some? ==> c.value.stdin == Upstream(st.pipeCount)
    decreases fuel, 0
  {
    var args := ArgsAfter(stages, invocation);
    var forks := Forks(Plan(stages, st.pipeCount));
    var piped := State(Append(st.ring, str), st.pipeCount + Pipes(stages));
    var rest := if args == [] then [NullCommand]
      else if fuel == 0 then [ReplayTooDeep]
      else Execute(piped, args, "", fuel - 1).effects;
    assert RunStored(st, stages, invocation, str, fuel).effects == forks + rest;
    FirstForkAppend(forks, rest);
    if Pipes(stages) > 0 {
      PlanAt(stages, st.pipeCount, 0);
      assert forks[0] == Fork(PipedChild(stages[0], st.pipeCount));
    } else {
      assert forks == [];
      if args != [] && fuel > 0 {
        ExecuteFirstFork(piped, args, "", fuel - 1);
      }
    }
  }

  /** With pipes left open by an earlier line, the first child the next line forks reads
      the newest leftover pipe, whatever forks it: a piped stage, an external command, or
      a `history n` replay of a stored line. When the line reaches dispatch, its close
      (sish.c:83-91) covers the leftover pipes too, and pipeCount is reset. */
  lemma LeftoverPipeFeedsFirstFork(st: State, next: string, fuel: nat)
    requires WellFormed(st.ring) && st.pipeCount > 0
    requires FirstFork(Step(st, next, fuel).effects).Some?
    ensures var o := Step(st, next, fuel);
      && FirstFork(o.effects).value.stdin == Some(st.pipeCount - 1)
      && (Recordable(next) ==>
           && o.state.pipeCount == 0
           && |o.effects| >= 2
           && o.effects[|o.effects| - 1] == Reap
           && o.effects[|o.effects| - 2].CloseParentPipes?
           && o.effects[|o.effects| - 2].count >= st.pipeCount + Pipes(Parse(next)))
  {
    var stages := Parse(next);
    var args := Terminal(stages);
    var forks := Forks(Plan(stages, st.pipeCount));
    assert Step(st, next, fuel) == Turn(st, stages, next, fuel);
    if Pipes(stages) > 0 {
      PlanAt(stages, st.pipeCount, 0);
      assert forks[0] == Fork(PipedChild(stages[0], st.pipeCount));
    }
    if args == [] {
      assert Step(st, next, fuel).effects == forks;
    } else {
      var recorded := Recorded(st.(pipeCount := st.pipeCount + Pipes(stages)), args, next);
      var o1 := Execute(recorded, args, next, fuel);
      var tail := [CloseParentPipes(o1.state.pipeCount), Reap];
      TurnDispatches(st, stages, next, fuel);
      ExecuteKeepsPipes(recorded, args, next, fuel);
      FirstForkAppend(forks + o1.effects, tail);
      FirstForkAppend(forks, o1.effects);
      assert FirstFork(tail) == None by {
        assert tail[1..] == [Reap] && [Reap][1..] == [];
      }
      var effects := forks + o1.effects + tail;
      assert effects[|effects| - 2] == CloseParentPipes(o1.state.pipeCount);
      if Pipes(stages) == 0 {
        assert forks == [];
        ExecuteFirstFork(recorded, args, next, fuel);
      }
    }
  }

  // ---------------------------------------------------------------------------------
  // The read loop

  /** The shell at start-up (sish.c:43-45): an empty ring and no pipe. */
  function Start(): (st: State)
    ensures Replayable(st.ring) && st.pipeCount == 0
  {
    State(Empty(), 0)
  }

  /** The read loop of main over the lines read, in order: every line is a turn, and
      "exit" ends the loop, so the lines after it are never read. */
  function Session(st: State, lines: seq<string>, fuel: nat): (o: Outcome)
    requires WellFormed(st.ring)
    ensures WellFormed(o.state.ring)
    decreases |lines|
  {
    if lines == [] then Outcome(st, [])
    else
      var first := Step(st, lines[0], fuel);
      if lines[0] == "exit" then first
      else
        var rest := Session(first.state, lines[1..], fuel);
        Outcome(rest.state, first.effects + rest.effects)
  }

  /** A session never asks for anything after Exit, and asks for Exit exactly when it
      reads the line "exit". */
  lemma {:induction false} SessionEndsAtExit(st: State, lines: seq<string>, fuel: nat)
    requires WellFormed(st.ring)
    ensures var effects := Session(st, lines, fuel).effects;
      (Exit in effects <==> "exit" in lines) &&
      (Exit in effects ==> effects[|effects| - 1] == Exit)
    decreases |lines|
  {
    if lines != [] {
      var first := Step(st, lines[0], fuel);
      if lines[0] != "exit" {
        assert Exit !in first.effects by {
          ExitOnlyOnExit(st, lines[0], fuel);
        }
        SessionEndsAtExit(first.state, lines[1..], fuel);
        assert "exit" in lines <==> "exit" in lines[1..];
      }
    }
  }

  /** Only the line "exit" makes a turn ask for Exit. */
  lemma ExitOnlyOnExit(st: State, line: string, fuel: nat)
    requires WellFormed(st.ring) && line != "exit"
    ensures Exit !in Step(st, line, fuel).effects
  {
    var stages := Parse(line);
    var args := Terminal(stages);
    var forks := Forks(Plan(stages, st.pipeCount));
    ForksOnlyFork(Plan(stages, st.pipeCount));
    if args != [] {
      var piped := st.(pipeCount := st.pipeCount + Pipes(stages));
      var recorded := Recorded(piped, args, line);
      ExecuteNeverExits(recorded, args, line, fuel);
    }
  }

  lemma {:induction false} ExecuteNeverExits(st: State, args: seq<string>, str: string, fuel: nat)
    requires WellFormed(st.ring) && args != []
    ensures Exit !in Execute(st, args, str, fuel).effects
    decreases fuel, 2
  {
    match Classify(args)
    case HistoryReplay(offset) => ReplayNeverExits(st, args, offset, str, fuel);
    case _ =>
  }

  lemma {:induction false} ReplayNeverExits(st: State, invocation: seq<string>, offset: nat, str: string, fuel: nat)
    requires WellFormed(st.ring)
    ensures Exit !in Replay(st, invocation, offset, str, fuel).effects
    decreases fuel, 1
  {
    match Lookup(st.ring, offset)
    case None =>
    case Some(line) => RunStoredNeverExits(st, Parse(line), invocation, str, fuel);
  }

  lemma {:induction false} RunStoredNeverExits(st: State, stages: seq<Stage>, invocation: seq<string>,
                                               str: string, fuel: nat)
    requires WellFormed(st.ring)
    ensures Exit !in RunStored(st, stages, invocation, str, fuel).effects
    decreases fuel, 0
  {
    var args := ArgsAfter(stages, invocation);
    var forks := Forks(Plan(stages, st.pipeCount));
    ForksOnlyFork(Plan(stages, st.pipeCount));
    if args != [] && fuel > 0 {
      var piped := State(Append(st.ring, str), st.pipeCount + Pipes(stages));
      ExecuteNeverExits(piped, args, "", fuel - 1);
      assert RunStored(st, stages, invocation, str, fuel).effects ==
        forks + Execute(piped, args, "", fuel - 1).effects;
    }
  }

  /** No session started on a replayable ring, the start-up ring included, ever calls
      execute with args[0] == NULL, and the ring stays replayable throughout. */
  lemma {:induction false} SessionNeverNull(st: State, lines: seq<string>, fuel: nat)
    requires Replayable(st.ring)
    ensures NullCommand !in Session(st, lines, fuel).effects
    ensures Replayable(Session(st, lines, fuel).state.ring)
    decreases |lines|
  {
    if lines != [] {
      var first := Step(st, lines[0], fuel);
      StepNeverNull(st, lines[0], fuel);
      StepKeepsReplayable(st, lines[0], fuel);
      if lines[0] != "exit" {
        SessionNeverNull(first.state, lines[1..], fuel);
      }
    }
  }
}
