/**
 * The shell as the C program runs it: the history ring and pipeCount are state updated in
 * place, parseLine walks the line with two nested strtok_r loops, and execute and
 * executeHistory call each other for a replay. Every method is proved to do what the
 * value model of the Interpreter module says, and to append to `effects` exactly the
 * requests that model lists.
 */
module Shell {
  import opened Options
  import opened Tokenizer
  import opened Pipeline
  import opened History
  import opened Builtins
  import Interpreter

  /** One more child forked, appended at the end. */
  lemma ForksAppend(children: seq<Child>, c: Child)
    ensures Interpreter.Forks(children + [c]) == Interpreter.Forks(children) + [Interpreter.Fork(c)]
  {
    assert (children + [c])[..|children|] == children;
  }

  /** One more token taken off what strtok_r has still to return. */
  lemma PendingRead(s: string, t: Tok, read: seq<string>, d: char)
    requires t.save <= |s| && t.token.Some?
    ensures read + Pending(s, t, d) == (read + [t.token.value]) + Pending(s, StrTok(s, t.save, d), d)
  {
    PendingStep(s, t, d);
  }

  /** The children parseLine forks for the first k pieces of a line, the first with
      pipe number base. */
  ghost function Piped(pieces: seq<string>, base: nat, k: nat): seq<Child>
    requires k <= |pieces|
  {
    if k == 0 then [] else Piped(pieces, base, k - 1) + [PipedChild(Split(pieces[k - 1], ' '), base + k - 1)]
  }

  /** Forking the child for piece k extends the forks of the first k pieces. */
  lemma PipedStep(pieces: seq<string>, base: nat, k: nat, argv: seq<string>, p: nat)
    requires k < |pieces| && argv == Split(pieces[k], ' ') && p == base + k
    ensures Interpreter.Forks(Piped(pieces, base, k + 1)) ==
      Interpreter.Forks(Piped(pieces, base, k)) + [Interpreter.Fork(PipedChild(argv, p))]
  {
    ForksAppend(Piped(pieces, base, k), PipedChild(argv, p));
  }

  lemma {:induction false} PipedAt(pieces: seq<string>, base: nat, k: nat, j: nat)
    requires j < k <= |pieces|
    ensures |Piped(pieces, base, k)| == k
    ensures Piped(pieces, base, k)[j] == PipedChild(Split(pieces[j], ' '), base + j)
    decreases k
  {
    if j < k - 1 {
      PipedAt(pieces, base, k - 1, j);
    } else if k > 1 {
      PipedAt(pieces, base, k - 1, 0);
    }
  }

  /** The children for the first k pieces depend on those pieces only. */
  lemma {:induction false} PipedPrefix(pieces: seq<string>, more: seq<string>, base: nat, k: nat)
    requires k <= |pieces|
    ensures Piped(pieces + more, base, k) == Piped(pieces, base, k)
    decreases k
  {
    if k > 0 {
      PipedPrefix(pieces, more, base, k - 1);
      assert (pieces + more)[k - 1] == pieces[k - 1];
    }
  }

  /** The children forked one piece at a time are the line's plan. */
  lemma PipedIsPlan(s: string, base: nat, k: nat)
    requires k == Pipes(Parse(s))
    ensures k <= |Split(s, '|')|
    ensures Piped(Split(s, '|'), base, k) == Plan(Parse(s), base)
  {
    var pieces := Split(s, '|');
    var stages := Parse(s);
    TerminalIsLastPiece(s);
    var forked := Piped(pieces, base, k);
    if k > 0 {
      PipedAt(pieces, base, k, 0);
    }
    forall j | 0 <= j < k
      ensures forked[j] == Plan(stages, base)[j]
    {
      PipedAt(pieces, base, k, j);
      ParseAt(s, j);
      PlanAt(stages, base, j);
    }
  }

  /** Where parseLine's outer loop stands: the pieces read so far and those strtok_r has
      still to return make up the line, args holds the last piece's tokens (what it held
      before, prior, until a piece is read), and a child was forked for every piece read
      except a last one with nothing after it. */
  ghost predicate Reading(s: string, t: Tok, read: seq<string>, args: seq<string>, prior: seq<string>,
                          pc: nat, pipeCount: nat, e0: seq<Interpreter.Effect>, effects: seq<Interpreter.Effect>)
  {
    && t.save <= |s|
    && Split(s, '|') == read + Pending(s, t, '|')
    && args == (if read == [] then prior else Split(read[|read| - 1], ' '))
    && var k := if t.token.Some? || read == [] then |read| else |read| - 1;
       && pipeCount == pc + k
       && effects == e0 + Interpreter.Forks(Piped(read, pc, k))
  }

  /** A piece followed by another: its child is forked and a pipe counted. */
  lemma ReadingForks(s: string, t: Tok, read: seq<string>, args: seq<string>, prior: seq<string>, pc: nat,
                     pipeCount: nat, e0: seq<Interpreter.Effect>, effects: seq<Interpreter.Effect>)
    requires t.token.Some? && Reading(s, t, read, args, prior, pc, pipeCount, e0, effects)
    requires t.save <= |s| && StrTok(s, t.save, '|').token.Some?
    ensures Reading(s, StrTok(s, t.save, '|'), read + [t.token.value], Split(t.token.value, ' '),
                    prior, pc, pipeCount + 1, e0,
                    effects + [Interpreter.Fork(PipedChild(Split(t.token.value, ' '), pipeCount))])
  {
    var piece := t.token.value;
    var argv := Split(piece, ' ');
    var read' := read + [piece];
    PendingRead(s, t, read, '|');
    assert read'[|read'| - 1] == piece;
    PipedStep(read', pc, |read|, argv, pipeCount);
    PipedPrefix(read, [piece], pc, |read|);
  }

  /** The last piece: nothing more is forked. */
  lemma ReadingStops(s: string, t: Tok, read: seq<string>, args: seq<string>, prior: seq<string>, pc: nat,
                     pipeCount: nat, e0: seq<Interpreter.Effect>, effects: seq<Interpreter.Effect>)
    requires t.token.Some? && Reading(s, t, read, args, prior, pc, pipeCount, e0, effects)
    requires t.save <= |s| && StrTok(s, t.save, '|').token.None?
    ensures Reading(s, StrTok(s, t.save, '|'), read + [t.token.value], Split(t.token.value, ' '),
                    prior, pc, pipeCount, e0, effects)
  {
    var piece := t.token.value;
    var read' := read + [piece];
    PendingRead(s, t, read, '|');
    assert read'[|read'| - 1] == piece;
    PipedPrefix(read, [piece], pc, |read|);
  }

  /** Once strtok_r returns NULL, every piece was read: args is the terminal stage (or
      what it was, for a line with no piece) and the children forked are the line's
      plan. */
  lemma LineRead(s: string, t: Tok, read: seq<string>, args: seq<string>, prior: seq<string>, pc: nat,
                 pipeCount: nat, e0: seq<Interpreter.Effect>, effects: seq<Interpreter.Effect>)
    requires t.token.None? && Reading(s, t, read, args, prior, pc, pipeCount, e0, effects)
    ensures args == ArgsAfter(Parse(s), prior)
    ensures pipeCount == pc + Pipes(Parse(s))
    ensures effects == e0 + Interpreter.Forks(Plan(Parse(s), pc))
  {
    assert read == Split(s, '|');
    TerminalIsLastPiece(s);
    PipedIsPlan(s, pc, pipeCount - pc);
  }

  lemma Associative<T>(a: seq<T>, b: seq<T>, c: seq<T>)
    ensures a + b + c == a + (b + c)
  {
  }

  /** The replay, put together from parseLine, the store and the nested execute. */
  lemma ReplayAdds(st: Interpreter.State, stages: seq<Stage>, invocation: seq<string>, str: string, fuel: nat,
                   e0: seq<Interpreter.Effect>, mid: Interpreter.State, e1: seq<Interpreter.Effect>,
                   last: Interpreter.State, e2: seq<Interpreter.Effect>)
    requires WellFormed(st.ring)
    requires mid == Interpreter.State(Append(st.ring, str), st.pipeCount + Pipes(stages))
    requires e1 == e0 + Interpreter.Forks(Plan(stages, st.pipeCount))
    requires ArgsAfter(stages, invocation) == [] ==> last == mid && e2 == e1 + [Interpreter.NullCommand]
    requires ArgsAfter(stages, invocation) != [] && fuel == 0 ==>
      last == mid && e2 == e1 + [Interpreter.ReplayTooDeep]
    requires ArgsAfter(stages, invocation) != [] && fuel > 0 ==>
      var x := Interpreter.Execute(mid, ArgsAfter(stages, invocation), "", fuel - 1);
      last == x.state && e2 == e1 + x.effects
    ensures last == Interpreter.RunStored(st, stages, invocation, str, fuel).state
    ensures e2 == e0 + Interpreter.RunStored(st, stages, invocation, str, fuel).effects
  {
    var forks := Interpreter.Forks(Plan(stages, st.pipeCount));
    Associative(e0, forks, e2[|e1|..]);
    assert e2 == e1 + e2[|e1|..];
  }

  /** A turn whose last piece has no token: only parseLine's forks. */
  lemma TurnIsBlank(st: Interpreter.State, line: string, fuel: nat, e0: seq<Interpreter.Effect>,
                    last: Interpreter.State, e2: seq<Interpreter.Effect>)
    requires WellFormed(st.ring) && line != "exit" && Terminal(Parse(line)) == []
    requires last == st.(pipeCount := st.pipeCount + Pipes(Parse(line)))
    requires e2 == e0 + Interpreter.Forks(Plan(Parse(line), st.pipeCount))
    ensures last == Interpreter.Step(st, line, fuel).state
    ensures e2 == e0 + Interpreter.Step(st, line, fuel).effects
  {
    assert Interpreter.Step(st, line, fuel) == Interpreter.Turn(st, Parse(line), line, fuel);
  }

  /** A turn that reaches dispatch: parseLine's forks, then what Dispatch adds. */
  lemma TurnIsDispatched(st: Interpreter.State, line: string, fuel: nat, e0: seq<Interpreter.Effect>,
                         mid: Interpreter.State, e1: seq<Interpreter.Effect>, o: Interpreter.Outcome,
                         last: Interpreter.State, e2: seq<Interpreter.Effect>)
    requires WellFormed(st.ring) && line != "exit" && Terminal(Parse(line)) != []
    requires mid == st.(pipeCount := st.pipeCount + Pipes(Parse(line)))
    requires e1 == e0 + Interpreter.Forks(Plan(Parse(line), st.pipeCount))
    requires o == Interpreter.Execute(Interpreter.Recorded(mid, Terminal(Parse(line)), line), Terminal(Parse(line)), line, fuel)
    requires last == Interpreter.State(o.state.ring, 0)
    requires e2 == e1 + o.effects + [Interpreter.CloseParentPipes(o.state.pipeCount), Interpreter.Reap]
    ensures last == Interpreter.Step(st, line, fuel).state
    ensures e2 == e0 + Interpreter.Step(st, line, fuel).effects
  {
    var forks := Interpreter.Forks(Plan(Parse(line), st.pipeCount));
    var tail := o.effects + [Interpreter.CloseParentPipes(o.state.pipeCount), Interpreter.Reap];
    assert Interpreter.Step(st, line, fuel) == Interpreter.Turn(st, Parse(line), line, fuel);
    assert e2 == e1 + tail;
    Associative(e0, forks, tail);
  }

  /** The inner loop of parseLine over one piece: the tokens strtok_r returns until
      it returns NULL. */
  method TokensOf(piece: string) returns (stage: seq<string>)
    ensures stage == Split(piece, ' ')
  {
    stage := [];
    var u := StrTok(piece, 0, ' ');
    PendingStart(piece, ' ');
    while u.token.Some?
      invariant u.save <= |piece|
      invariant Split(piece, ' ') == stage + Pending(piece, u, ' ')
      decreases if u.token.Some? then |piece| - u.save + 1 else 0
    {
      PendingStep(piece, u, ' ');
      stage := stage + [u.token.value];
      u := StrTok(piece, u.save, ' ');
    }
  }

  /** After the first i lines, the rest of the session accounts for the rest of the
      whole session's state and requests. */
  ghost predicate Resumes(st: Interpreter.State, e0: seq<Interpreter.Effect>, lines: seq<string>,
                          i: nat, now: Interpreter.State, effects: seq<Interpreter.Effect>, fuel: nat)
  {
    && i <= |lines|
    && WellFormed(st.ring) && WellFormed(now.ring)
    && var whole := Interpreter.Session(st, lines, fuel);
       var rest := Interpreter.Session(now, lines[i..], fuel);
       whole.state == rest.state && e0 + whole.effects == effects + rest.effects
  }

  /** A turn that does not read "exit" hands the rest of the session to the next line. */
  lemma SessionGoesOn(st: Interpreter.State, e0: seq<Interpreter.Effect>, lines: seq<string>, i: nat,
                      before: Interpreter.State, e1: seq<Interpreter.Effect>,
                      after: Interpreter.State, e2: seq<Interpreter.Effect>, fuel: nat)
    requires i < |lines| && lines[i] != "exit"
    requires Resumes(st, e0, lines, i, before, e1, fuel)
    requires after == Interpreter.Step(before, lines[i], fuel).state
    requires e2 == e1 + Interpreter.Step(before, lines[i], fuel).effects
    ensures Resumes(st, e0, lines, i + 1, after, e2, fuel)
  {
    var first := Interpreter.Step(before, lines[i], fuel);
    var rest := Interpreter.Session(after, lines[i + 1..], fuel);
    assert lines[i..][1..] == lines[i + 1..];
    assert Interpreter.Session(before, lines[i..], fuel) == Interpreter.Outcome(rest.state, first.effects + rest.effects);
    Associative(e1, first.effects, rest.effects);
  }

  /** The turn that reads "exit" is the session's last. */
  lemma SessionExits(st: Interpreter.State, e0: seq<Interpreter.Effect>, lines: seq<string>, i: nat,
                     before: Interpreter.State, e1: seq<Interpreter.Effect>,
                     after: Interpreter.State, e2: seq<Interpreter.Effect>, fuel: nat)
    requires i < |lines| && lines[i] == "exit"
    requires Resumes(st, e0, lines, i, before, e1, fuel)
    requires after == Interpreter.Step(before, lines[i], fuel).state
    requires e2 == e1 + Interpreter.Step(before, lines[i], fuel).effects
    ensures after == Interpreter.Session(st, lines, fuel).state
    ensures e2 == e0 + Interpreter.Session(st, lines, fuel).effects
  {
    assert Interpreter.Session(before, lines[i..], fuel) == Interpreter.Step(before, lines[i], fuel);
  }

  /** Input that runs out ends the session where the loop stands. */
  lemma SessionDone(st: Interpreter.State, e0: seq<Interpreter.Effect>, lines: seq<string>,
                    now: Interpreter.State, effects: seq<Interpreter.Effect>, fuel: nat)
    requires Resumes(st, e0, lines, |lines|, now, effects, fuel)
    ensures now == Interpreter.Session(st, lines, fuel).state
    ensures effects == e0 + Interpreter.Session(st, lines, fuel).effects
  {
    assert lines[|lines|..] == [];
  }

  class Sish {
    /** commandLines, commandLineCount and position. */
    const hist: CommandHistory
    /** The number of pipes created for the current line (fd[0..pipeCount-1]). */
    var pipeCount: nat
    /** Every request made of the system so far, in order. */
    var effects: seq<Interpreter.Effect>

    ghost predicate Valid()
      reads this, hist, hist.lines
    {
      hist.Valid()
    }

    /** The globals that survive from one line to the next, as a value. */
    ghost function Snapshot(): Interpreter.State
      reads this, hist, hist.lines
    {
      Interpreter.State(hist.Model(), pipeCount)
    }

    /** The start of main (sish.c:43-45): the ring allocated and empty, no pipe yet. */
    constructor ()
      ensures Valid() && fresh(hist) && fresh(hist.lines)
      ensures Snapshot() == Interpreter.Start() && effects == []
    {
      hist := new CommandHistory();
      pipeCount := 0;
      effects := [];
    }

    /** parseLine (sish.c:113-137): the outer strtok_r loop cuts the line at '|', the
        inner one cuts each piece at ' '; whenever another piece follows, a child is
        forked for the piece just read and a pipe is counted. What is left in args is
        the last piece's tokens. */
    method ParseLine(s: string, prior: seq<string>) returns (args: seq<string>)
      requires Valid()
      modifies this`pipeCount, this`effects
      ensures Valid()
      ensures args == ArgsAfter(Parse(s), prior)
      ensures pipeCount == old(pipeCount) + Pipes(Parse(s))
      ensures effects == old(effects) + Interpreter.Forks(Plan(Parse(s), old(pipeCount)))
    {
      ghost var pc := pipeCount;
      ghost var e0 := effects;
      ghost var read := [];
      args := prior;
      var t := StrTok(s, 0, '|');
      PendingStart(s, '|');
      while t.token.Some?
        invariant t.save <= |s|
        invariant Reading(s, t, read, args, prior, pc, pipeCount, e0, effects)
        decreases if t.token.Some? then |s| - t.save + 1 else 0
      {
        ghost var piece := t.token.value;
        args, t := ReadPiece(s, t, read, args, prior, pc, e0);
        read := read + [piece];
      }
      LineRead(s, t, read, args, prior, pc, pipeCount, e0, effects);
    }

    /** One pass of parseLine's outer loop over the piece t holds: its tokens are read,
        the next piece is looked for, and if there is one the child for this piece is
        forked and a pipe counted. */
    method ReadPiece(s: string, t: Tok, ghost read: seq<string>, ghost before: seq<string>,
                     ghost prior: seq<string>, ghost pc: nat, ghost e0: seq<Interpreter.Effect>)
      returns (argv: seq<string>, next: Tok)
      requires t.token.Some? && Reading(s, t, read, before, prior, pc, pipeCount, e0, effects)
      modifies this`pipeCount, this`effects
      ensures next.save <= |s| && (next.token.Some? ==> t.save < next.save)
      ensures Reading(s, next, read + [t.token.value], argv, prior, pc, pipeCount, e0, effects)
    {
      argv := TokensOf(t.token.value);
      next := StrTok(s, t.save, '|');
      if next.token.Some? {
        ReadingForks(s, t, read, before, prior, pc, pipeCount, e0, effects);
        ExecutePiped(argv);
        pipeCount := pipeCount + 1;
      } else {
        ReadingStops(s, t, read, before, prior, pc, pipeCount, e0, effects);
      }
    }

    /** executePiped (sish.c:140-169): a child that reads the previous pipe, if there is
        one, writes pipe number pipeCount and closes every pipe end it inherited. */
    method ExecutePiped(argv: seq<string>)
      modifies this`effects
      ensures effects == old(effects) + [Interpreter.Fork(PipedChild(argv, pipeCount))]
    {
      effects := effects + [Interpreter.Fork(PipedChild(argv, pipeCount))];
    }

    /** execute (sish.c:172-221) with cd (sish.c:236-246): cd and history check their
        argument count, history goes on to executeHistory, and anything else is forked as
        the last child of the line. */
    method Execute(args: seq<string>, str: string, fuel: nat)
      requires Valid() && args != []
      modifies this`pipeCount, this`effects, hist, hist.lines
      ensures Valid() && hist.lines == old(hist.lines)
      ensures Snapshot() == Interpreter.Execute(old(Snapshot()), args, str, fuel).state
      ensures effects == old(effects) + Interpreter.Execute(old(Snapshot()), args, str, fuel).effects
      decreases fuel, 3
    {
      ClassifyDecides(args);
      if args[0] == "cd" {
        if |args| > 2 {
          effects := effects + [Interpreter.Report(Interpreter.CdTooManyArgs)];
        } else if |args| == 1 {
          effects := effects + [Interpreter.Report(Interpreter.CdNeedsArg)];
        } else {
          effects := effects + [Interpreter.ChangeDir(args[1])];
        }
      } else if args[0] == "history" {
        if |args| > 2 {
          effects := effects + [Interpreter.Report(Interpreter.HistoryTooManyArgs)];
          hist.Store(str);
        } else {
          ExecuteHistory(args, str, fuel);
        }
      } else {
        effects := effects + [Interpreter.Fork(LastChild(args, pipeCount))];
      }
    }

    /** executeHistory (sish.c:278-328): no argument lists the ring and -c clears it,
        both after storing str; a decimal offset replays the stored line it names, after
        parsing it and storing str; anything else is reported. */
    method ExecuteHistory(args: seq<string>, str: string, fuel: nat)
      requires Valid() && args != [] && args[0] == "history" && |args| <= 2
      modifies this`pipeCount, this`effects, hist, hist.lines
      ensures Valid() && hist.lines == old(hist.lines)
      ensures Snapshot() == Interpreter.Execute(old(Snapshot()), args, str, fuel).state
      ensures effects == old(effects) + Interpreter.Execute(old(Snapshot()), args, str, fuel).effects
      decreases fuel, 2
    {
      ClassifyDecides(args);
      if |args| == 1 || args[1] == "-c" {
        hist.Store(str);
        if |args| == 1 {
          var entries := hist.List();
          effects := effects + [Interpreter.Printed(entries)];
        } else {
          hist.Clear();
        }
      } else {
        var number := IsNumber(args[1]);
        if number {
          var line := hist.Resolve(Atoi(args[1]));
          if line.None? {
            effects := effects + [Interpreter.Report(Interpreter.OffsetOutOfBound)];
            hist.Store(str);
          } else {
            ReplayLine(line.value, args, str, fuel);
          }
        } else {
          effects := effects + [Interpreter.Report(Interpreter.NotValidHistoryArg)];
          hist.Store(str);
        }
      }
    }

    /** The replay of a resolved line (sish.c:318-322) invoked with the tokens args:
        parseLine, starting from those tokens, forks the line's non-terminal stages, str
        is stored, and execute runs what args then holds with str emptied. */
    method ReplayLine(line: string, args: seq<string>, str: string, fuel: nat)
      requires Valid()
      modifies this`pipeCount, this`effects, hist, hist.lines
      ensures Valid() && hist.lines == old(hist.lines)
      ensures Snapshot() == Interpreter.RunStored(old(Snapshot()), Parse(line), args, str, fuel).state
      ensures effects ==
        old(effects) + Interpreter.RunStored(old(Snapshot()), Parse(line), args, str, fuel).effects
      decreases fuel, 1
    {
      ghost var st := Snapshot();
      ghost var e0 := effects;
      var argv := ParseLine(line, args);
      hist.Store(str);
      ghost var mid := Snapshot();
      ghost var e1 := effects;
      Resume(argv, fuel);
      ReplayAdds(st, Parse(line), args, str, fuel, e0, mid, e1, Snapshot(), effects);
    }

    /** The end of a replay (sish.c:321-322): execute runs the replayed line's terminal
        stage with str emptied. */
    method Resume(args: seq<string>, fuel: nat)
      requires Valid()
      modifies this`pipeCount, this`effects, hist, hist.lines
      ensures Valid() && hist.lines == old(hist.lines)
      ensures args == [] ==> Snapshot() == old(Snapshot()) && effects == old(effects) + [Interpreter.NullCommand]
      ensures args != [] && fuel == 0 ==>
        Snapshot() == old(Snapshot()) && effects == old(effects) + [Interpreter.ReplayTooDeep]
      ensures args != [] && fuel > 0 ==>
        var x := Interpreter.Execute(old(Snapshot()), args, "", fuel - 1);
        Snapshot() == x.state && effects == old(effects) + x.effects
      decreases fuel, 0
    {
      if args == [] {
        effects := effects + [Interpreter.NullCommand];
      } else if fuel == 0 {
        effects := effects + [Interpreter.ReplayTooDeep];
      } else {
        Execute(args, "", fuel - 1);
      }
    }

    /** The read loop of main (sish.c:47-94) over the lines the shell reads, in order,
        each stripped of its newline: a turn per line, until "exit" ends the shell or the
        input runs out. */
    method Run(lines: seq<string>, fuel: nat) returns (exited: bool)
      requires Valid()
      modifies this`pipeCount, this`effects, hist, hist.lines
      ensures Valid() && hist.lines == old(hist.lines)
      ensures exited <==> "exit" in lines
      ensures Snapshot() == Interpreter.Session(old(Snapshot()), lines, fuel).state
      ensures effects == old(effects) + Interpreter.Session(old(Snapshot()), lines, fuel).effects
    {
      ghost var st := Snapshot();
      ghost var e0 := effects;
      var i := 0;
      exited := false;
      while i < |lines|
        invariant 0 <= i <= |lines| && Valid() && hist.lines == old(hist.lines)
        invariant forall j | 0 <= j < i :: lines[j] != "exit"
        invariant Resumes(st, e0, lines, i, Snapshot(), effects, fuel)
        decreases |lines| - i
      {
        var line := lines[i];
        ghost var before := Snapshot();
        ghost var e1 := effects;
        var exit := Step(line, fuel);
        if exit {
          SessionExits(st, e0, lines, i, before, e1, Snapshot(), effects, fuel);
          exited := true;
          return;
        }
        SessionGoesOn(st, e0, lines, i, before, e1, Snapshot(), effects, fuel);
        i := i + 1;
      }
      SessionDone(st, e0, lines, Snapshot(), effects, fuel);
    }

    /** One turn of the read loop of main (sish.c:47-94) on a line stripped of its
        newline; exit tells whether shellExit ended the shell. A line whose last piece
        has no token goes back to the prompt straight after parseLine. */
    method Step(line: string, fuel: nat) returns (exit: bool)
      requires Valid()
      modifies this`pipeCount, this`effects, hist, hist.lines
      ensures Valid() && hist.lines == old(hist.lines)
      ensures exit <==> line == "exit"
      ensures Snapshot() == Interpreter.Step(old(Snapshot()), line, fuel).state
      ensures effects == old(effects) + Interpreter.Step(old(Snapshot()), line, fuel).effects
    {
      if line == "exit" {
        effects := effects + [Interpreter.Exit];
        return true;
      }
      ghost var st := Snapshot();
      ghost var e0 := effects;
      var args := ParseLine(line, []);
      exit := false;
      if args == [] {
        TurnIsBlank(st, line, fuel, e0, Snapshot(), effects);
        return;
      }
      ghost var mid := Snapshot();
      ghost var e1 := effects;
      ghost var o := Interpreter.Execute(Interpreter.Recorded(mid, args, line), args, line, fuel);
      Dispatch(args, line, fuel);
      TurnIsDispatched(st, line, fuel, e0, mid, e1, o, Snapshot(), effects);
    }

    /** The end of a turn that reached dispatch (sish.c:76-92): the line is stored unless
        args is a history command, execute runs, the parent closes every pipe, waits for
        all children and resets pipeCount. */
    method Dispatch(args: seq<string>, line: string, fuel: nat)
      requires Valid() && args != []
      modifies this`pipeCount, this`effects, hist, hist.lines
      ensures Valid() && hist.lines == old(hist.lines)
      ensures var o := Interpreter.Execute(Interpreter.Recorded(old(Snapshot()), args, line), args, line, fuel);
        && Snapshot() == Interpreter.State(o.state.ring, 0)
        && effects == old(effects) + o.effects + [Interpreter.CloseParentPipes(o.state.pipeCount), Interpreter.Reap]
    {
      if args[0] != "history" {
        hist.Store(line);
      }
      Execute(args, line, fuel);
      ghost var ring := hist.Model();
      effects := effects + [Interpreter.CloseParentPipes(pipeCount), Interpreter.Reap];
      pipeCount := 0;
      assert hist.Model() == ring;
    }
  }
}
