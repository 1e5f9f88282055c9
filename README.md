# sish: a verified model of a small Unix shell

sish reads a line and cuts it at `|` into pieces, then cuts each piece at blanks into
tokens. It forks one child for every piece but the last, wired through a chain of pipes.
The last piece (the terminal stage) is then dispatched: `cd`, `history` or an external
program. The shell keeps the last 100 accepted lines in a ring of slots. `history` lists
that ring, `history -c` clears it and `history n` replays line n.

The model has seven modules, one per file:

- `Options` (options.dfy): the `Option` type.
- `Tokenizer` (tokenizer.dfy): `strtok_r` as parseLine uses it.
  - `StrTok` is one call: skip delimiters, take a maximal run, resume after it.
  - `Split` is the loop of calls.
  - The lemmas show that runs of delimiters collapse and that no token is empty.
  - The round trip holds: pieces joined by the delimiter split back into the same pieces.
- `Pipeline` (pipeline.dfy): what parseLine makes of a line.
  - `Parse` gives the stages, each a sequence of tokens.
  - `Terminal` is the terminal stage, the only one left in `args`.
  - `Pipes` is the number of pipes.
  - `Plan` and `Children` give the child processes with their pipe wiring.
- `History` (history.dfy): the ring.
  - `Ring` holds the slots, `commandLineCount` and `position`, with the invariant `position == count % 100`.
  - The ring operations are `Append`, `Listing`, `Cleared` and `Lookup`.
  - An abstraction relates the ring to the log of accepted lines, of which it keeps the last min(count, 100).
  - The class `CommandHistory` is the same ring updated in place. Its slot array is changed slot by slot. Each method is proved against the ring functions.
- `Builtins` (builtins.dfy): `isNumber` as a loop, `atoi` on digit strings, and the dispatch decision `Classify` with the argument-count checks of `cd` and `history`.
- `Interpreter` (interpreter.dfy): one turn of the read loop as a value.
  - `State` is the ring plus `pipeCount`, the two things that survive a line.
  - A turn returns the new state and the list of requests the shell makes of the system, in order: fork a child wired like this, chdir, print these history entries, report this error, close the pipes, reap, exit.
  - `execute`, `executeHistory` and the replay are mutually recursive functions. A `fuel` argument bounds how deep replays nest.
- `Shell` (shell.dfy): the class `Sish`, the imperative program.
  - `ParseLine` runs the two nested `strtok_r` loops.
  - `Execute`, `ExecuteHistory` and `ReplayLine` call each other as the C functions do.
  - `Step` is one turn of the read loop and `Run` is the loop over all lines.
  - Every method's state and appended requests are proved equal to the `Interpreter` value model.

The lemmas cover several properties. The ring keeps its invariant. Storing appends to the
log, and `history` lists the log's window oldest first. `history n` replays exactly the
line listed as n. Every turn stores its line at most once, and only if the line reaches
dispatch. A replay stores its invocation and not the replayed text. No replay ever runs
a line whose terminal stage is blank. Only the line `exit` ends the shell.

Three quirks of the code are kept.

- From the 100th line on, `history -c` blanks nothing. The test at sish.c:266 compares
  the result of `strcpy` with 0, which is never true.
- `history` stores its own invocation before it lists the ring (sish.c:280-281), so the
  listing ends with that invocation.
- A line whose last piece is blank goes back to the prompt right after parseLine
  (sish.c:73-75). The children for its earlier pieces were already forked. Their pipes
  are neither closed nor reaped, and `pipeCount` is not reset. The first child the next
  line forks reads that leftover pipe, whatever forks it: a piped stage, an external
  command, or a `history n` replay of a stored line. `cd`, `history`, `history -c` and
  a failing `history` command fork nothing, so nothing reads the pipe on such a line.
  The next dispatched line's close covers the leftover pipes too, and resets `pipeCount`.

`strtok_r` never returns an empty piece, so `a||b` and a trailing `|` collapse to one
delimiter. Only a piece made of blanks gives a stage with no tokens.

## Model

| member | source | states |
|---|---|---|
| Tokenizer.SkipDelims | sish.c:116 | The index strtok_r resumes scanning from: every character skipped is the delimiter, and the one it stops at (if any) is not |
| Tokenizer.RunEnd | sish.c:116 | The end of a token: every character of the run is not the delimiter, and the one that ends it (if any) is |
| Tokenizer.StrTok | sish.c:116-125 | One strtok_r call either returns a non-empty token without the delimiter and moves the resume position strictly forward, or returns NULL, and it returns NULL only when nothing but delimiters remains |
| Tokenizer.SplitFromClean | sish.c:116-125 | No token the strtok_r loop returns is empty or contains the delimiter |
| Tokenizer.ConcatSplitFrom | sish.c:116-125 | From any resume position, the tokens glued together are the rest of the string with every delimiter removed |
| Tokenizer.SplitKeepsText | sish.c:116-125 | Splitting loses nothing but delimiters: the tokens, concatenated, are the line without its delimiters |
| Tokenizer.SplitSkipsDelimiter | sish.c:116-125 | A delimiter at the resume position changes nothing: runs of delimiters collapse and no empty piece appears |
| Tokenizer.SplitJoin | sish.c:116-125 | Round trip: non-empty, delimiter-free pieces joined by the delimiter split back into exactly those pieces |
| Pipeline.Plan | sish.c:126-134 | parseLine forks one child per pipe it creates: one for every piece followed by another |
| Pipeline.PipelineConnected | sish.c:146-162 | A k-stage pipeline has one child per stage running that stage's tokens. Child i writes pipe base+i and child i+1 reads it. The last child writes the shell's output. The first child reads a pipe only when one was left open before the line. Each piped child closes pipes 0..its own, and the last child closes 0..pipeCount-1 (sish.c:201-212) |
| Pipeline.TerminalIsLastPiece | sish.c:119-134 | A line of k pieces has k stages and forks k-1 children before dispatch; the tokens left in args are those of the last piece |
| Pipeline.TokenIsClean | sish.c:116-123 | No token is empty, and none contains a blank or a pipe character |
| Pipeline.ParseUnparse | sish.c:113-137 | Round trip: stages of clean tokens, written out with one blank between tokens and a pipe character between stages, parse back to the same stages |
| Pipeline.ParseWord | sish.c:113-137 | A line that is one word with no blank and no pipe character is a single stage of that one token |
| History.Empty | sish.c:20-21 | The ring at start-up (count 0, position 0) satisfies the invariant position == count % 100 |
| History.Append | sish.c:98-109 | Storing "" changes nothing. Storing any other line writes it into slot position, adds one to count and keeps position == count % 100 with 0 <= position < 100 |
| History.Listing | sish.c:249-275 | `history` prints min(count, 100) entries, numbered 0, 1, … in order |
| History.Cleared | sish.c:249-286 | Below 100 lines, `history -c` blanks slots 0..count-1, keeps the others, and sets count and position to 0. From 100 lines on it leaves the ring exactly as it was (the strcpy test at sish.c:266) |
| History.Lookup | sish.c:293-317 | A line that `history n` resolves is always one of the live slots |
| History.AdvanceIsModular | sish.c:269-272 | n steps of the listing cursor (position++, back to 0 at 100) land on (p + n) % 100 |
| History.FullPassRestoresPosition | sish.c:262-273 | A full pass of the listing loop leaves position where it started |
| History.Window | sish.c:21 | The abstract history: the last min(n, 100) lines of the log |
| History.EmptyAbstractsNothing | sish.c:20-21 | The start-up ring holds the empty log |
| History.AppendBelowCapacity | sish.c:98-109 | Below 100 lines, storing a non-empty line appends it to the abstract log |
| History.AppendAtCapacity | sish.c:98-109 | From 100 lines on, storing a non-empty line slides the window: the oldest line drops out and the new one is the newest |
| History.AppendExtendsLog | sish.c:98-109 | Storing a non-empty line appends it to the abstract log, at any fill level |
| History.ListingShowsWindow | sish.c:249-275 | `history` lists exactly the last min(count, 100) lines, oldest first, numbered from 0 |
| History.LookupFollowsListing | sish.c:293-317 | `history n` resolves exactly the line `history` lists as number n. An offset the listing does not show is out of bound, in both ring branches, and count % 100 == 0 is included |
| History.LookupShowsWindow | sish.c:293-317 | Replay offset k addresses the k-th oldest surviving line of the log |
| History.ClearedForgets | sish.c:256-286 | Below 100 lines, `history -c` forgets the whole log; from 100 lines on the log is kept |
| History.AppendAllAbstracts | sish.c:98-109 | Storing any sequence of non-empty lines into a fresh ring gives a ring that holds that sequence as its log |
| History.ListingKeepsOrder | sish.c:251-260 | After K <= 100 non-empty lines on a fresh ring, `history` lists exactly those lines, in the order entered |
| History.WrapDropsOldest | sish.c:261-273 | After 101 lines the first is no longer listed, the other 100 are listed oldest first, and `history 0` replays the second line (sish.c:303-310) |
| History.ListingEndsWithNewest | sish.c:249-275 | After a non-empty line is stored, the last entry `history` prints is that line, below and above 100 lines |
| History.AppendLiveSlots | sish.c:98-109 | Storing a line never makes any other text live: each live slot is as it was, or holds the stored line |
| History.CommandHistory.constructor | sish.c:43-45 | The allocated ring is the empty ring |
| History.CommandHistory.Store | sish.c:98-109 | The fields after storeCommandLine are the ring Append gives, updated in place in the same array |
| History.CommandHistory.List | sish.c:249-275 | The entries printed are Listing of the ring, and the ring is unchanged afterwards, including position after the full pass. So two listings in a row print the same entries |
| History.CommandHistory.ListFront | sish.c:251-260 | The loop below 100 lines prints (i, commandLines[i]) for i = 0..count-1 |
| History.CommandHistory.ListRound | sish.c:261-273 | The loop from 100 lines on prints 100 entries starting at slot position and wrapping, and brings position back to where it started |
| History.CommandHistory.Clear | sish.c:249-286 | The fields after `history -c` and the reset in executeHistory are Cleared of the old ring, blanking slots in place |
| History.CommandHistory.Resolve | sish.c:293-317 | The slot read for an offset is Lookup's: the offset itself below 100 lines. From 100 lines on it is (offset + position) % 100, or offset when count % 100 == 0. Anything else is None |
| Builtins.IsNumber | sish.c:331-341 | true exactly when every character is a decimal digit, so true for "" |
| Builtins.AtoiDecimal | sish.c:288-289 | atoi reads back the numeral of every offset, so every live slot can be named in `history n` |
| Builtins.AtoiLeadingZero | sish.c:288-289 | A leading zero does not change the offset: `history 007` replays what `history 7` replays |
| Builtins.ClassifyDecides | sish.c:172-195 | Each dispatch outcome is chosen by exactly the words and argument counts the C code tests: cd takes exactly one argument (too many and none are errors); history takes at most one, which is -c or digits or is invalid; anything else is run with args as its argument vector (sish.c:236-240, 278-288, 324-327). What each outcome then does is stated by Interpreter.TurnChangesDir, Interpreter.TurnReportsHistoryFailure, Interpreter.TurnListsHistory, Interpreter.TurnClearsHistory, Interpreter.TurnReplaysStored and Interpreter.TurnRunsPipeline |
| Interpreter.Execute | sish.c:172-221 | Whatever execute does, directly or through replays, the ring keeps position == count % 100 |
| Interpreter.Replay | sish.c:288-317 | A replay keeps the ring invariant |
| Interpreter.RunStored | sish.c:318-322 | The replay of a resolved line keeps the ring invariant |
| Interpreter.Recorded | sish.c:76-79 | The store in main keeps the ring invariant and leaves pipeCount alone |
| Interpreter.Turn | sish.c:68-93 | A turn keeps the ring invariant |
| Interpreter.Step | sish.c:62-93 | A turn of the read loop, "exit" included, keeps the ring invariant |
| Interpreter.AppendKeepsReplayable | sish.c:98-109 | Storing "" or a line that reached dispatch keeps every live slot a dispatchable line |
| Interpreter.ExitIsOneWord | sish.c:224-225 | "exit" parses as one stage of one token, so it is never a cd or history command |
| Interpreter.CommandIsNotEmpty | sish.c:73-79 | A line that gets past the args[0] == NULL test is not empty, so storeCommandLine does store it |
| Interpreter.ExecuteStoresOnce | sish.c:172-221 | execute stores str once when the terminal stage is `history` and nothing otherwise. A `history -c` run directly or through replays may clear the ring afterwards |
| Interpreter.ReplayStoresOnce | sish.c:288-322 | A replay stores its invocation exactly once, whatever it replays: the nested execute gets "" and stores nothing, though it may clear |
| Interpreter.RunStoredStoresOnce | sish.c:318-322 | After the resolved line is parsed, str is stored once, and the nested execute with "" adds nothing more |
| Interpreter.TurnStoresOnce | sish.c:73-80 | A blank-ended line stores nothing. Any other line is stored exactly once: by main unless its terminal stage is `history`, by executeHistory otherwise, which may then clear |
| Interpreter.StoresLineOnce | sish.c:62-93 | A turn stores its own line once if it reaches dispatch and nothing otherwise; nothing else is ever stored |
| Interpreter.StepKeepsReplayable | sish.c:62-109 | Every turn keeps each live slot a line that reached dispatch |
| Interpreter.ExecuteNeverNull | sish.c:172-174 | On such a ring, execute (with any replay nesting) never calls strcmp on args[0] == NULL |
| Interpreter.ReplayNeverNull | sish.c:288-322 | On such a ring, a replay never reaches execute with args[0] == NULL |
| Interpreter.RunStoredNeverNull | sish.c:318-322 | Replaying a line whose terminal stage has tokens never reaches execute with args[0] == NULL |
| Interpreter.TurnNeverNull | sish.c:73-80 | A turn on such a ring never calls execute with args[0] == NULL |
| Interpreter.StepNeverNull | sish.c:62-93 | No turn on such a ring calls execute with args[0] == NULL |
| Interpreter.StepKeepsLog | sish.c:62-93 | In terms of the log, a turn either leaves it alone (a line that does not reach dispatch), appends its line, or (a clear below 100 lines) empties it |
| Interpreter.TurnListsHistory | sish.c:279-281 | A turn whose terminal stage is `history` stores the line first and prints the listing of the ring with the line in it |
| Interpreter.HistoryListsItself | sish.c:279-281 | Typing `history` stores it and prints a listing whose last entry is the `history` line itself |
| Interpreter.TurnClearsHistory | sish.c:279-286 | A turn whose terminal stage is `history -c` stores the line, then clears, and prints nothing |
| Interpreter.ClearForgetsOnlyBelowCapacity | sish.c:266 | `history -c` typed when fewer than 99 lines are stored empties the ring (count 0, position 0, empty listing). Typed as the 100th or a later line, it only stores itself (sish.c:282-286) |
| Interpreter.TurnReportsHistoryFailure | sish.c:185-188 | A failing `history` stage stores the line, runs nothing and reports why: too many arguments, an offset out of bound (sish.c:293-317), or an invalid argument (sish.c:324-327) |
| Interpreter.HistoryFailuresAreStored | sish.c:324-327 | A typed `history` line that fails is still stored, runs nothing, and reports the failure |
| Interpreter.TurnRunsPipeline | sish.c:195-219 | A turn whose terminal stage is external stores the line and forks one child per stage, wired as parseLine and execute wire them. Then the parent closes every pipe, reaps and resets pipeCount (sish.c:77-93) |
| Interpreter.ExternalRunsPipeline | sish.c:77-93 | A typed line ending in an external command is stored by main and runs as that pipeline |
| Interpreter.RunStoredExternal | sish.c:318-322 | Replaying a line that ends in an external command runs its whole pipeline, numbering pipes on from those already open, and stores the invocation |
| Interpreter.ReplayExecutesStored | sish.c:288-322 | `history n`, with slot n holding a line that ends in an external command, runs that line's pipeline and stores the invocation |
| Interpreter.TurnReplaysStored | sish.c:288-322 | A turn whose only stage is `history n` runs the replayed line's pipeline, then closes the pipes, reaps and resets pipeCount (sish.c:82-92) |
| Interpreter.ReplayRunsStored | sish.c:288-322 | Typing `history n` replays slot n as above, and the ring stores `history n` |
| Interpreter.ReplayForksAsTyped | sish.c:288-322 | Replaying a stored external pipeline makes exactly the requests that typing it again would. Only the ring differs: it stores the invocation, not the replayed text |
| Interpreter.SelfReplayNeverSettles | sish.c:318-322 | A stored line that names its own slot (`history k` in slot k, or a line with no piece, which leaves args holding `history k`) replays itself until the nesting bound |
| Interpreter.FirstHistoryZero | sish.c:288-317 | On a fresh shell `history 0` finds no line 0: it stores itself, reports the offset, closes no pipe and reaps |
| Interpreter.SecondHistoryZero | sish.c:288-322 | With `history 0` in slot 0, typing it again replays it until the nesting bound |
| Interpreter.TypedSelfReplayNeverSettles | sish.c:47-94 | On a fresh shell, the lines `history 0`, `history 0` are enough for a replay that never settles: the first reports the offset, the second nests until the bound |
| Interpreter.TurnChangesDir | sish.c:174-182 | A cd stage calls chdir only with exactly one argument; otherwise it reports the error and calls no chdir (sish.c:236-240). The line is stored either way |
| Interpreter.CdRule | sish.c:174-182 | The same for a typed line ending in cd |
| Interpreter.BlankLastPieceLeaksPipe | sish.c:73-75 | A line whose last piece is blank forks its first stage and returns with pipeCount 1, closing and reaping nothing. A next line that is one external command then reads pipe 0 as its input, and that turn closes the one pipe, reaps and resets pipeCount (sish.c:83-92). Interpreter.LeftoverPipeFeedsFirstFork covers every next line that forks |
| Interpreter.ExecuteKeepsPipes | sish.c:172-221 | execute, replays included, never lowers pipeCount |
| Interpreter.ReplayKeepsPipes | sish.c:288-317 | A history replay never lowers pipeCount |
| Interpreter.RunStoredKeepsPipes | sish.c:318-322 | Running a recalled line adds its pipes and never lowers pipeCount |
| Interpreter.LeftoverPipeFeedsNextLine | sish.c:140-210 | With pipes left open by an earlier line, the next line that forks a child (a piped stage, or a one-stage external command) gives its first child the last leftover pipe as input. That turn's close (sish.c:83-91) covers at least the leftover and its own pipes, reaps, and resets pipeCount to 0 |
| Interpreter.ExecuteFirstFork | sish.c:172-221 | The first child execute forks, replays included, reads the newest pipe open when execute starts, or the terminal when none is open |
| Interpreter.ReplayFirstFork | sish.c:288-317 | The first child a history replay forks reads the newest pipe open when the replay starts |
| Interpreter.RunStoredFirstFork | sish.c:318-322 | A recalled line's first fork, a piped stage (sish.c:146-151) or the nested execute's, reads the newest pipe open before it |
| Interpreter.LeftoverPipeFeedsFirstFork | sish.c:140-210 | With pipes left open by an earlier line, the first child the next line forks, by a piped stage, an external command or a `history n` replay, reads the newest leftover pipe. When the line is dispatched, its close (sish.c:83-91) covers at least the leftover and its own pipes, it reaps, and pipeCount goes back to 0 |
| Interpreter.Start | sish.c:43-45 | The start-up state has no pipe and a ring whose live slots are all dispatchable (there are none) |
| Interpreter.Session | sish.c:47-94 | The whole read loop keeps the ring invariant |
| Interpreter.SessionEndsAtExit | sish.c:62-64 | The shell asks to exit exactly when it reads the line "exit", and makes no request after that (sish.c:224-233) |
| Interpreter.ExitOnlyOnExit | sish.c:224-233 | No line but "exit" makes a turn ask to exit, not even through replays |
| Interpreter.ExecuteNeverExits | sish.c:172-221 | execute, through any replay nesting, never asks to exit |
| Interpreter.ReplayNeverExits | sish.c:288-322 | A replay never asks to exit |
| Interpreter.RunStoredNeverExits | sish.c:318-322 | The replay of a resolved line never asks to exit |
| Interpreter.SessionNeverNull | sish.c:47-94 | Starting from start-up, no session ever calls execute with args[0] == NULL, and every live slot stays a dispatchable line |
| Shell.LineRead | sish.c:116-136 | When the outer strtok_r loop ends, args holds the terminal stage, pipeCount has grown by the line's pipes, and exactly the plan's children were forked |
| Shell.TokensOf | sish.c:119-123 | The inner strtok_r loop collects exactly the piece's tokens |
| Shell.Sish.constructor | sish.c:43-45 | The shell starts with the empty ring, no pipe and no request made |
| Shell.Sish.ParseLine | sish.c:113-137 | args ends as the last piece's tokens (or as it was, for a line with no piece). pipeCount grows by the line's pipes. Exactly the plan's children are forked, in order |
| Shell.Sish.ReadPiece | sish.c:119-135 | One pass of the outer loop reads the piece's tokens, moves strtok_r forward, and forks the piece's child and counts a pipe when another piece follows |
| Shell.Sish.ExecutePiped | sish.c:140-169 | Forks a child that reads pipe pipeCount-1 (unless first), writes pipe pipeCount and closes pipes 0..pipeCount |
| Shell.Sish.Execute | sish.c:172-221 | The new ring, pipeCount and requests are exactly Interpreter.Execute's |
| Shell.Sish.ExecuteHistory | sish.c:278-328 | The new ring, pipeCount and requests are exactly Interpreter.Execute's for a history stage of at most one argument |
| Shell.Sish.ReplayLine | sish.c:318-322 | Parsing the resolved line, storing str and executing with "" gives exactly Interpreter.RunStored's state and requests |
| Shell.Sish.Resume | sish.c:321-322 | The nested execute: NULL args, the nesting bound, or Interpreter.Execute with "" |
| Shell.Sish.Run | sish.c:47-94 | The read loop returns whether "exit" was read, and its state and requests are exactly Interpreter.Session's |
| Shell.Sish.Step | sish.c:47-94 | A turn reports exit exactly for "exit", and its state and requests are exactly Interpreter.Step's |
| Shell.Sish.Dispatch | sish.c:76-93 | The store in main, execute, the close of every pipe, the reap and the reset of pipeCount, as Interpreter.Turn has them |

## Left out

- Processes, pipes and the working directory are not modelled. `fork`, `execvp`, `dup2`, `close`, `pipe`, `wait` and `chdir` appear only as requests in the effect list (`Fork` with the child's wiring, `ChangeDir`, `CloseParentPipes`, `Reap`). The pipeline's concurrent execution is out of scope.
- The creation of each pipe (sish.c:129) is not a request of its own. A `Fork` of a piped child implies that its pipe was created just before.
- Failures of `pipe`, `fork`, `dup2`, `execvp` and `chdir` are not modelled. After the `perror` the C code carries on as if the call had worked.
- Input and output are left out: `getline`, the newline stripping and the EOF path (sish.c:51-61), and the prompt. `Run` and `Step` take lines already stripped of their newline. On EOF the C code goes on with `charRead == -1`, which is undefined.
- The text printed by `printf` and `perror` is not modelled. A listing is a `Printed` request holding the entries, and each error is a `Report` of one `Failure` value.
- `malloc` and `free` of the ring buffers are left out (sish.c:43-45, 226-230). `shellExit` is the `Exit` request.
- The fixed sizes are not modelled: the 10000-character buffers, `args[100]` and `fd[100]`. Strings and token lists are unbounded.
- Builtins.Atoi: reads any digit string as an unbounded natural number; C's `atoi` overflows `int` on very long digit strings.
- History.Append: `commandLineCount` is an unbounded natural number; the C `int` would overflow after 2^31 - 1 stored lines.
- Interpreter.RunStored: replays nest at most `fuel` deep, after which the model requests `ReplayTooDeep`. The C program recurses without bound, until its stack runs out. Typing `history 0` twice on a fresh shell is enough for that (Interpreter.TypedSelfReplayNeverSettles).
- Shell.Sish.Resume: bounds the nesting by the same `fuel`.
- Interpreter.Step: a line is any sequence of characters, and `'\0'` is an ordinary character in it. In C a line ends at its first NUL: `strcmp`, `strtok_r` and `strcpy` see only the text before it. So "exit\0x" exits in C but not in the model, and "ls\0|wc" is one stage `ls` in C but two stages in the model, and is stored whole. Lines without a NUL behave the same in both.
- Shell.Sish.Step: treats `'\0'` as an ordinary character, as Interpreter.Step does.
- Interpreter.Session: treats `'\0'` in a line as an ordinary character, as Interpreter.Step does.
- Shell.Sish.Run: treats `'\0'` in a line as an ordinary character, as Interpreter.Step does.
- Pipeline.Parse: cuts the whole string, including anything after a `'\0'`, where parseLine stops at the first NUL.
- In the first turn `args[0]` is uninitialised in C. The model takes it as NULL, which matters only for a first line with no piece at all.
- `strtok_r` writes `'\0'` into the line buffer. The model walks an unchanged string by position instead.
- The extra `args[argCount+1] = NULL` at sish.c:127 is not modelled. It writes past the piece's terminator and is overwritten or ignored.
- `argCount` is modelled as the number of tokens in `args`. The two differ only when a replayed line has no piece: `argCount` is 0 while `args` still holds `history n`. Both fail the `> 2` test, so the same branch runs.
