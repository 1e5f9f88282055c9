/**
 * What parseLine makes of a line: its stages (pieces between '|', each cut into tokens
 * at ' '), the terminal stage whose tokens are left in args, and the wiring of the
 * children forked for the stages, numbered by the pipes of fd[][2].
 */
module Pipeline {
  import opened Options
  import opened Tokenizer

  /** The tokens of one piece of the line; token 0 is the program name. */
  type Stage = seq<string>

  /** The stages of a line, left to right. */
  function Parse(line: string): (stages: seq<Stage>)
  {
    var pieces := Split(line, '|');
    seq(|pieces|, i requires 0 <= i < |pieces| => Split(pieces[i], ' '))
  }

  /** The tokens args holds once parseLine returns: those of the last piece, since
      argCount is reset to 0 before each following piece (sish.c:133). A line with no
      piece leaves args[0] as the read loop set it, NULL. */
  function Terminal(stages: seq<Stage>): Stage
  {
    if stages == [] then [] else stages[|stages| - 1]
  }

  /** What args holds once parseLine returns when it held prior before: parseLine writes
      args[0] only for a piece, so a line with no piece at all (nothing but '|'
      characters) leaves args as it was. */
  function ArgsAfter(stages: seq<Stage>, prior: seq<string>): (args: Stage)
    ensures stages != [] ==> args == Terminal(stages)
    ensures stages == [] ==> args == prior
  {
    if stages == [] then prior else Terminal(stages)
  }

  /** The number of pipes parseLine creates: one before each piece that is followed by
      another. */
  function Pipes(stages: seq<Stage>): nat
  {
    if stages == [] then 0 else |stages| - 1
  }

  /** A line that gets past the `args[0] == NULL` test of the read loop (sish.c:73-75). */
  predicate IsCommand(line: string)
  {
    Terminal(Parse(line)) != []
  }

  /** A forked child: the argument vector it executes, the pipe whose read end becomes its
      standard input and the pipe whose write end becomes its standard output (None:
      inherited from the shell), and how many pipes it closes, both ends of fd[0] up to
      fd[closes - 1], before execvp. */
  datatype Child = Child(argv: seq<string>, stdin: Option<nat>, stdout: Option<nat>, closes: nat)

  /** executePiped (sish.c:140-169), forked after pipe p was created: it reads pipe p-1
      unless it is the first (p == 0), writes pipe p, and closes pipes 0 to p. */
  function PipedChild(argv: seq<string>, p: nat): Child
  {
    Child(argv, if p != 0 then Some(p - 1) else None, Some(p), p + 1)
  }

  /** The child execute forks for an external terminal stage (sish.c:195-219) when p pipes
      exist: it reads pipe p-1 and closes pipes 0 to p-1 when p > 0, and is left alone
      otherwise. */
  function LastChild(argv: seq<string>, p: nat): Child
  {
    Child(argv, if p > 0 then Some(p - 1) else None, None, p)
  }

  /** The children parseLine forks, in order, when base pipes already exist. */
  function Plan(stages: seq<Stage>, base: nat): (children: seq<Child>)
    ensures |children| == Pipes(stages)
  {
    seq(Pipes(stages), i requires 0 <= i < Pipes(stages) => PipedChild(stages[i], base + i))
  }

  /** Stage i is piece i of the line cut at blanks. */
  lemma ParseAt(line: string, i: nat)
    requires i < |Split(line, '|')|
    ensures |Parse(line)| == |Split(line, '|')|
    ensures Parse(line)[i] == Split(Split(line, '|')[i], ' ')
  {
  }

  /** Child i of the plan is the piped child of stage i, forked after pipe base + i. */
  lemma PlanAt(stages: seq<Stage>, base: nat, i: nat)
    requires i < Pipes(stages)
    ensures Plan(stages, base)[i] == PipedChild(stages[i], base + i)
  {
  }

  /** Every child of a pipeline whose terminal stage is an external program. */
  function Children(stages: seq<Stage>, base: nat): seq<Child>
    requires stages != []
  {
    Plan(stages, base) + [LastChild(Terminal(stages), base + Pipes(stages))]
  }

  /** The wiring of a k-stage pipeline: one child per stage running that stage's tokens;
      child i writes pipe base+i and child i+1 reads it; the last child writes the shell's
      standard output; the first reads the shell's standard input only when no pipe
      existed before the line; and every child closes every pipe created before it was
      forked. */
  lemma PipelineConnected(stages: seq<Stage>, base: nat)
    requires stages != []
    ensures |Children(stages, base)| == |stages|
    ensures forall i | 0 <= i < |stages| :: Children(stages, base)[i].argv == stages[i]
    ensures forall i | 0 <= i < |stages| - 1 :: Children(stages, base)[i].stdout == Some(base + i)
    ensures forall i | 0 < i < |stages| :: Children(stages, base)[i].stdin == Some(base + i - 1)
    ensures Children(stages, base)[|stages| - 1].stdout == None
    ensures Children(stages, base)[0].stdin == if base == 0 then None else Some(base - 1)
    ensures forall i | 0 <= i < |stages| - 1 :: Children(stages, base)[i].closes == base + i + 1
    ensures Children(stages, base)[|stages| - 1].closes == base + Pipes(stages)
  {
    var n := |stages|;
    var plan := Plan(stages, base);
    var cs := Children(stages, base);
    assert cs == plan + [LastChild(stages[n - 1], base + n - 1)];
    forall i | 0 <= i < n - 1
      ensures cs[i] == PipedChild(stages[i], base + i)
    {
      assert cs[i] == plan[i];
    }
  }

  /** Only the terminal stage reaches execute: a line of k stages has k - 1 forked before
      dispatch and its terminal tokens are the last piece's. */
  lemma TerminalIsLastPiece(line: string)
    ensures |Parse(line)| == |Split(line, '|')|
    ensures |Plan(Parse(line), 0)| + (if Parse(line) == [] then 0 else 1) == |Parse(line)|
    ensures Parse(line) != [] ==>
      Terminal(Parse(line)) == Split(Split(line, '|')[|Split(line, '|')| - 1], ' ')
  {
    var pieces := Split(line, '|');
    var stages := Parse(line);
    if stages != [] {
      assert stages[|stages| - 1] == Split(pieces[|pieces| - 1], ' ');
    }
  }

  /** Every character of a token comes from the string it was cut from. */
  lemma {:induction false} SplitFromChars(s: string, i: nat, d: char)
    requires i <= |s|
    ensures forall p, c | p in SplitFrom(s, i, d) && c in p :: c in s
    decreases |s| - i
  {
    var t := StrTok(s, i, d);
    if t.token.Some? {
      SplitFromChars(s, t.save, d);
      var k := SkipDelims(s, i, d);
      var e := RunEnd(s, k, d);
      assert t.token.value == s[k..e];
      forall c | c in s[k..e]
        ensures c in s
      {
        var j :| k <= j < e && s[j] == c;
      }
    }
  }

  /** No token is empty, and none contains a blank or a pipe character. */
  lemma TokenIsClean(line: string, i: nat, tok: string)
    requires i < |Parse(line)| && tok in Parse(line)[i]
    ensures tok != "" && ' ' !in tok && '|' !in tok
  {
    var pieces := Split(line, '|');
    var piece := pieces[i];
    assert piece in pieces;
    assert Parse(line)[i] == Split(piece, ' ') == SplitFrom(piece, 0, ' ');
    SplitFromClean(line, 0, '|');
    SplitFromClean(piece, 0, ' ');
    SplitFromChars(piece, 0, ' ');
  }

  /** Every character of Join(ps, d) is d or a character of one of the pieces. */
  lemma {:induction false} JoinChars(ps: seq<string>, d: char)
    ensures forall c | c in Join(ps, d) :: c == d || exists p | p in ps :: c in p
    decreases |ps|
  {
    if |ps| > 1 {
      JoinChars(ps[1..], d);
      forall c | c in Join(ps, d)
        ensures c == d || exists p | p in ps :: c in p
      {
        if c in ps[0] {
          assert ps[0] in ps;
        } else if c != d {
          assert c in Join(ps[1..], d);
          var p :| p in ps[1..] && c in p;
          assert p in ps;
        }
      }
    } else if |ps| == 1 {
      assert ps[0] in ps;
    }
  }

  /** The line of a pipeline: tokens joined by one blank, stages joined by '|'. */
  function Unparse(stages: seq<Stage>): string
  {
    Join(seq(|stages|, i requires 0 <= i < |stages| => Join(stages[i], ' ')), '|')
  }

  /** Round trip: writing out stages of clean tokens and parsing the line gives them
      back. */
  lemma ParseUnparse(stages: seq<Stage>)
    requires forall i | 0 <= i < |stages| :: stages[i] != []
    requires forall i, tok | 0 <= i < |stages| && tok in stages[i] ::
      tok != "" && ' ' !in tok && '|' !in tok
    ensures Parse(Unparse(stages)) == stages
  {
    var pieces := seq(|stages|, i requires 0 <= i < |stages| => Join(stages[i], ' '));
    forall p | p in pieces
      ensures p != [] && '|' !in p
    {
      var i :| 0 <= i < |stages| && pieces[i] == p;
      assert stages[i] != [];
      var first := stages[i][0];
      assert first in stages[i];
      assert first != "" && ' ' !in first && '|' !in first;
      assert p == Join(stages[i], ' ');
      assert p != [] by {
        if |stages[i]| > 1 {
          assert p == first + [' '] + Join(stages[i][1..], ' ');
        }
      }
      JoinChars(stages[i], ' ');
    }
    SplitJoin(pieces, '|');
    forall i | 0 <= i < |stages|
      ensures Split(pieces[i], ' ') == stages[i]
    {
      forall tok | tok in stages[i]
        ensures tok != [] && ' ' !in tok
      {
        assert tok != "" && ' ' !in tok && '|' !in tok;
      }
      SplitJoin(stages[i], ' ');
    }
  }

  /** A line that is one word, with no blank and no pipe, is one stage of one token. */
  lemma ParseWord(w: string)
    requires w != [] && ' ' !in w && '|' !in w
    ensures Parse(w) == [[w]]
  {
    RunAtEnd(w, 0, w, '|');
    RunAtEnd(w, 0, w, ' ');
  }
}
