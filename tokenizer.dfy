/**
 * The tokenizer of the shell: the C library's strtok_r, as parseLine uses it to cut a
 * line at '|' and each piece at ' '. Runs of delimiters collapse, leading and trailing
 * delimiters are skipped, and no empty piece is ever produced.
 */
module Tokenizer {
  import opened Options

  /** What one strtok_r call leaves behind: the token it found (None once only
      delimiters remain) and the saved position where the next call resumes. */
  datatype Tok = Tok(token: Option<string>, save: nat)

  /** The first index at or after i whose character is not the delimiter (|s| if none). */
  function SkipDelims(s: string, i: nat, d: char): (k: nat)
    requires i <= |s|
    ensures i <= k <= |s|
    ensures forall j | i <= j < k :: s[j] == d
    ensures k < |s| ==> s[k] != d
    decreases |s| - i
  {
    if i == |s| || s[i] != d then i else SkipDelims(s, i + 1, d)
  }

  /** The first index at or after i whose character is the delimiter (|s| if none). */
  function RunEnd(s: string, i: nat, d: char): (e: nat)
    requires i <= |s|
    ensures i <= e <= |s|
    ensures forall j | i <= j < e :: s[j] != d
    ensures e < |s| ==> s[e] == d
    decreases |s| - i
  {
    if i == |s| || s[i] == d then i else RunEnd(s, i + 1, d)
  }

  /** One call of strtok_r(NULL, d, &save) on the buffer s: skip delimiters, take the
      maximal run of non-delimiters, and resume after the delimiter that ended it
      (strtok_r overwrites that delimiter with '\0'). */
  function StrTok(s: string, save: nat, d: char): (t: Tok)
    requires save <= |s|
    ensures t.save <= |s|
    ensures t.token.Some? ==> save < t.save && t.token.value != [] && d !in t.token.value
    ensures t.token.None? ==> forall j | save <= j < |s| :: s[j] == d
  {
    var k := SkipDelims(s, save, d);
    if k == |s| then Tok(None, |s|)
    else
      var e := RunEnd(s, k, d);
      Tok(Some(s[k..e]), if e < |s| then e + 1 else e)
  }

  /** Every token the strtok_r loop returns when started at position i. */
  function SplitFrom(s: string, i: nat, d: char): (pieces: seq<string>)
    requires i <= |s|
    decreases |s| - i
  {
    var t := StrTok(s, i, d);
    if t.token.None? then [] else [t.token.value] + SplitFrom(s, t.save, d)
  }

  /** The tokens of the whole string: the strtok_r loop started at the beginning. */
  function Split(s: string, d: char): (pieces: seq<string>)
  {
    SplitFrom(s, 0, d)
  }

  /** No token is empty and none contains the delimiter. */
  lemma {:induction false} SplitFromClean(s: string, i: nat, d: char)
    requires i <= |s|
    ensures forall p | p in SplitFrom(s, i, d) :: p != [] && d !in p
    decreases |s| - i
  {
    var t := StrTok(s, i, d);
    if t.token.Some? {
      SplitFromClean(s, t.save, d);
    }
  }

  /** The tokens a strtok_r loop has still to hand out once its last call returned t:
      t's token, if any, and everything after t's resume position. */
  function Pending(s: string, t: Tok, d: char): seq<string>
    requires t.save <= |s|
  {
    if t.token.None? then [] else [t.token.value] + SplitFrom(s, t.save, d)
  }

  /** Before the loop, the first call has been made and every token is pending. */
  lemma PendingStart(s: string, d: char)
    ensures Pending(s, StrTok(s, 0, d), d) == Split(s, d)
  {
  }

  /** Each further call hands out the next pending token. */
  lemma PendingStep(s: string, t: Tok, d: char)
    requires t.save <= |s| && t.token.Some?
    ensures Pending(s, t, d) == [t.token.value] + Pending(s, StrTok(s, t.save, d), d)
  {
  }

  /** The pieces glued back together with nothing between them. */
  function Concat(ps: seq<string>): string
  {
    if ps == [] then [] else ps[0] + Concat(ps[1..])
  }

  /** The string with every occurrence of d deleted. */
  function Without(s: string, d: char): string
  {
    if s == [] then [] else (if s[0] == d then [] else [s[0]]) + Without(s[1..], d)
  }

  /** The pieces joined with exactly one delimiter between neighbours. */
  function Join(ps: seq<string>, d: char): string
  {
    if |ps| <= 1 then (if ps == [] then [] else ps[0]) else ps[0] + [d] + Join(ps[1..], d)
  }

  lemma {:induction false} WithoutAppend(a: string, b: string, d: char)
    ensures Without(a + b, d) == Without(a, d) + Without(b, d)
    decreases |a|
  {
    if a != [] {
      assert (a + b)[0] == a[0];
      assert (a + b)[1..] == a[1..] + b;
      WithoutAppend(a[1..], b, d);
    } else {
      assert a + b == b;
    }
  }

  lemma {:induction false} WithoutAllDelims(s: string, d: char)
    requires forall j | 0 <= j < |s| :: s[j] == d
    ensures Without(s, d) == []
    decreases |s|
  {
    if s != [] {
      assert s[0] == d;
      assert forall j | 0 <= j < |s[1..]| :: s[1..][j] == s[j + 1];
      WithoutAllDelims(s[1..], d);
    }
  }

  lemma {:induction false} WithoutNoDelims(s: string, d: char)
    requires d !in s
    ensures Without(s, d) == s
    decreases |s|
  {
    if s != [] {
      assert s[0] in s;
      assert forall c | c in s[1..] :: c in s;
      WithoutNoDelims(s[1..], d);
    }
  }

  /** The text from the resume position up to the end of the next token loses nothing
      but delimiters. */
  lemma TokenKeepsText(s: string, i: nat, d: char)
    requires i <= |s|
    requires StrTok(s, i, d).token.Some?
    ensures Without(s[i..], d) ==
      StrTok(s, i, d).token.value + Without(s[StrTok(s, i, d).save..], d)
  {
    var t := StrTok(s, i, d);
    var k := SkipDelims(s, i, d);
    var e := RunEnd(s, k, d);
    var next: nat := t.save;
    var lead, word, tail := s[i..k], s[k..e], s[e..];
    assert t.token.value == word;
    assert s[i..] == lead + (word + tail);
    assert Without(tail, d) == Without(s[next..], d) by {
      if e < |s| {
        assert next == e + 1;
        assert tail[0] == d && tail[1..] == s[next..];
        assert Without(tail, d) == [] + Without(tail[1..], d);
      } else {
        assert next == e;
      }
    }
    assert forall c | c in word :: c != d;
    calc {
      Without(s[i..], d);
      == { WithoutAppend(lead, word + tail, d); }
      Without(lead, d) + Without(word + tail, d);
      == { WithoutAllDelims(lead, d); }
      Without(word + tail, d);
      == { WithoutAppend(word, tail, d); WithoutNoDelims(word, d); }
      word + Without(tail, d);
    }
  }

  /** Nothing but delimiters is lost: the tokens, glued together, are the string with its
      delimiters removed. */
  lemma {:induction false} ConcatSplitFrom(s: string, i: nat, d: char)
    requires i <= |s|
    ensures Concat(SplitFrom(s, i, d)) == Without(s[i..], d)
    decreases |s| - i
  {
    var t := StrTok(s, i, d);
    if t.token.None? {
      WithoutAllDelims(s[i..], d);
    } else {
      TokenKeepsText(s, i, d);
      ConcatSplitFrom(s, t.save, d);
    }
  }

  /** Split keeps every non-delimiter character, in order. */
  lemma SplitKeepsText(s: string, d: char)
    ensures Concat(Split(s, d)) == Without(s, d)
  {
    ConcatSplitFrom(s, 0, d);
    assert s[0..] == s;
  }

  /** A delimiter at the resume position is skipped: runs of delimiters collapse. */
  lemma SplitSkipsDelimiter(s: string, i: nat, d: char)
    requires i < |s| && s[i] == d
    ensures SplitFrom(s, i, d) == SplitFrom(s, i + 1, d)
  {
  }

  /** RunEnd is determined by its postconditions. */
  lemma {:induction false} RunEndIs(s: string, i: nat, e: nat, d: char)
    requires i <= e <= |s|
    requires forall j | i <= j < e :: s[j] != d
    requires e < |s| ==> s[e] == d
    ensures RunEnd(s, i, d) == e
    decreases e - i
  {
    if i < e {
      RunEndIs(s, i + 1, e, d);
    }
  }

  /** A run that copies t occupies only non-delimiter characters. */
  lemma RunHasNoDelims(s: string, i: nat, t: string, d: char)
    requires d !in t
    requires i + |t| <= |s| && s[i..i + |t|] == t
    ensures forall j | i <= j < i + |t| :: s[j] != d
  {
    forall j | i <= j < i + |t|
      ensures s[j] != d
    {
      assert s[j] == s[i..i + |t|][j - i];
      assert t[j - i] in t;
    }
  }

  /** A non-empty, delimiter-free run t followed by a delimiter becomes one token, and
      the scan resumes just after that delimiter. */
  lemma RunThenDelimiter(s: string, i: nat, t: string, d: char)
    requires t != [] && d !in t
    requires i + |t| < |s| && s[i..i + |t|] == t && s[i + |t|] == d
    ensures SplitFrom(s, i, d) == [t] + SplitFrom(s, i + |t| + 1, d)
  {
    RunHasNoDelims(s, i, t, d);
    assert SkipDelims(s, i, d) == i;
    RunEndIs(s, i, i + |t|, d);
    assert StrTok(s, i, d) == Tok(Some(t), i + |t| + 1);
  }

  /** The same, once the pieces after the delimiter are known. */
  lemma RunThenPieces(s: string, i: nat, t: string, d: char, j: nat, rest: seq<string>)
    requires t != [] && d !in t
    requires i + |t| < |s| && s[i..i + |t|] == t && s[i + |t|] == d
    requires j == i + |t| + 1 && SplitFrom(s, j, d) == rest
    ensures SplitFrom(s, i, d) == [t] + rest
  {
    RunThenDelimiter(s, i, t, d);
  }

  /** A non-empty, delimiter-free run t that ends the string is its last token. */
  lemma RunAtEnd(s: string, i: nat, t: string, d: char)
    requires t != [] && d !in t
    requires i + |t| == |s| && s[i..] == t
    ensures SplitFrom(s, i, d) == [t]
  {
    assert s[i..i + |t|] == s[i..];
    RunHasNoDelims(s, i, t, d);
    assert SkipDelims(s, i, d) == i;
    RunEndIs(s, i, |s|, d);
    assert StrTok(s, i, d) == Tok(Some(t), |s|);
  }

  /** Reading a run and a delimiter off the front of a suffix of s. */
  lemma SliceAfterRun(s: string, i: nat, t: string, d: char, rest: string)
    requires i <= |s| && s[i..] == t + [d] + rest
    ensures i + |t| < |s| && s[i..i + |t|] == t && s[i + |t|] == d
    ensures s[i + |t| + 1..] == rest
  {
    var u := s[i..];
    assert s[i..i + |t|] == u[..|t|];
    assert s[i + |t|] == u[|t|];
    assert s[i + |t| + 1..] == u[|t| + 1..];
  }

  lemma {:induction false} SplitFromJoin(s: string, i: nat, ps: seq<string>, d: char)
    requires forall p | p in ps :: p != [] && d !in p
    requires i <= |s| && s[i..] == Join(ps, d)
    ensures SplitFrom(s, i, d) == ps
    decreases |ps|
  {
    if ps == [] {
      assert |s[i..]| == 0;
      assert SkipDelims(s, i, d) == |s|;
    } else if |ps| == 1 {
      assert ps[0] in ps;
      assert s[i..] == ps[0];
      RunAtEnd(s, i, ps[0], d);
    } else {
      var t, rest := ps[0], ps[1..];
      assert t != [] && d !in t by {
        assert t in ps;
      }
      assert forall p | p in rest :: p != [] && d !in p by {
        assert forall p | p in rest :: p in ps;
      }
      var j := i + |t| + 1;
      assert s[i..] == t + [d] + Join(rest, d);
      SliceAfterRun(s, i, t, d, Join(rest, d));
      SplitFromJoin(s, j, rest, d);
      RunThenPieces(s, i, t, d, j, rest);
      assert ps == [t] + rest;
    }
  }

  /** Round trip: joining non-empty, delimiter-free pieces with the delimiter and
      splitting again gives back exactly those pieces. */
  lemma SplitJoin(ps: seq<string>, d: char)
    requires forall p | p in ps :: p != [] && d !in p
    ensures Split(Join(ps, d), d) == ps
  {
    var s := Join(ps, d);
    assert s[0..] == s;
    SplitFromJoin(s, 0, ps, d);
  }
}
