/**
 * The checks execute and executeHistory make on the terminal stage's tokens before
 * running a built-in: isNumber, atoi, and the argument-count tests of `cd` and
 * `history`.
 */
module Builtins {

  /** isdigit in the C locale. */
  predicate IsDigit(c: char)
  {
    '0' <= c <= '9'
  }

  predicate AllDigits(s: string)
  {
    forall i | 0 <= i < |s| :: IsDigit(s[i])
  }

  /** isNumber (sish.c:331-341): walks the string and answers 0 at the first character
      that is not a digit, 1 at the end; so the empty string is a number. */
  method IsNumber(s: string) returns (b: bool)
    ensures b <==> AllDigits(s)
  {
    var i := 0;
    while i < |s|
      invariant 0 <= i <= |s|
      invariant forall j | 0 <= j < i :: IsDigit(s[j])
    {
      if !IsDigit(s[i]) {
        return false;
      }
      i := i + 1;
    }
    return true;
  }

  function DigitValue(c: char): nat
    requires IsDigit(c)
  {
    (c as int) - ('0' as int)
  }

  /** atoi on a string of decimal digits (the only strings executeHistory gives it). */
  function Atoi(s: string): nat
    requires AllDigits(s)
  {
    if s == [] then 0 else Atoi(s[..|s| - 1]) * 10 + DigitValue(s[|s| - 1])
  }

  /** The decimal numeral of n, without leading zeros. */
  function Decimal(n: nat): (s: string)
    ensures s != [] && AllDigits(s)
  {
    var last := ('0' as int + n % 10) as char;
    if n < 10 then [last] else Decimal(n / 10) + [last]
  }

  /** Every offset has a numeral that atoi reads back. */
  lemma {:induction false} AtoiDecimal(n: nat)
    ensures Atoi(Decimal(n)) == n
  {
    var s := Decimal(n);
    if n >= 10 {
      assert s[..|s| - 1] == Decimal(n / 10);
      AtoiDecimal(n / 10);
    }
  }

  /** Leading zeros do not change the offset: `history 007` replays what `history 7`
      replays. */
  lemma {:induction false} AtoiLeadingZero(s: string)
    requires AllDigits(s)
    ensures AllDigits("0" + s) && Atoi("0" + s) == Atoi(s)
    decreases |s|
  {
    var z := "0" + s;
    if s != [] {
      assert z[..|z| - 1] == "0" + s[..|s| - 1];
      assert z[|z| - 1] == s[|s| - 1];
      AtoiLeadingZero(s[..|s| - 1]);
    }
  }

  /** What execute does with the terminal stage, decided by its first token and by
      argCount (the number of tokens). */
  datatype Command =
    | CdTooMany
    | CdMissing
    | Cd(dir: string)
    | HistoryTooMany
    | HistoryList
    | HistoryClear
    | HistoryReplay(offset: nat)
    | HistoryInvalid
    | External(argv: seq<string>)

  /** The dispatch of execute (sish.c:172-221), cd (sish.c:236-240) and executeHistory
      (sish.c:278-328). */
  function Classify(args: seq<string>): Command
    requires args != []
  {
    if args[0] == "cd" then
      if |args| > 2 then CdTooMany
      else if |args| == 1 then CdMissing
      else Cd(args[1])
    else if args[0] == "history" then
      if |args| > 2 then HistoryTooMany
      else if |args| == 1 then HistoryList
      else if args[1] == "-c" then HistoryClear
      else if AllDigits(args[1]) then HistoryReplay(Atoi(args[1]))
      else HistoryInvalid
    else External(args)
  }

  /** Each command of the dispatch is chosen by exactly the words and the argument count
      the C code tests: anything but cd and history is run as a program with args as
      its argument vector; cd takes exactly one argument; history takes at most one,
      which is -c or a decimal offset. */
  lemma ClassifyDecides(args: seq<string>)
    requires args != []
    ensures var c := Classify(args);
      && (c.External? <==> args[0] != "cd" && args[0] != "history")
      && (c.External? ==> c.argv == args)
      && (c == CdTooMany <==> args[0] == "cd" && |args| > 2)
      && (c == CdMissing <==> args == ["cd"])
      && (c.Cd? <==> |args| == 2 && args[0] == "cd")
      && (c.Cd? ==> c.dir == args[1])
      && (c == HistoryTooMany <==> args[0] == "history" && |args| > 2)
      && (c == HistoryList <==> args == ["history"])
      && (c == HistoryClear <==> args == ["history", "-c"])
      && (c.HistoryReplay? <==>
            |args| == 2 && args[0] == "history" && args[1] != "-c" && AllDigits(args[1]))
      && (c.HistoryReplay? ==> c.offset == Atoi(args[1]))
      && (c == HistoryInvalid <==>
            |args| == 2 && args[0] == "history" && args[1] != "-c" && !AllDigits(args[1]))
  {
  }
}
