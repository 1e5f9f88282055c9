/**
 * The command history of the shell: a ring of 100 slots (commandLines), the number of
 * lines ever accepted since the last clear (commandLineCount) and the slot the next line
 * goes to (position). The functions give the ring as a value; the class CommandHistory
 * is the same ring updated in place, as the C globals are.
 */
module History {
  import opened Options

  /** The number of slots, fixed by the declaration commandLines[100]. */
  const Capacity: nat := 100

  /** The three globals as one value. */
  datatype Ring = Ring(slots: seq<string>, count: nat, position: int)

  /** One line of `history` output: the visit order and the stored text. */
  datatype Entry = Entry(index: nat, text: string)

  /** The ring's invariant: a slot array of the right size and a position that is
      always the count taken modulo the capacity. */
  ghost predicate WellFormed(r: Ring)
  {
    |r.slots| == Capacity && 0 <= r.position < Capacity && r.position == r.count % Capacity
  }

  /** The ring at start-up: nothing accepted yet. */
  function Empty(): (r: Ring)
    ensures WellFormed(r)
  {
    Ring(seq(Capacity, _ => ""), 0, 0)
  }

  /** How many slots hold a line that can still be listed or replayed. */
  function Size(r: Ring): nat
  {
    if r.count < Capacity then r.count else Capacity
  }

  /** The slot of the oldest surviving line. */
  function Oldest(r: Ring): int
  {
    if r.count < Capacity then 0 else r.position
  }

  /** The texts of the live slots, in slot order. */
  function LiveSlots(r: Ring): (live: seq<string>)
    requires WellFormed(r)
    ensures |live| == Size(r)
  {
    if r.count < Capacity then r.slots[..r.count] else r.slots
  }

  /** storeCommandLine (sish.c:98-109): an empty line is ignored; any other line goes to
      the slot at position, the count grows by one, and position moves on, back to 0
      whenever the count reaches a multiple of 100. */
  function Append(r: Ring, s: string): (r': Ring)
    requires WellFormed(r)
    ensures WellFormed(r')
    ensures s == "" ==> r' == r
    ensures s != "" ==> r'.count == r.count + 1 && r'.slots == r.slots[r.position := s]
  {
    if s == "" then r
    else
      var count := r.count + 1;
      var position := r.position + 1;
      Ring(r.slots[r.position := s], count, if count % Capacity == 0 then 0 else position)
  }

  /** `history` with no argument (sish.c:249-275): below 100 lines, slots 0 to count-1;
      from 100 lines on, all 100 slots starting at position and wrapping around. */
  function Listing(r: Ring): (entries: seq<Entry>)
    requires WellFormed(r)
    ensures |entries| == Size(r)
    ensures forall k | 0 <= k < |entries| :: entries[k].index == k
  {
    if r.count < Capacity then
      seq(r.count, i requires 0 <= i < r.count => Entry(i, r.slots[i]))
    else
      seq(Capacity, i requires 0 <= i < Capacity => Entry(i, r.slots[(r.position + i) % Capacity]))
  }

  /** `history -c` (sish.c:249-275 with arg "-c", then sish.c:282-286). Below 100 lines the
      live slots are blanked and count and position drop back to 0. From 100 lines on the
      test `strcpy(arg, "-c") == 0` is never true, so nothing is blanked and the ring is
      left as it was. */
  function Cleared(r: Ring): (r': Ring)
    requires WellFormed(r)
    ensures WellFormed(r')
    ensures r.count < Capacity ==>
      r'.count == 0 && r'.position == 0 && LiveSlots(r') == [] &&
      (forall i | 0 <= i < r.count :: r'.slots[i] == "") &&
      (forall i | r.count <= i < Capacity :: r'.slots[i] == r.slots[i])
    ensures r.count >= Capacity ==> r' == r
  {
    if r.count < Capacity then
      Ring(seq(Capacity, i requires 0 <= i < Capacity => if i < r.count then "" else r.slots[i]),
           0, r.position - r.count)
    else r
  }

  /** The line `history <offset>` replays (sish.c:293-317), or None when the offset is out
      of bound. */
  function Lookup(r: Ring, offset: int): (text: Option<string>)
    requires WellFormed(r)
    ensures text.Some? ==> text.value in LiveSlots(r)
  {
    if r.count < Capacity then
      if 0 <= offset < r.count then Some(r.slots[offset]) else None
    else if 0 <= offset < Capacity then
      if r.count % Capacity != 0 then Some(r.slots[(offset + r.position) % Capacity])
      else Some(r.slots[offset])
    else None
  }

  /** One step of the listing loop's cursor: position++, back to 0 at 100. */
  function NextSlot(p: int): int
  {
    if p + 1 == Capacity then 0 else p + 1
  }

  /** Where the cursor is after n steps of the listing loop. */
  function Advance(p: int, n: nat): int
  {
    if n == 0 then p else NextSlot(Advance(p, n - 1))
  }

  lemma {:induction false} AdvanceIsModular(p: int, n: nat)
    requires 0 <= p < Capacity
    ensures Advance(p, n) == (p + n) % Capacity
  {
    if n > 0 {
      AdvanceIsModular(p, n - 1);
    }
  }

  /** A full pass of the listing loop (100 steps) leaves position where it started. */
  lemma FullPassRestoresPosition(p: int)
    requires 0 <= p < Capacity
    ensures Advance(p, Capacity) == p
  {
    AdvanceIsModular(p, Capacity);
  }

  // ---------------------------------------------------------------------------------
  // The abstract history: the lines accepted since the last clear, of which the ring
  // keeps the last (at most) 100.

  /** The last min(|log|, 100) lines of the log, oldest first. */
  function Window(log: seq<string>): (w: seq<string>)
    ensures |w| == if |log| < Capacity then |log| else Capacity
  {
    if |log| <= Capacity then log else log[|log| - Capacity..]
  }

  /** The listing of a sequence of lines: each with its position in the sequence. */
  function Numbered(xs: seq<string>): (entries: seq<Entry>)
    ensures |entries| == |xs|
  {
    seq(|xs|, i requires 0 <= i < |xs| => Entry(i, xs[i]))
  }

  /** The ring r holds the log: it has seen |log| lines, none of them empty, and the
      live slots, read from the oldest one on, are the log's window. */
  ghost predicate Abstracts(r: Ring, log: seq<string>)
  {
    && WellFormed(r)
    && r.count == |log|
    && (forall k | 0 <= k < |log| :: log[k] != "")
    && forall k | 0 <= k < Size(r) :: r.slots[(Oldest(r) + k) % Capacity] == Window(log)[k]
  }

  lemma EmptyAbstractsNothing()
    ensures Abstracts(Empty(), [])
  {
  }

  lemma AppendBelowCapacity(r: Ring, log: seq<string>, s: string)
    requires Abstracts(r, log) && s != "" && |log| < Capacity
    ensures Abstracts(Append(r, s), log + [s])
  {
    var r', log' := Append(r, s), log + [s];
    var n := |log|;
    assert Window(log') == log' && Window(log) == log && r.position == n;
    assert Oldest(r) == 0 && Oldest(r') == 0 && Size(r') == n + 1;
    forall k | 0 <= k < n + 1
      ensures r'.slots[k % Capacity] == log'[k]
    {
      assert k % Capacity == k;
      if k < n {
        assert r.slots[(Oldest(r) + k) % Capacity] == log[k];
      }
    }
  }

  /** Once the log has 100 lines, one more line slides the window by one. */
  lemma WindowSlides(log: seq<string>, s: string)
    requires |log| >= Capacity
    ensures Window(log + [s]) == Window(log)[1..] + [s]
  {
  }

  /** Read from the slot after p, the ring visits p's successors and p itself last. */
  lemma WrappedSlot(p: int, k: int)
    requires 0 <= p < Capacity && 0 <= k < Capacity
    ensures var q := ((p + 1) % Capacity + k) % Capacity;
      if k < Capacity - 1 then q == (p + (k + 1)) % Capacity && q != p else q == p
  {
  }

  lemma AppendAtCapacity(r: Ring, log: seq<string>, s: string)
    requires Abstracts(r, log) && s != "" && |log| >= Capacity
    ensures Abstracts(Append(r, s), log + [s])
  {
    var r', log' := Append(r, s), log + [s];
    var p, p' := r.position, r'.position;
    assert p' == (p + 1) % Capacity;
    WindowSlides(log, s);
    forall k | 0 <= k < Capacity
      ensures r'.slots[(p' + k) % Capacity] == Window(log')[k]
    {
      WrappedSlot(p, k);
    }
  }

  /** Storing a non-empty line appends it to the abstract log. */
  lemma AppendExtendsLog(r: Ring, log: seq<string>, s: string)
    requires Abstracts(r, log) && s != ""
    ensures Abstracts(Append(r, s), log + [s])
  {
    if |log| < Capacity {
      AppendBelowCapacity(r, log, s);
    } else {
      AppendAtCapacity(r, log, s);
    }
  }

  /** The listing is the window of the log, oldest first, numbered from 0. */
  lemma ListingShowsWindow(r: Ring, log: seq<string>)
    requires Abstracts(r, log)
    ensures Listing(r) == Numbered(Window(log))
  {
    var l, w := Listing(r), Numbered(Window(log));
    forall k | 0 <= k < |l|
      ensures l[k] == w[k]
    {
      if r.count < Capacity {
        assert (Oldest(r) + k) % Capacity == k;
      }
    }
  }

  /** `history n` replays exactly the line that `history` lists as number n, and an
      offset that `history` would not list is out of bound. */
  lemma LookupFollowsListing(r: Ring, offset: int)
    requires WellFormed(r)
    ensures Lookup(r, offset) ==
      if 0 <= offset < |Listing(r)| then Some(Listing(r)[offset].text) else None
  {
    if r.count >= Capacity && r.count % Capacity == 0 && 0 <= offset < Capacity {
      assert r.position == 0;
      assert (r.position + offset) % Capacity == offset;
    }
  }

  /** Replay offsets address the log's window: offset k is the k-th oldest surviving
      line. */
  lemma LookupShowsWindow(r: Ring, log: seq<string>, offset: int)
    requires Abstracts(r, log)
    ensures Lookup(r, offset) ==
      if 0 <= offset < |Window(log)| then Some(Window(log)[offset]) else None
  {
    LookupFollowsListing(r, offset);
    ListingShowsWindow(r, log);
  }

  /** Below 100 lines, `history -c` forgets the whole log; from 100 lines on it changes
      nothing, so the log is kept. */
  lemma ClearedForgets(r: Ring, log: seq<string>)
    requires Abstracts(r, log)
    ensures r.count < Capacity ==> Abstracts(Cleared(r), [])
    ensures r.count >= Capacity ==> Abstracts(Cleared(r), log)
  {
  }

  /** The ring after storing each of the lines in turn. */
  function AppendAll(r: Ring, lines: seq<string>): (r': Ring)
    requires WellFormed(r)
    ensures WellFormed(r')
  {
    if lines == [] then r
    else Append(AppendAll(r, lines[..|lines| - 1]), lines[|lines| - 1])
  }

  lemma {:induction false} AppendAllAbstracts(lines: seq<string>)
    requires forall k | 0 <= k < |lines| :: lines[k] != ""
    ensures Abstracts(AppendAll(Empty(), lines), lines)
  {
    if lines != [] {
      var init := lines[..|lines| - 1];
      AppendAllAbstracts(init);
      AppendExtendsLog(AppendAll(Empty(), init), init, lines[|lines| - 1]);
      assert init + [lines[|lines| - 1]] == lines;
    }
  }

  /** After K non-empty lines on a fresh ring, K <= 100, `history` lists exactly those K
      lines in the order they were entered. */
  lemma ListingKeepsOrder(lines: seq<string>)
    requires |lines| <= Capacity
    requires forall k | 0 <= k < |lines| :: lines[k] != ""
    ensures Listing(AppendAll(Empty(), lines)) == Numbered(lines)
  {
    AppendAllAbstracts(lines);
    ListingShowsWindow(AppendAll(Empty(), lines), lines);
  }

  /** The wrap-around law: after 101 non-empty lines the first one is no longer listed,
      the other 100 are, oldest first, and `history 0` replays the second line. */
  lemma WrapDropsOldest(lines: seq<string>)
    requires |lines| == Capacity + 1
    requires forall k | 0 <= k < |lines| :: lines[k] != ""
    ensures Listing(AppendAll(Empty(), lines)) == Numbered(lines[1..])
    ensures Lookup(AppendAll(Empty(), lines), 0) == Some(lines[1])
  {
    var r := AppendAll(Empty(), lines);
    AppendAllAbstracts(lines);
    ListingShowsWindow(r, lines);
    LookupShowsWindow(r, lines, 0);
  }

  /** The newest line is listed last: after a non-empty line is stored, the last entry
      `history` prints is that line, below and above 100 lines alike. */
  lemma ListingEndsWithNewest(r: Ring, s: string)
    requires WellFormed(r) && s != ""
    ensures Listing(Append(r, s))[|Listing(Append(r, s))| - 1].text == s
  {
    var r' := Append(r, s);
    if r'.count >= Capacity {
      assert (r'.position + (Capacity - 1)) % Capacity == r.position;
    }
  }

  /** Storing a line keeps every live slot either as it was or the stored line. */
  lemma AppendLiveSlots(r: Ring, s: string)
    requires WellFormed(r)
    ensures forall t | t in LiveSlots(Append(r, s)) :: t in LiveSlots(r) || t == s
  {
    var r' := Append(r, s);
    forall t | t in LiveSlots(r')
      ensures t in LiveSlots(r) || t == s
    {
      if s != "" {
        var i :| 0 <= i < |LiveSlots(r')| && LiveSlots(r')[i] == t;
        if i != r.position {
          assert t == r.slots[i];
          if r.count < Capacity {
            assert i < r.count;
            assert t == LiveSlots(r)[i];
          }
        }
      }
    }
  }

  /**
   * The ring as the C globals keep it: commandLines as an array of 100 strings updated
   * slot by slot, commandLineCount and position as fields.
   */
  class CommandHistory {
    var lines: array<string>
    var count: nat
    var position: int

    /** The ring value the fields currently hold. */
    ghost function Model(): Ring
      reads this, lines
    {
      Ring(lines[..], count, position)
    }

    ghost predicate Valid()
      reads this, lines
    {
      WellFormed(Model())
    }

    /** The buffers main allocates before the read loop (sish.c:43-45), with no line
        accepted yet. */
    constructor ()
      ensures Valid() && fresh(lines)
      ensures Model() == Empty()
    {
      lines := new string[Capacity](_ => "");
      count, position := 0, 0;
      new;
      assert lines[..] == seq(Capacity, _ => "");
    }

    /** storeCommandLine (sish.c:98-109). */
    method Store(s: string)
      requires Valid()
      modifies this, lines
      ensures Valid() && lines == old(lines)
      ensures Model() == Append(old(Model()), s)
    {
      if s == "" {
        return;
      }
      lines[position] := s;
      count := count + 1;
      position := position + 1;
      if count % Capacity == 0 {
        position := 0;
      }
    }

    /** history(NULL) (sish.c:249-275): the entries printed, in order. Below 100 lines the
        loop runs over slots 0..count-1; otherwise it walks position once round the ring,
        which leaves position where it was. */
    method List() returns (entries: seq<Entry>)
      requires Valid()
      modifies this
      ensures Valid() && lines == old(lines)
      ensures Model() == old(Model())
      ensures entries == Listing(Model())
    {
      if count < Capacity {
        entries := ListFront();
      } else {
        entries := ListRound();
      }
    }

    /** The listing loop below 100 lines: slots 0 to count-1. */
    method ListFront() returns (entries: seq<Entry>)
      requires Valid() && count < Capacity
      ensures entries == Listing(Model())
    {
      entries := [];
      var i := 0;
      while i < count
        invariant 0 <= i <= count && |entries| == i
        invariant forall k | 0 <= k < i :: entries[k] == Entry(k, lines[k])
      {
        entries := entries + [Entry(i, lines[i])];
        i := i + 1;
      }
    }

    /** The listing loop from 100 lines on: position walks once round the ring, from the
        oldest slot to the newest, and ends where it started. */
    method ListRound() returns (entries: seq<Entry>)
      requires Valid() && count >= Capacity
      modifies this
      ensures Valid() && lines == old(lines)
      ensures Model() == old(Model())
      ensures entries == Listing(Model())
    {
      entries := [];
      ghost var start := position;
      var i := 0;
      while i < Capacity
        invariant 0 <= i <= Capacity && |entries| == i
        invariant count == old(count) && lines == old(lines) && lines.Length == Capacity
        invariant 0 <= start < Capacity
        invariant 0 <= position < Capacity && position == Advance(start, i)
        invariant forall k | 0 <= k < i :: entries[k] == Entry(k, lines[(start + k) % Capacity])
      {
        AdvanceIsModular(start, i);
        entries := entries + [Entry(i, lines[position])];
        position := NextSlot(position);
        i := i + 1;
      }
      FullPassRestoresPosition(start);
    }

    /** history("-c") followed by the reset in executeHistory (sish.c:249-275 and
        sish.c:282-286). */
    method Clear()
      requires Valid()
      modifies this, lines
      ensures Valid() && lines == old(lines)
      ensures Model() == Cleared(old(Model()))
    {
      ghost var before := lines[..];
      if count < Capacity {
        var i := 0;
        while i < count
          invariant 0 <= i <= count
          invariant count == old(count) && position == old(position) && lines == old(lines)
          invariant lines[..] ==
            seq(Capacity, j requires 0 <= j < Capacity => if j < i then "" else before[j])
        {
          lines[i] := "";
          i := i + 1;
        }
      } else {
        ghost var start := position;
        var i := 0;
        while i < Capacity
          invariant 0 <= i <= Capacity
          invariant 0 <= position < Capacity && position == Advance(start, i)
          invariant count == old(count) && lines == old(lines) && lines[..] == before
        {
          // the slot is blanked only when strcpy(arg, "-c") == 0, which never holds
          position := position + 1;
          if position == Capacity {
            position := 0;
          }
          i := i + 1;
        }
        FullPassRestoresPosition(start);
      }
      if count < Capacity {
        position := position - count;
        count := 0;
      }
    }

    /** The lookup of executeHistory (sish.c:293-317): the line to replay, or None when
        the offset is out of bound. */
    method Resolve(offset: int) returns (text: Option<string>)
      requires Valid()
      ensures text == Lookup(Model(), offset)
    {
      if count < Capacity {
        if offset >= 0 && offset < count {
          text := Some(lines[offset]);
        } else {
          text := None;
        }
      } else {
        if offset >= 0 && offset < Capacity {
          if count % Capacity != 0 {
            text := Some(lines[(offset + position) % Capacity]);
          } else {
            text := Some(lines[offset]);
          }
        } else {
          text := None;
        }
      }
    }
  }
}
