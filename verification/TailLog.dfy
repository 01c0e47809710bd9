/**
 tailEventLog: bytes appended to a log arrive in arbitrary chunks; complete lines go to the
 decoder, the unterminated rest waits.
 */
module TailLog {
  import opened Results

  type Byte = b: int | 0 <= b < 256

  const NEWLINE: Byte := 10

  /** bytes.TrimSpace, or any other function of a line. */
  type Trim = seq<Byte> -> seq<Byte>

  // ------------------------------------------------------------------- lines

  /** Lines, each with its newline, one after the other. */
  function Terminated(lines: seq<seq<Byte>>): seq<Byte> {
    if lines == [] then [] else lines[0] + [NEWLINE] + Terminated(lines[1..])
  }

  ghost predicate NoNewline(line: seq<Byte>) {
    NEWLINE !in line
  }

  /** `s` is the complete lines followed by the unterminated `rest`. */
  ghost predicate SplitsInto(s: seq<Byte>, lines: seq<seq<Byte>>, rest: seq<Byte>) {
    && s == Terminated(lines) + rest
    && NoNewline(rest)
    && forall i :: 0 <= i < |lines| ==> NoNewline(lines[i])
  }

  /** What reaches the decoder: trimmed lines, blank ones dropped. */
  function Delivered(lines: seq<seq<Byte>>, trim: Trim): seq<seq<Byte>> {
    if lines == [] then []
    else
      var front := Delivered(lines[..|lines| - 1], trim);
      var line := trim(lines[|lines| - 1]);
      if line == [] then front else front + [line]
  }

  lemma {:induction false} TerminatedAppend(a: seq<seq<Byte>>, b: seq<seq<Byte>>)
    ensures Terminated(a + b) == Terminated(a) + Terminated(b)
  {
    if a == [] {
      assert a + b == b;
    } else {
      TerminatedAppend(a[1..], b);
      assert (a + b)[1..] == a[1..] + b;
    }
  }

  lemma {:induction false} FirstLineUnique(l: seq<Byte>, x: seq<Byte>, l': seq<Byte>, x': seq<Byte>)
    requires NoNewline(l) && NoNewline(l') && l + [NEWLINE] + x == l' + [NEWLINE] + x'
    ensures l == l' && x == x'
  {
    var s := l + [NEWLINE] + x;
    assert s[|l|] == NEWLINE && s[|l'|] == NEWLINE;
    assert s[..|l|] == l && s[|l| + 1..] == x;
    assert s[..|l'|] == l' && s[|l'| + 1..] == x';
  }

  lemma SplitEmpty(s: seq<Byte>, lines: seq<seq<Byte>>, rest: seq<Byte>)
    requires SplitsInto(s, lines, rest)
    ensures lines == [] <==> NoNewline(s)
    ensures lines == [] ==> s == rest
  {
  }

  /** Bytes split into lines in only one way. */
  lemma {:induction false} SplitUnique(s: seq<Byte>, a: seq<seq<Byte>>, x: seq<Byte>, b: seq<seq<Byte>>, y: seq<Byte>)
    requires SplitsInto(s, a, x) && SplitsInto(s, b, y)
    ensures a == b && x == y
    decreases |a|
  {
    SplitEmpty(s, a, x);
    SplitEmpty(s, b, y);
    if a != [] {
      var s', s'' := Terminated(a[1..]) + x, Terminated(b[1..]) + y;
      assert s == a[0] + [NEWLINE] + s' && s == b[0] + [NEWLINE] + s'';
      FirstLineUnique(a[0], s', b[0], s'');
      SplitUnique(s', a[1..], x, b[1..], y);
      assert a == [a[0]] + a[1..] && b == [b[0]] + b[1..];
    }
  }

  /** More bytes only add lines: the waiting rest is completed by what arrives. */
  lemma SplitAppend(s: seq<Byte>, lines: seq<seq<Byte>>, rest: seq<Byte>, more: seq<Byte>, lines': seq<seq<Byte>>,
                    rest': seq<Byte>)
    requires SplitsInto(s, lines, rest) && SplitsInto(rest + more, lines', rest')
    ensures SplitsInto(s + more, lines + lines', rest')
  {
    TerminatedAppend(lines, lines');
    assert s + more == Terminated(lines) + (rest + more);
  }

  lemma {:induction false} DeliveredAppend(a: seq<seq<Byte>>, b: seq<seq<Byte>>, trim: Trim)
    ensures Delivered(a + b, trim) == Delivered(a, trim) + Delivered(b, trim)
    decreases |b|
  {
    if b == [] {
      assert a + b == a;
    } else {
      DeliveredAppend(a, b[..|b| - 1], trim);
      assert (a + b)[..|a + b| - 1] == a + b[..|b| - 1];
    }
  }

  // ---------------------------------------------------------------- the code

  /** bytes.IndexByte(s, '\\n'). */
  method IndexNewline(s: seq<Byte>) returns (i: int)
    ensures i == -1 <==> NoNewline(s)
    ensures i >= 0 ==> i < |s| && s[i] == NEWLINE && NoNewline(s[..i])
    ensures i >= -1
  {
    i := 0;
    while i < |s|
      invariant 0 <= i <= |s| && NoNewline(s[..i])
    {
      if s[i] == NEWLINE {
        return i;
      }
      i := i + 1;
    }
    assert s[..|s|] == s;
    return -1;
  }

  /** `out` holds the trimmed lines of the bytes that are not blank, `pending` the unterminated rest. */
  ghost predicate Drained(s: seq<Byte>, trim: Trim, out: seq<seq<Byte>>, pending: seq<Byte>) {
    exists lines :: SplitsInto(s, lines, pending) && out == Delivered(lines, trim)
  }

  /** `lines` have been taken off the front of the buffer. */
  ghost predicate Taken(buffer: seq<Byte>, lines: seq<seq<Byte>>, pending: seq<Byte>) {
    buffer == Terminated(lines) + pending && forall i :: 0 <= i < |lines| ==> NoNewline(lines[i])
  }

  lemma TakeLine(buffer: seq<Byte>, lines: seq<seq<Byte>>, pending: seq<Byte>, i: nat, trim: Trim)
    requires Taken(buffer, lines, pending) && i < |pending| && pending[i] == NEWLINE && NoNewline(pending[..i])
    ensures Taken(buffer, lines + [pending[..i]], pending[i + 1..])
    ensures var line := trim(pending[..i]);
      Delivered(lines + [pending[..i]], trim) == Delivered(lines, trim) + if line == [] then [] else [line]
  {
    TerminatedAppend(lines, [pending[..i]]);
    assert Terminated([pending[..i]]) == pending[..i] + [NEWLINE];
    assert pending == pending[..i] + [NEWLINE] + pending[i + 1..];
    assert (lines + [pending[..i]])[..|lines|] == lines;
  }

  /** The inner loop: takes complete lines off the front of the buffer. */
  method Drain(buffer: seq<Byte>, trim: Trim) returns (out: seq<seq<Byte>>, pending: seq<Byte>)
    ensures Drained(buffer, trim, out, pending)
  {
    out, pending := [], buffer;
    ghost var lines: seq<seq<Byte>> := [];
    while true
      invariant Taken(buffer, lines, pending) && out == Delivered(lines, trim)
      decreases |pending|
    {
      var i := IndexNewline(pending);
      if i < 0 {
        break;
      }
      TakeLine(buffer, lines, pending, i, trim);
      lines := lines + [pending[..i]];
      var line := trim(pending[..i]);
      pending := pending[i + 1..];
      if |line| == 0 {
        continue;
      }
      out := out + [line];
    }
    assert SplitsInto(buffer, lines, pending);
  }

  datatype ReadError = NoError | EOF | OtherError

  /** What one round of the loop meets: cancellation, a stop mark in the channel, and a read. */
  datatype Round = Round(cancelled: bool, mark: Option<int>, chunk: seq<Byte>, error: ReadError)

  datatype Ending = Running | Cancelled | ReadFailed | Stopped(at: int)

  function Consumed(rounds: seq<Round>): seq<Byte> {
    if rounds == [] then [] else Consumed(rounds[..|rounds| - 1]) + rounds[|rounds| - 1].chunk
  }

  /** The first stop mark seen in the rounds, at least zero. */
  function Mark(rounds: seq<Round>): Option<int> {
    if rounds == [] then None
    else if Mark(rounds[..|rounds| - 1]).Some? then Mark(rounds[..|rounds| - 1])
    else match rounds[|rounds| - 1].mark
      case None => None
      case Some(m) => Some(if m < 0 then 0 else m)
  }

  /** What the loop has done after some rounds, whatever the chunk boundaries were. */
  ghost predicate Followed(offset: int, rounds: seq<Round>, trim: Trim, out: seq<seq<Byte>>, pending: seq<Byte>,
                           pos: int) {
    && pos == offset + |Consumed(rounds)|
    && Drained(Consumed(rounds), trim, out, pending)
  }

  ghost predicate EndsClean(s: seq<Byte>) {
    s == [] || s[|s| - 1] == NEWLINE
  }

  /** How the loop goes on after the read of the last round, told from the bytes and marks alone. */
  ghost function After(offset: int, rounds: seq<Round>): Ending
    requires rounds != []
  {
    match rounds[|rounds| - 1].error
    case NoError => Running
    case OtherError => ReadFailed
    case EOF =>
      var mark := Mark(rounds);
      if mark.Some? && offset + |Consumed(rounds)| >= mark.value && EndsClean(Consumed(rounds)) then Stopped(mark.value)
      else Running
  }

  lemma {:induction false} TerminatedClean(lines: seq<seq<Byte>>)
    ensures EndsClean(Terminated(lines)) && (Terminated(lines) == [] <==> lines == [])
  {
    if lines != [] {
      TerminatedClean(lines[1..]);
    }
  }

  /** Nothing is pending exactly when the bytes end in a newline. */
  lemma RestEmpty(s: seq<Byte>, lines: seq<seq<Byte>>, rest: seq<Byte>)
    requires SplitsInto(s, lines, rest)
    ensures rest == [] <==> EndsClean(s)
  {
    TerminatedClean(lines);
    if rest != [] {
      assert s[|s| - 1] == rest[|rest| - 1];
    }
  }

  lemma RoundFollowed(offset: int, rounds: seq<Round>, next: Round, trim: Trim, out: seq<seq<Byte>>, pending: seq<Byte>,
                      pos: int, more: seq<seq<Byte>>, pending': seq<Byte>)
    requires Followed(offset, rounds, trim, out, pending, pos) && Drained(pending + next.chunk, trim, more, pending')
    ensures Followed(offset, rounds + [next], trim, out + more, pending', pos + |next.chunk|)
  {
    var lines :| SplitsInto(Consumed(rounds), lines, pending) && out == Delivered(lines, trim);
    var lines' :| SplitsInto(pending + next.chunk, lines', pending') && more == Delivered(lines', trim);
    SplitAppend(Consumed(rounds), lines, pending, next.chunk, lines', pending');
    DeliveredAppend(lines, lines', trim);
    assert (rounds + [next])[..|rounds|] == rounds;
  }

  lemma PendingIsRest(offset: int, rounds: seq<Round>, trim: Trim, out: seq<seq<Byte>>, pending: seq<Byte>, pos: int)
    requires Followed(offset, rounds, trim, out, pending, pos)
    ensures pending == [] <==> EndsClean(Consumed(rounds))
  {
    var lines :| SplitsInto(Consumed(rounds), lines, pending) && out == Delivered(lines, trim);
    RestEmpty(Consumed(rounds), lines, pending);
  }

  lemma MarkExtend(rounds: seq<Round>, next: Round)
    ensures Mark(rounds + [next]) ==
            if Mark(rounds).Some? then Mark(rounds)
            else if next.mark.Some? then Some(if next.mark.value < 0 then 0 else next.mark.value) else None
  {
  }

  /** `stopAt` is negative until a mark arrived. */
  ghost predicate KnowsMark(rounds: seq<Round>, stopAt: int) {
    Mark(rounds) == if stopAt < 0 then None else Some(stopAt)
  }

  lemma NothingFollowed(offset: int, trim: Trim)
    ensures Followed(offset, [], trim, [], [], offset) && KnowsMark([], -1)
  {
    assert SplitsInto(Consumed([]), [], []);
  }

  /** The loop goes on after the first k rounds. */
  ghost predicate GoesOn(offset: int, rounds: seq<Round>, k: nat) {
    0 < k <= |rounds| ==> After(offset, rounds[..k]) == Running && !rounds[k - 1].cancelled
  }

  /** The body of the loop after the cancellation test. */
  method TakeRound(offset: int, ghost past: seq<Round>, round: Round, trim: Trim, out0: seq<seq<Byte>>,
                   pending0: seq<Byte>, pos0: int, stopAt0: int)
    returns (out: seq<seq<Byte>>, pending: seq<Byte>, pos: int, stopAt: int, ending: Ending)
    requires Followed(offset, past, trim, out0, pending0, pos0) && KnowsMark(past, stopAt0)
    ensures Followed(offset, past + [round], trim, out, pending, pos) && KnowsMark(past + [round], stopAt)
    ensures ending == After(offset, past + [round])
  {
    stopAt := stopAt0;
    MarkExtend(past, round);
    if stopAt < 0 && round.mark.Some? {
      stopAt := round.mark.value;
      if stopAt < 0 {
        stopAt := 0;
      }
    }
    var more;
    more, pending := Drain(pending0 + round.chunk, trim);
    RoundFollowed(offset, past, round, trim, out0, pending0, pos0, more, pending);
    out, pos := out0 + more, pos0 + |round.chunk|;
    PendingIsRest(offset, past + [round], trim, out, pending, pos);
    match round.error {
      case NoError => ending := Running;
      case EOF => ending := if stopAt >= 0 && pos >= stopAt && |pending| == 0 then Stopped(stopAt) else Running;
      case OtherError => ending := ReadFailed;
    }
  }

  /** Takes the first `used` rounds; a cancelled round is left before its read. */
  method TailEventLog(offset: int, rounds: seq<Round>, trim: Trim)
    returns (out: seq<seq<Byte>>, pending: seq<Byte>, pos: int, ending: Ending, used: nat)
    ensures used <= |rounds| && Followed(offset, rounds[..used], trim, out, pending, pos)
    ensures forall k: nat :: k < used ==> GoesOn(offset, rounds, k)
    ensures ending == Running ==> used == |rounds| && GoesOn(offset, rounds, used)
    ensures ending == Cancelled ==> used < |rounds| && rounds[used].cancelled && GoesOn(offset, rounds, used)
    ensures ending == ReadFailed || ending.Stopped? ==>
      used > 0 && ending == After(offset, rounds[..used]) && !rounds[used - 1].cancelled
  {
    out, pending, pos, used := [], [], offset, 0;
    var stopAt := -1;
    NothingFollowed(offset, trim);
    assert rounds[..0] == [];
    for k := 0 to |rounds|
      invariant used == k
      invariant Followed(offset, rounds[..k], trim, out, pending, pos) && KnowsMark(rounds[..k], stopAt)
      invariant forall j: nat :: j <= k ==> GoesOn(offset, rounds, j)
    {
      if rounds[k].cancelled {
        ending := Cancelled;
        return;
      }
      assert rounds[..k + 1] == rounds[..k] + [rounds[k]];
      out, pending, pos, stopAt, ending := TakeRound(offset, rounds[..k], rounds[k], trim, out, pending, pos, stopAt);
      used := k + 1;
      if ending != Running {
        return;
      }
    }
    ending := Running;
  }

  /** Two ways of cutting the same bytes into reads deliver the same lines and keep the same rest. */
  lemma ChunkingIrrelevant(offset: int, a: seq<Round>, b: seq<Round>, trim: Trim, outA: seq<seq<Byte>>,
                           pendingA: seq<Byte>, posA: int, outB: seq<seq<Byte>>, pendingB: seq<Byte>, posB: int)
    requires Consumed(a) == Consumed(b)
    requires Followed(offset, a, trim, outA, pendingA, posA) && Followed(offset, b, trim, outB, pendingB, posB)
    ensures outA == outB && pendingA == pendingB && posA == posB
  {
    var linesA :| SplitsInto(Consumed(a), linesA, pendingA) && outA == Delivered(linesA, trim);
    var linesB :| SplitsInto(Consumed(b), linesB, pendingB) && outB == Delivered(linesB, trim);
    SplitUnique(Consumed(a), linesA, pendingA, linesB, pendingB);
  }
}
