/** Buffered reading of a script, with the kernel's file offset put back in step before a
    child process is forked. */
module BufferedInput {
  import opened Options

  // ----- what a reader of the file should see -----

  datatype Op = Read(chunk: nat) | Unread | Sync

  /** A reader without a buffer: how many characters it has consumed, the one it could push
      back, whether it has read since the last sync, and whether it has met the end. */
  datatype Cursor = Cursor(position: nat, last: Option<char>, loaded: bool, ended: bool)

  /** What one operation shows: a character or the end for a read, the offset a child
      process would start from for a sync. */
  datatype Event = Got(c: Option<char>) | PushedBack(ok: bool) | ChildAt(offset: int)

  function Next(file: string, cur: Cursor, op: Op): (Cursor, Event)
    requires cur.position <= |file| && (cur.last.Some? ==> cur.position > 0)
  {
    match op
    case Read(_) =>
      if cur.position < |file| then
        var c := file[cur.position];
        (Cursor(cur.position + 1, Some(c), true, false), Got(Some(c)))
      else (cur.(last := None, ended := true), Got(None))
    case Unread =>
      if cur.last.Some? then (cur.(position := cur.position - 1, last := None), PushedBack(true))
      else (cur, PushedBack(false))
    case Sync => (cur.(last := None, loaded := false, ended := false), ChildAt(cur.position))
  }

  // ----- the buffered stream -----

  class Stream {
    const file: string
    var offset: nat
    const buffer: array<char>
    var used: nat
    var inputp: nat
    var eof: bool

    ghost predicate Valid()
      reads this, buffer
    {
      && buffer.Length > 0 && used <= buffer.Length
      && (used > 0 ==> inputp <= used <= offset <= |file| && buffer[..used] == file[offset - used..offset])
      && (used == 0 && inputp > 0 ==> offset >= |file|)
    }

    /** Where the next character comes from. */
    function Position(): int
      reads this
    {
      if used == 0 then offset else offset - (used - inputp)
    }

    /** The end was met with the buffer's index left where it was. */
    predicate Stale()
      reads this
    {
      used == 0 && inputp > 0
    }

    constructor (file: string, size: nat, start: nat)
      requires size > 0
      ensures Valid() && this.file == file && Position() == offset == start && used == 0 && !Stale()
      ensures fresh(buffer)
    {
      this.file := file;
      buffer := new char[size];
      offset, used, inputp, eof := start, 0, 0, false;
    }

    /** read(2) into the buffer: it may return less than asked for. */
    method ZRead(chunk: nat) returns (nr: nat)
      requires Valid()
      modifies this`offset, buffer
      ensures nr <= buffer.Length && (nr == 0 <==> old(offset) >= |file|)
      ensures offset == old(offset) + nr && (nr > 0 ==> offset <= |file|)
      ensures nr > 0 ==> buffer[..nr] == file[old(offset)..offset]
    {
      nr := if chunk == 0 then 1 else chunk;
      nr := if nr > buffer.Length then buffer.Length else nr;
      nr := if offset > |file| then 0 else if nr > |file| - offset then |file| - offset else nr;
      for i := 0 to nr
        invariant forall k :: 0 <= k < i ==> buffer[k] == file[offset + k]
        modifies buffer
      {
        buffer[i] := file[offset + i];
      }
      assert nr > 0 ==> forall k :: 0 <= k < nr ==> buffer[..nr][k] == file[offset..offset + nr][k];
      offset := offset + nr;
    }

    method FillBuffer(chunk: nat) returns (c: Option<char>)
      requires Valid() && (used == 0 || inputp == used)
      modifies this, buffer
      ensures Valid()
      ensures old(offset) < |file| ==>
                c == Some(file[old(offset)]) && Position() == old(offset) + 1 && used > 0 && inputp > 0
      ensures old(offset) >= |file| ==>
              c == None && offset == old(offset) && used == 0 && inputp == old(inputp) && eof
    {
      var nr := ZRead(chunk);
      if nr <= 0 {
        used := 0;
        buffer[0] := '\0';
        eof := true;
        return None;
      }
      used := nr;
      inputp := 0;
      c := Some(buffer[inputp]);
      inputp := inputp + 1;
    }

    /** The next character of the file, or the end. */
    method Getc(chunk: nat) returns (c: Option<char>)
      requires Valid()
      modifies this, buffer
      ensures Valid()
      ensures old(Position()) < |file| ==>
              c == Some(file[old(Position())]) && Position() == old(Position()) + 1 && used > 0 && inputp > 0
      ensures old(Position()) >= |file| ==>
              && c == None && Position() == old(Position()) && used == 0 && inputp == old(inputp)
              && (Stale() <==> old(used > 0 || Stale()))
    {
      if inputp == used || used == 0 {
        c := FillBuffer(chunk);
      } else {
        c := Some(buffer[inputp]);
        inputp := inputp + 1;
      }
    }

    /** Pushing back the character just read; c is None for EOF. */
    method Ungetc(c: Option<char>) returns (ok: bool)
      requires Valid() && (c.Some? ==> used > 0 && Position() > 0 && c.value == file[Position() - 1])
      modifies this`inputp, buffer
      ensures Valid() && offset == old(offset) && used == old(used)
      ensures ok <==> c.Some? && old(inputp) > 0
      ensures Position() == old(Position()) - (if ok then 1 else 0)
      ensures !ok ==> inputp == old(inputp)
      ensures Stale() == old(Stale())
    {
      if c.None? || inputp == 0 {
        return false;
      }
      inputp := inputp - 1;
      buffer[inputp] := c.value;
      ok := true;
    }

    /** Putting the kernel's offset back to where reading has got to.  It fails to do so
        exactly when the end was met with the index left standing. */
    method SyncStream()
      requires Valid()
      modifies this`offset, this`used, this`inputp
      ensures used == 0 && inputp == 0
      ensures offset == old(Position()) + (if old(Stale()) then old(inputp) else 0)
      ensures offset == old(Position()) <==> !old(Stale())
      ensures Valid()
    {
      var charsLeft := used - inputp;
      if charsLeft != 0 {
        offset := offset - charsLeft;
      }
      used, inputp := 0, 0;
    }
  }

  // ----- whole runs -----

  /** What the reader without a buffer shows over a run. */
  function Trace(file: string, cur: Cursor, ops: seq<Op>): (events: seq<Event>)
    requires cur.position <= |file| && (cur.last.Some? ==> cur.position > 0)
    ensures |events| == |ops|
    decreases |ops|
  {
    if ops == [] then []
    else
      var (cur', event) := Next(file, cur, ops[0]);
      [event] + Trace(file, cur', ops[1..])
  }

  /** No sync comes after the end has been met, unless nothing was read since the sync before. */
  predicate Safe(file: string, cur: Cursor, ops: seq<Op>)
    requires cur.position <= |file| && (cur.last.Some? ==> cur.position > 0)
    decreases |ops|
  {
    ops == [] ||
    (!(ops[0].Sync? && cur.loaded && cur.ended) && Safe(file, Next(file, cur, ops[0]).0, ops[1..]))
  }

  /** The buffered stream stands where the cursor does. */
  ghost predicate Tracks(s: Stream, cur: Cursor)
    reads s, s.buffer
  {
    && s.Valid() && s.Position() == cur.position <= |s.file|
    && (cur.last.Some? ==> s.used > 0 && s.inputp > 0 && cur.last.value == s.file[cur.position - 1])
    && (cur.loaded <==> s.used > 0 || s.inputp > 0)
    && (s.Stale() <==> cur.loaded && cur.ended)
    && (cur.ended ==> cur.position == |s.file| && s.used == 0 && cur.last.None?)
  }

  /** One operation on the stream; `last` is the character just read, if any. */
  method Perform(s: Stream, op: Op, last: Option<char>) returns (event: Event, last': Option<char>)
    requires s.Valid() && (last.Some? ==> s.used > 0 && s.inputp > 0 && last.value == s.file[s.Position() - 1])
    modifies s, s.buffer
    ensures s.Valid()
    ensures last'.Some? ==> s.used > 0 && s.inputp > 0 && last'.value == s.file[s.Position() - 1]
    ensures forall cur :: old(Tracks(s, cur)) && cur.last == last && !(op.Sync? && cur.loaded && cur.ended) ==>
              Tracks(s, Next(s.file, cur, op).0) && event == Next(s.file, cur, op).1
              && last' == Next(s.file, cur, op).0.last
    ensures forall cur :: old(Tracks(s, cur)) && op.Sync? && cur.loaded && cur.ended ==>
              event != Next(s.file, cur, op).1
  {
    last' := None;
    match op
    case Read(chunk) =>
      last' := s.Getc(chunk);
      event := Got(last');
    case Unread =>
      var ok := s.Ungetc(last);
      event := PushedBack(ok);
    case Sync =>
      s.SyncStream();
      event := ChildAt(s.offset);
  }

  /** After i operations: in step, with the rest of the run to come, or out of step for good. */
  ghost predicate Progress(file: string, begin: Cursor, ops: seq<Op>, i: nat, events: seq<Event>, cur: Cursor,
          inStep: bool)
    requires i <= |ops| && begin.position <= |file| && begin.last.None?
  {
    && |events| == i
    && if inStep then (
         && cur.position <= |file| && (cur.last.Some? ==> cur.position > 0)
         && events + Trace(file, cur, ops[i..]) == Trace(file, begin, ops)
         && (Safe(file, cur, ops[i..]) <==> Safe(file, begin, ops)))
       else events != Trace(file, begin, ops)[..i] && !Safe(file, begin, ops)
  }

  lemma Advance(file: string, begin: Cursor, ops: seq<Op>, i: nat, events: seq<Event>, cur: Cursor, inStep: bool,
          event: Event)
    requires i < |ops| && begin.position <= |file| && begin.last.None?
    requires Progress(file, begin, ops, i, events, cur, inStep)
    requires inStep ==> (event == Next(file, cur, ops[i]).1 <==> !(ops[i].Sync? && cur.loaded && cur.ended))
    ensures var good := inStep && !(ops[i].Sync? && cur.loaded && cur.ended);
            Progress(file, begin, ops, i + 1, events + [event], if good then Next(file, cur, ops[i]).0 else cur, good)
  {
    var trace := Trace(file, begin, ops);
    assert trace[..i + 1] == trace[..i] + [trace[i]];
    if inStep {
      assert ops[i..][1..] == ops[i + 1..];
      var next := Next(file, cur, ops[i]);
      assert Trace(file, cur, ops[i..]) == [next.1] + Trace(file, next.0, ops[i + 1..]);
      assert trace[i] == next.1;
      assert events + ([next.1] + Trace(file, next.0, ops[i + 1..])) ==
        (events + [next.1]) + Trace(file, next.0, ops[i + 1..]);
    }
    assert (events + [event])[..i] == events;
  }

  /** Over any run of reads, push-backs and syncs, with reads as short as they may be, the
      buffered stream shows what the reader without a buffer does, exactly when no sync
      comes after the end has been met. */
  method Run(file: string, size: nat, start: nat, ops: seq<Op>) returns (events: seq<Event>)
    requires size > 0 && start <= |file|
    ensures events == Trace(file, Cursor(start, None, false, false), ops)
       <==> Safe(file, Cursor(start, None, false, false), ops)
  {
    var s := new Stream(file, size, start);
    ghost var begin := Cursor(start, None, false, false);
    ghost var cur, inStep := begin, true;
    var last: Option<char> := None;
    events := [];
    for i := 0 to |ops|
      invariant s.Valid() && s.file == file && fresh(s) && fresh(s.buffer)
      invariant last.Some? ==> s.used > 0 && s.inputp > 0 && last.value == s.file[s.Position() - 1]
      invariant inStep ==> Tracks(s, cur) && cur.last == last
      invariant Progress(file, begin, ops, i, events, cur, inStep)
    {
      var event;
      event, last := Perform(s, ops[i], last);
      Advance(file, begin, ops, i, events, cur, inStep, event);
      inStep := inStep && !(ops[i].Sync? && cur.loaded && cur.ended);
      cur := if inStep then Next(file, cur, ops[i]).0 else cur;
      events := events + [event];
    }
    assert events + [] == events;
  }

  /** Before the end of the file every run is safe. */
  lemma {:induction false} SafeBeforeEnd(file: string, cur: Cursor, ops: seq<Op>)
    requires cur.position <= |file| && (cur.last.Some? ==> cur.position > 0) && !cur.ended
    requires Got(None) !in Trace(file, cur, ops)
    ensures Safe(file, cur, ops)
    decreases |ops|
  {
    if ops != [] {
      var (next, event) := Next(file, cur, ops[0]);
      assert Trace(file, cur, ops)[0] == event;
      SafeBeforeEnd(file, next, ops[1..]);
    }
  }

  /** After it they need not be: a child forked then starts past the end. */
  lemma SyncAfterEnd()
    ensures !Safe("x", Cursor(0, None, false, false), [Read(1), Read(1), Sync])
  {
    var ops := [Read(1), Read(1), Sync];
    assert ops[1..] == [Read(1), Sync] && ops[1..][1..] == [Sync];
    var one := Cursor(1, Some('x'), true, false);
    assert Next("x", Cursor(0, None, false, false), Read(1)).0 == one;
    assert !Safe("x", one.(last := None, ended := true), [Sync]);
    assert !Safe("x", one, [Read(1), Sync]);
  }

  /** The run in question, with a buffer of any size: the file has one character, and the
      child would start at offset 2. */
  method SyncPastEnd(size: nat) returns (offset: nat)
    requires size > 0
    ensures offset == 2
  {
    var s := new Stream("x", size, 0);
    var c := s.Getc(1);
    c := s.Getc(1);
    s.SyncStream();
    offset := s.offset;
  }
}
