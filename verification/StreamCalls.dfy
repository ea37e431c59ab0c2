/** What the calls on the byte buffer of Project/Public/CircularBuffer.h come to when the other thread stands still:
    from any state of any run, each moves exactly as many bytes as it should. */
module StreamCalls {
  import opened CircularBuffer
  import opened ByteStream

  /** The writer's side is as it was, and so much more has been read. */
  ghost predicate HasRead(s: Stream, s': Stream, n: nat)
    requires |s.read| <= |s.written|
  {
    && n <= |Queue(s)| && s'.read == s.read + Queue(s)[..n] && s'.reader.Away?
    && s'.ring == s.ring && s'.writer == s.writer && s'.written == s.written
  }

  /** The reader's side is as it was, and these bytes have been written. */
  ghost predicate HasWritten(s: Stream, s': Stream, bytes: seq<char>) {
    && s'.written == s.written + bytes && s'.writer.Idle?
    && |s'.ring| == |s.ring| && s'.reader == s.reader && s'.read == s.read
  }

  /** As long as it does not run over the end of the ring, the next byte can be fetched. */
  lemma FetchIsPossible(s: Stream)
    requires Inv(s) && s.reader.Fetching? && |s.reader.got| < s.reader.len && !Overruns(s)
    ensures Enabled(s, Fetch)
  {
    hide Wrap, PowerOfTwo, Holds, WriterOk;
    Basics(s);
  }

  lemma First(s: Stream, a: Action, b: seq<Action>)
    requires Enabled(s, a) && Runs(Do(s, a), b)
    ensures Runs(s, [a] + b) && After(s, [a] + b) == After(Do(s, a), b)
  {
    hide Enabled, Do;
    assert ([a] + b)[1..] == b;
  }

  /** All bytes in question are fetched, one after another. */
  lemma {:induction false} Fetches(s: Stream) returns (actions: seq<Action>)
    requires Inv(s) && s.reader.Fetching? && !Overruns(s)
    ensures |s.read| <= |s.written| && |s.reader.got| <= s.reader.len <= |Queue(s)| && Runs(s, actions)
    ensures After(s, actions) == s.(reader := s.reader.(got := Queue(s)[..s.reader.len]))
    decreases s.reader.len - |s.reader.got|
  {
    hide Wrap, PowerOfTwo, Holds, WriterOk, NextPlace;
    Basics(s);
    if |s.reader.got| == s.reader.len {
      actions := [];
    } else {
      FetchIsPossible(s);
      FetchKeeps(s);
      var rest := Fetches(Do(s, Fetch));
      First(s, Fetch, rest);
      actions := [Fetch] + rest;
    }
  }

  lemma FetchesAndBumps(s: Stream) returns (actions: seq<Action>)
    requires Inv(s) && s.reader.Fetching? && !Overruns(s)
    ensures |s.read| <= |s.written| && 0 <= s.reader.len && Runs(s, actions)
    ensures HasRead(s, After(s, actions), s.reader.len)
  {
    hide Wrap, Enabled, Inv, Overruns, Runs, After;
    actions := Fetches(s);
    var t := After(s, actions);
    assert Enabled(t, ReadBump(s.reader.len)) by { BumpIsPossible(t, s.reader.len, s); }
    RunOn(s, actions, ReadBump(s.reader.len));
    actions := actions + [ReadBump(s.reader.len)];
    assert t.reader.got[..s.reader.len] == t.reader.got;
  }

  lemma BumpIsPossible(t: Stream, n: nat, s: Stream)
    requires Inv(s) && t.ring == s.ring && t.reader.Fetching? && n <= |t.reader.got|
    ensures Enabled(t, ReadBump(n))
  {
    hide Wrap, PowerOfTwo, Holds, WriterOk, ReaderOk;
    Basics(s);
  }

  /** A call of `Read` reads what there is, up to the number asked for. */
  lemma ReadAlone(s: Stream, len: nat) returns (actions: seq<Action>)
    requires Inv(s) && s.reader.Away?
    ensures |s.read| <= |s.written| && Runs(s, actions)
    ensures HasRead(s, After(s, actions), if len <= |Queue(s)| then len else |Queue(s)|)
  {
    hide Wrap, PowerOfTwo, Holds, WriterOk;
    Basics(s);
    var s1 := Do(s, Read(len));
    StepKeeps(s, Read(len));
    actions := FetchesAndBumps(s1);
    First(s, Read(len), actions);
    actions := [Read(len)] + actions;
  }

  /** `TryReadBuff` gets all that was asked for, if there is so much. */
  lemma TryAlone(s: Stream, len: nat) returns (actions: seq<Action>)
    requires Inv(s) && s.reader.Away? && |s.read| <= |s.written| && len <= |Queue(s)|
    ensures Runs(s, actions) && HasRead(s, After(s, actions), len)
  {
    hide Wrap, PowerOfTwo, Holds, WriterOk;
    Basics(s);
    Positions(s);
    var s1 := Do(s, TryReadBuff(len));
    StepKeeps(s, TryReadBuff(len));
    var s2 := Do(s1, TryPlace);
    StepKeeps(s1, TryPlace);
    actions := FetchesAndBumps(s2);
    First(s1, TryPlace, actions);
    First(s, TryReadBuff(len), [TryPlace] + actions);
    actions := [TryReadBuff(len)] + ([TryPlace] + actions);
  }

  /** `GetCanReadBuff` gives the bytes up to the end of the ring, all of them if the queue does not run over it. */
  lemma PieceAlone(s: Stream) returns (actions: seq<Action>)
    requires Inv(s) && s.reader.Away? && |s.read| < |s.written|
    ensures Runs(s, actions) && |s.ring| > 0
    ensures var end := |s.ring| - s.rcount % |s.ring|;
      0 <= end && HasRead(s, After(s, actions), if |Queue(s)| <= end then |Queue(s)| else end)
  {
    hide Wrap, PowerOfTwo, Holds, WriterOk;
    Basics(s);
    Positions(s);
    EmptyIff(s.wcount, s.rcount) by { InRange(s); }
    Wrap0();
    var s1 := Do(s, GetCanReadBuff);
    StepKeeps(s, GetCanReadBuff);
    var s2 := Do(s1, GetPlace);
    StepKeeps(s1, GetPlace);
    actions := PieceFrom(s2);
    First(s1, GetPlace, actions);
    First(s, GetCanReadBuff, [GetPlace] + actions);
    actions := [GetCanReadBuff] + ([GetPlace] + actions);
  }

  /** The rest of a read of the first piece, once it is known whether the queue runs over the end of the ring. */
  lemma PieceFrom(s: Stream) returns (actions: seq<Action>)
    requires Inv(s) && !Overruns(s) && |s.read| <= |s.written|
    requires s.reader.Fetching? || s.reader == OnePiece(s.wcount)
    ensures Runs(s, actions)
    ensures s.reader.Fetching? ==> 0 <= s.reader.len && HasRead(s, After(s, actions), s.reader.len)
    ensures s.reader.OnePiece? ==> HasRead(s, After(s, actions), |Queue(s)|)
  {
    hide Wrap, PowerOfTwo, Holds, WriterOk;
    if s.reader.OnePiece? {
      Basics(s);
      Positions(s);
      StepKeeps(s, GetLength);
      actions := FetchesAndBumps(Do(s, GetLength));
      First(s, GetLength, actions);
      actions := [GetLength] + actions;
    } else {
      actions := FetchesAndBumps(s);
    }
  }

  lemma Wrap0()
    ensures Wrap(0) == 0
  {
  }

  /** All bytes are put into the ring. */
  lemma {:induction false} Stores(s: Stream, i: nat) returns (actions: seq<Action>)
    requires Inv(s) && s.writer.Copying? && i <= |s.writer.bytes|
    requires forall k :: 0 <= k < i ==> k in s.writer.done
    ensures Runs(s, actions)
    ensures var t := After(s, actions);
      && Inv(t) && t == s.(ring := t.ring, writer := t.writer) && |t.ring| == |s.ring|
      && t.writer.Copying? && t.writer.bytes == s.writer.bytes
      && forall k :: 0 <= k < |s.writer.bytes| ==> k in t.writer.done
    decreases |s.writer.bytes| - i
  {
    hide Wrap, PowerOfTwo, Holds, ReaderOk, StorePlace;
    Basics(s);
    if i == |s.writer.bytes| {
      actions := [];
    } else {
      StoreKeeps(s, i);
      var rest := Stores(Do(s, Store(i)), i + 1);
      First(s, Store(i), rest);
      actions := [Store(i)] + rest;
    }
  }

  lemma StoresAndBumps(s: Stream) returns (actions: seq<Action>)
    requires Inv(s) && s.writer.Copying?
    ensures Runs(s, actions) && HasWritten(s, After(s, actions), s.writer.bytes)
  {
    hide Wrap, PowerOfTwo, Holds, Counters, ReaderOk, WriterOk, Runs, After;
    assert s.ring != [] by { Basics(s); }
    actions := Stores(s, 0);
    RunOn(s, actions, WriteBump);
    actions := actions + [WriteBump];
  }

  /** A call of `Write` writes as much as there is room for. */
  lemma WriteAlone(s: Stream, buffer: seq<char>) returns (actions: seq<Action>)
    requires Inv(s) && s.writer.Idle?
    ensures |s.read| <= |s.written| && |Queue(s)| <= |s.ring| && Runs(s, actions)
    ensures var room := |s.ring| - |Queue(s)|;
      HasWritten(s, After(s, actions), if |buffer| <= room then buffer else buffer[..room])
  {
    hide Wrap, PowerOfTwo, Holds, ReaderOk;
    Basics(s);
    var s1 := Do(s, Write(buffer));
    StepKeeps(s, Write(buffer));
    assert |buffer| <= |s.ring| - |Queue(s)| ==> buffer[..|buffer|] == buffer;
    actions := StoresAndBumps(s1);
    First(s, Write(buffer), actions);
    actions := [Write(buffer)] + actions;
  }

  /** What `GetCanWriteBuff` gives room for in one piece can be written: up to the end of the ring or to the queue. */
  lemma FillAlone(s: Stream, bytes: seq<char>) returns (actions: seq<Action>)
    requires Inv(s) && s.writer.Idle? && |s.read| <= |s.written| && |s.ring| > 0
    requires |bytes| <= |s.ring| - |Queue(s)| && |bytes| <= |s.ring| - s.wcount % |s.ring|
    requires |Queue(s)| < |s.ring|
    ensures Runs(s, actions) && HasWritten(s, After(s, actions), bytes)
  {
    hide Wrap, PowerOfTwo, Holds, ReaderOk;
    Basics(s);
    Positions(s);
    var s1 := Do(s, GetCanWriteBuff);
    StepKeeps(s, GetCanWriteBuff);
    var s2 := Do(s1, GetRoom);
    StepKeeps(s1, GetRoom);
    var s3 := Do(s2, Fill(bytes));
    StepKeeps(s2, Fill(bytes));
    actions := StoresAndBumps(s3);
    First(s2, Fill(bytes), actions);
    First(s1, GetRoom, [Fill(bytes)] + actions);
    First(s, GetCanWriteBuff, [GetRoom] + ([Fill(bytes)] + actions));
    actions := [GetCanWriteBuff] + ([GetRoom] + ([Fill(bytes)] + actions));
  }
}
