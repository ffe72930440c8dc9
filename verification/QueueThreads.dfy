/**
  The monitor of ByteQueue.java: one reader thread and one writer thread that share a bounded queue, and a close
  that can come at any time.  Between acquiring the lock and releasing it (by returning or by waiting) a thread
  runs alone, so every such section is one step; the steps of the two threads interleave freely.
 */
module QueueThreads {

  import opened Basics

  newtype byte = x: int | -128 <= x < 128

  // ----- The sections -----

  /** How a section of read ends: it waits for bytes, or it returns the bytes read (and -1 for none after a close). */
  datatype ReadEnd = ReadWaits | ReadReturns(result: int, bytes: seq<byte>)

  datatype ReadSection = ReadSection(end: ReadEnd, contents: seq<byte>, notifies: bool)

  /** A section of read on a queue with room for capacity bytes, for a destination of the given length. */
  function ReadOnce(contents: seq<byte>, capacity: nat, open: bool, length: nat, block: bool): ReadSection {
    if contents == [] && open then ReadSection(if block then ReadWaits else ReadReturns(0, []), contents, false)
    else if !open then ReadSection(ReadReturns(-1, []), contents, false)
    else
      var n := Min(length, |contents|);
      ReadSection(ReadReturns(n, contents[..n]), contents[n..], |contents| == capacity)
  }

  /** How a section of write ends: it waits for room with some bytes left, or it returns. */
  datatype WriteEnd = WriteWaits(rest: seq<byte>) | WriteReturns(ok: bool)

  datatype WriteSection = WriteSection(end: WriteEnd, contents: seq<byte>, notifies: bool)

  function WriteOnce(contents: seq<byte>, capacity: nat, open: bool, data: seq<byte>): (s: WriteSection)
    requires |contents| <= capacity
    ensures |s.contents| <= capacity
  {
    if data == [] then WriteSection(WriteReturns(true), contents, false)
    else if |contents| == capacity && open then WriteSection(WriteWaits(data), contents, false)
    else if !open then WriteSection(WriteReturns(false), contents, false)
    else
      var n := Min(|data|, capacity - |contents|);
      WriteSection(if n == |data| then WriteReturns(true) else WriteWaits(data[n..]),
                   contents + data[..n], contents == [])
  }

  // ----- The threads -----

  /** Waiting means in the wait set; a notified thread has left it and will take the lock again. */
  datatype Reader = ReaderIdle | ReaderWaiting(length: nat) | ReaderNotified(length: nat)

  /** The data is what is left of the bytes of the call. */
  datatype Writer = WriterIdle | WriterWaiting(data: seq<byte>) | WriterNotified(data: seq<byte>)

  /** A call of write that has returned: its argument, how much of it was accepted, and its result. */
  datatype WriteCall = WriteCall(data: seq<byte>, accepted: nat, ok: bool)

  /** A call of read that has returned: the length of the destination, the result and the bytes. */
  datatype ReadCall = ReadCall(length: nat, result: int, bytes: seq<byte>)

  /**
    The queue and its two threads, with a record of all calls that have returned.  The argument of the call of write
    that has not returned is in writing, of which written bytes have been accepted.
   */
  datatype Threads = Threads(
    capacity: nat, contents: seq<byte>, open: bool, reader: Reader, writer: Writer,
    writing: seq<byte>, written: nat, writeCalls: seq<WriteCall>, readCalls: seq<ReadCall>)

  function Start(capacity: nat): (s: Threads)
    ensures Consistent(s)
  {
    Threads(capacity, [], true, ReaderIdle, WriterIdle, [], 0, [], [])
  }

  /** notify wakes one waiting thread; which one is up to the virtual machine. */
  function Notify(s: Threads, readerFirst: bool): Threads {
    if s.reader.ReaderWaiting? && (readerFirst || !s.writer.WriterWaiting?) then
      s.(reader := ReaderNotified(s.reader.length))
    else if s.writer.WriterWaiting? then s.(writer := WriterNotified(s.writer.data))
    else s
  }

  /** The lock is taken for a section of read. */
  function ReaderRuns(s: Threads, length: nat, block: bool, readerFirst: bool): Threads {
    var section := ReadOnce(s.contents, s.capacity, s.open, length, block);
    var s1 := s.(contents := section.contents, reader := ReaderIdle);
    var s2 := if section.notifies then Notify(s1, readerFirst) else s1;
    match section.end
    case ReadWaits => s2.(reader := ReaderWaiting(length))
    case ReadReturns(result, bytes) => s2.(readCalls := s2.readCalls + [ReadCall(length, result, bytes)])
  }

  function WriterRuns(s: Threads, data: seq<byte>, readerFirst: bool): Threads
    requires |s.contents| <= s.capacity
  {
    var section := WriteOnce(s.contents, s.capacity, s.open, data);
    var s1 := s.(contents := section.contents, writer := WriterIdle,
                 written := s.written + (|section.contents| - |s.contents|));
    var s2 := if section.notifies then Notify(s1, readerFirst) else s1;
    match section.end
    case WriteWaits(rest) => s2.(writer := WriterWaiting(rest))
    case WriteReturns(ok) =>
      s2.(writing := [], written := 0, writeCalls := s2.writeCalls + [WriteCall(s2.writing, s2.written, ok)])
  }

  /** Interrupts and spurious wake-ups end a wait without a notification. */
  datatype Action =
    | CallRead(length: nat, block: bool)
    | ResumeRead
    | CallWrite(data: seq<byte>)
    | ResumeWrite
    | Close
    | WakeReader
    | WakeWriter

  /** An action that the threads cannot take in this state changes nothing. */
  function Step(s: Threads, a: Action, readerFirst: bool): Threads
    requires |s.contents| <= s.capacity
  {
    match a
    case CallRead(length, block) => if s.reader.ReaderIdle? then ReaderRuns(s, length, block, readerFirst) else s
    case ResumeRead => if s.reader.ReaderNotified? then ReaderRuns(s, s.reader.length, true, readerFirst) else s
    case CallWrite(data) =>
      if s.writer.WriterIdle? && data != [] then WriterRuns(s.(writing := data, written := 0), data, readerFirst) else s
    case ResumeWrite => if s.writer.WriterNotified? then WriterRuns(s, s.writer.data, readerFirst) else s
    case Close => Notify(s.(open := false), readerFirst)
    case WakeReader => if s.reader.ReaderWaiting? then s.(reader := ReaderNotified(s.reader.length)) else s
    case WakeWriter => if s.writer.WriterWaiting? then s.(writer := WriterNotified(s.writer.data)) else s
  }

  /** A run of the threads; with every action comes the thread that a notification prefers. */
  function Run(s: Threads, actions: seq<(Action, bool)>): (s': Threads)
    requires Consistent(s)
    ensures Consistent(s')
  {
    if actions == [] then s
    else
      var before := Run(s, actions[..|actions| - 1]);
      var (a, readerFirst) := actions[|actions| - 1];
      StepConsistent(before, a, readerFirst);
      Step(before, a, readerFirst)
  }

  // ----- First in, first out -----

  function Accepted(writeCalls: seq<WriteCall>): seq<byte>
    requires forall i :: 0 <= i < |writeCalls| ==> writeCalls[i].accepted <= |writeCalls[i].data|
  {
    if writeCalls == [] then []
    else
      var n := |writeCalls| - 1;
      Accepted(writeCalls[..n]) + writeCalls[n].data[..writeCalls[n].accepted]
  }

  function Delivered(readCalls: seq<ReadCall>): seq<byte> {
    if readCalls == [] then [] else Delivered(readCalls[..|readCalls| - 1]) + readCalls[|readCalls| - 1].bytes
  }

  /** All bytes that writers have handed over, in order. */
  function AllAccepted(s: Threads): seq<byte>
    requires CallsOk(s)
  {
    Accepted(s.writeCalls) + s.writing[..s.written]
  }

  predicate CallsOk(s: Threads) {
    && (forall i :: 0 <= i < |s.writeCalls| ==> s.writeCalls[i].accepted <= |s.writeCalls[i].data|)
    && (forall i :: 0 <= i < |s.writeCalls| ==>
        (s.writeCalls[i].ok <==> s.writeCalls[i].accepted == |s.writeCalls[i].data|))
    && s.written <= |s.writing|
  }

  /** The bytes a writer has left are those of its call that have not been accepted. */
  predicate WriterOk(s: Threads)
    requires s.written <= |s.writing|
  {
    match s.writer
    case WriterIdle => s.writing == []
    case WriterWaiting(data) => data == s.writing[s.written..] && data != []
    case WriterNotified(data) => data == s.writing[s.written..] && data != []
  }

  predicate Consistent(s: Threads)
    ensures Consistent(s) ==> |s.contents| <= s.capacity
  {
    && |s.contents| <= s.capacity && CallsOk(s) && WriterOk(s)
    && Delivered(s.readCalls) + s.contents == AllAccepted(s)
  }

  lemma DeliveredAppend(readCalls: seq<ReadCall>, call: ReadCall)
    ensures Delivered(readCalls + [call]) == Delivered(readCalls) + call.bytes
  {
    assert (readCalls + [call])[..|readCalls|] == readCalls;
  }

  lemma AcceptedAppend(writeCalls: seq<WriteCall>, call: WriteCall)
    requires forall i :: 0 <= i < |writeCalls| ==> writeCalls[i].accepted <= |writeCalls[i].data|
    requires call.accepted <= |call.data|
    ensures Accepted(writeCalls + [call]) == Accepted(writeCalls) + call.data[..call.accepted]
  {
    assert (writeCalls + [call])[..|writeCalls|] == writeCalls;
  }

  lemma ReaderRunsConsistent(s: Threads, length: nat, block: bool, readerFirst: bool)
    requires Consistent(s)
    ensures Consistent(ReaderRuns(s, length, block, readerFirst))
  {
    hide Delivered, Accepted;
    var section := ReadOnce(s.contents, s.capacity, s.open, length, block);
    if section.end.ReadReturns? {
      var call := ReadCall(length, section.end.result, section.end.bytes);
      DeliveredAppend(s.readCalls, call);
      assert call.bytes + section.contents == s.contents;
      Assoc(Delivered(s.readCalls), call.bytes, section.contents);
    }
  }

  lemma AcceptMore(delivered: seq<byte>, contents: seq<byte>, accepted: seq<byte>, writing: seq<byte>, written: nat,
                   n: nat)
    requires written + n <= |writing| && delivered + contents == accepted + writing[..written]
    ensures delivered + (contents + writing[written..][..n]) == accepted + writing[..written + n]
    ensures writing[written..][n..] == writing[written + n..]
  {
    var more := writing[written..][..n];
    Assoc(delivered, contents, more);
    Assoc(accepted, writing[..written], more);
    assert writing[..written] + more == writing[..written + n];
  }

  lemma WriterRunsConsistent(s: Threads, readerFirst: bool)
    requires |s.contents| <= s.capacity && CallsOk(s) && s.written < |s.writing|
    requires Delivered(s.readCalls) + s.contents == AllAccepted(s)
    ensures Consistent(WriterRuns(s, s.writing[s.written..], readerFirst))
  {
    hide Delivered, Accepted;
    var data := s.writing[s.written..];
    var section := WriteOnce(s.contents, s.capacity, s.open, data);
    var n := |section.contents| - |s.contents|;
    assert section.contents == s.contents + data[..n];
    AcceptMore(Delivered(s.readCalls), s.contents, Accepted(s.writeCalls), s.writing, s.written, n);
    if section.end.WriteReturns? {
      AcceptedAppend(s.writeCalls, WriteCall(s.writing, s.written + n, section.end.ok));
    }
  }

  lemma StepConsistent(s: Threads, a: Action, readerFirst: bool)
    requires Consistent(s)
    ensures Consistent(Step(s, a, readerFirst))
  {
    hide ReaderRuns, WriterRuns, Consistent, CallsOk, WriterOk, AllAccepted, Notify;
    match a
    case CallRead(length, block) => ReaderRunsConsistent(s, length, block, readerFirst);
    case ResumeRead =>
      if s.reader.ReaderNotified? {
        ReaderRunsConsistent(s, s.reader.length, true, readerFirst);
      }
    case CallWrite(data) =>
      if s.writer.WriterIdle? && data != [] {
        CallStarts(s, data);
        WriterRunsConsistent(s.(writing := data, written := 0), readerFirst);
      }
    case ResumeWrite =>
      if s.writer.WriterNotified? {
        CallResumes(s);
        WriterRunsConsistent(s, readerFirst);
      }
    case Close | WakeReader | WakeWriter => WakingConsistent(s, a, readerFirst);
  }

  lemma CallStarts(s: Threads, data: seq<byte>)
    requires Consistent(s) && s.writer.WriterIdle? && data != []
    ensures var s' := s.(writing := data, written := 0);
            CallsOk(s') && Delivered(s'.readCalls) + s'.contents == AllAccepted(s') && data == data[0..]
  {
    hide Delivered, Accepted;
    assert s.writing[..s.written] == [] == data[..0];
  }

  lemma CallResumes(s: Threads)
    requires Consistent(s) && s.writer.WriterNotified?
    ensures CallsOk(s) && s.written < |s.writing| && s.writer.data == s.writing[s.written..]
    ensures Delivered(s.readCalls) + s.contents == AllAccepted(s)
  {
    hide Delivered, Accepted;
  }

  lemma WakingConsistent(s: Threads, a: Action, readerFirst: bool)
    requires Consistent(s) && (a.Close? || a.WakeReader? || a.WakeWriter?)
    ensures Consistent(Step(s, a, readerFirst))
  {
    hide Delivered, Accepted;
  }

  /** In every run, what has been delivered followed by what is stored is what has been accepted. */
  lemma FirstInFirstOut(capacity: nat, actions: seq<(Action, bool)>)
    ensures var s := Run(Start(capacity), actions);
            && Delivered(s.readCalls) + s.contents == AllAccepted(s) && |s.contents| <= s.capacity
            && forall i :: 0 <= i < |s.writeCalls| ==>
                (s.writeCalls[i].ok <==> s.writeCalls[i].accepted == |s.writeCalls[i].data|)
  {
  }

  // ----- The accepted bytes are a prefix of the bytes offered -----

  function Offered(writeCalls: seq<WriteCall>): seq<byte> {
    if writeCalls == [] then [] else Offered(writeCalls[..|writeCalls| - 1]) + writeCalls[|writeCalls| - 1].data
  }

  /** Once a call has failed the queue is closed and nothing more is accepted. */
  predicate NoGaps(s: Threads) {
    && (forall i :: 0 <= i < |s.writeCalls| && !s.writeCalls[i].ok ==> !s.open && s.written == 0)
    && (forall i, j :: 0 <= i < j < |s.writeCalls| && !s.writeCalls[i].ok ==> s.writeCalls[j].accepted == 0)
  }

  lemma StepNoGaps(s: Threads, a: Action, readerFirst: bool)
    requires Consistent(s) && NoGaps(s)
    ensures NoGaps(Step(s, a, readerFirst))
  {
    hide Delivered, Accepted, WriterRuns, ReaderRuns, CallsOk;
    match a
    case CallRead(length, block) => ReaderKeepsWrites(s, length, block, readerFirst);
    case ResumeRead =>
      if s.reader.ReaderNotified? {
        ReaderKeepsWrites(s, s.reader.length, true, readerFirst);
      }
    case CallWrite(data) =>
      if s.writer.WriterIdle? && data != [] {
        WriterNoGaps(s.(writing := data, written := 0), data, readerFirst);
      }
    case ResumeWrite =>
      if s.writer.WriterNotified? {
        WriterNoGaps(s, s.writer.data, readerFirst);
      }
    case Close =>
    case WakeReader =>
    case WakeWriter =>
  }

  lemma ReaderKeepsWrites(s: Threads, length: nat, block: bool, readerFirst: bool)
    ensures var s' := ReaderRuns(s, length, block, readerFirst);
            s'.writeCalls == s.writeCalls && s'.written == s.written && s'.open == s.open
  {
  }

  lemma WriterNoGaps(s: Threads, data: seq<byte>, readerFirst: bool)
    requires |s.contents| <= s.capacity && NoGaps(s) && data != []
    ensures NoGaps(WriterRuns(s, data, readerFirst))
  {
  }

  lemma {:induction false} RunNoGaps(capacity: nat, actions: seq<(Action, bool)>)
    ensures NoGaps(Run(Start(capacity), actions))
  {
    hide Delivered, Accepted, Step;
    if actions != [] {
      RunNoGaps(capacity, actions[..|actions| - 1]);
      var (a, readerFirst) := actions[|actions| - 1];
      StepNoGaps(Run(Start(capacity), actions[..|actions| - 1]), a, readerFirst);
    }
  }

  lemma {:induction false} AcceptedOfUnbroken(writeCalls: seq<WriteCall>)
    requires forall i :: 0 <= i < |writeCalls| ==> writeCalls[i].accepted <= |writeCalls[i].data|
    requires forall i :: 0 <= i < |writeCalls| ==>
               (writeCalls[i].ok <==> writeCalls[i].accepted == |writeCalls[i].data|)
    requires forall i, j :: 0 <= i < j < |writeCalls| && !writeCalls[i].ok ==> writeCalls[j].accepted == 0
    ensures Accepted(writeCalls) <= Offered(writeCalls)
    ensures (forall i :: 0 <= i < |writeCalls| ==> writeCalls[i].ok) ==> Accepted(writeCalls) == Offered(writeCalls)
  {
    if writeCalls != [] {
      var n := |writeCalls| - 1;
      AcceptedOfUnbroken(writeCalls[..n]);
      if i :| 0 <= i < n && !writeCalls[i].ok {
        assert writeCalls[n].accepted == 0;
      } else {
        assert forall i :: 0 <= i < n ==> writeCalls[..n][i].ok;
      }
    }
  }

  /** In every run the reader gets a prefix of the bytes of all calls of write, in the order of the calls. */
  lemma DeliveredIsPrefix(capacity: nat, actions: seq<(Action, bool)>)
    ensures var s := Run(Start(capacity), actions); Delivered(s.readCalls) <= Offered(s.writeCalls) + s.writing
  {
    hide Delivered, Accepted, Offered, Run;
    var s := Run(Start(capacity), actions);
    RunNoGaps(capacity, actions);
    AcceptedOfUnbroken(s.writeCalls);
    PrefixOf(Delivered(s.readCalls), s.contents, AllAccepted(s));
    if s.written == 0 {
      assert AllAccepted(s) == Accepted(s.writeCalls);
    }
    assert AllAccepted(s) <= Offered(s.writeCalls) + s.writing;
  }

  lemma PrefixOf<T>(a: seq<T>, b: seq<T>, c: seq<T>)
    requires a + b == c
    ensures a <= c
  {
  }

  // ----- No wake-up is lost -----

  /** A thread in the wait set has a reason to wait. */
  predicate WaitsForAReason(s: Threads) {
    && (s.reader.ReaderWaiting? ==> s.contents == [] && s.open)
    && (s.writer.WriterWaiting? ==> |s.contents| == s.capacity && s.open)
  }

  lemma StepWaits(s: Threads, a: Action, readerFirst: bool)
    requires Consistent(s) && WaitsForAReason(s) && 1 <= s.capacity
    ensures WaitsForAReason(Step(s, a, readerFirst)) && Step(s, a, readerFirst).capacity == s.capacity
  {
    hide Delivered, Accepted, CallsOk;
  }

  lemma {:induction false} RunWaits(capacity: nat, actions: seq<(Action, bool)>)
    requires 1 <= capacity
    ensures var s := Run(Start(capacity), actions); WaitsForAReason(s) && s.capacity == capacity
  {
    hide Delivered, Accepted, Step, Consistent;
    if actions != [] {
      RunWaits(capacity, actions[..|actions| - 1]);
      var (a, readerFirst) := actions[|actions| - 1];
      StepWaits(Run(Start(capacity), actions[..|actions| - 1]), a, readerFirst);
    }
  }

  const BOTH_WAIT: seq<(Action, bool)> := [(CallRead(1, true), true), (CallWrite([0]), true), (Close, true)]

  /** Without room for a single byte both threads wait, and close wakes only one of them. */
  lemma BothWaitWithoutRoom()
    ensures var s := Run(Start(0), BOTH_WAIT); s.writer.WriterWaiting? && !s.open
  {
    var s0 := Start(0);
    assert BOTH_WAIT[..2][..1][..0] == [] && BOTH_WAIT[..2][..1] == [BOTH_WAIT[0]]
           && BOTH_WAIT[..2] == [BOTH_WAIT[0], BOTH_WAIT[1]];
    assert Run(s0, []) == s0;
    var s1 := Run(s0, BOTH_WAIT[..2][..1]);
    assert s1 == s0.(reader := ReaderWaiting(1));
    var s2 := Run(s0, BOTH_WAIT[..2]);
    assert s2 == s1.(writer := WriterWaiting([0]), writing := [0]);
  }

  /** No run loses a wake-up exactly if the queue has room for at least one byte. */
  lemma NoLostWakeups(capacity: nat)
    ensures (forall actions :: WaitsForAReason(Run(Start(capacity), actions))) <==> 1 <= capacity
  {
    hide Run;
    if 1 <= capacity {
      forall actions ensures WaitsForAReason(Run(Start(capacity), actions)) {
        RunWaits(capacity, actions);
      }
    } else {
      BothWaitWithoutRoom();
    }
  }

  lemma NeverBothWaiting(capacity: nat, actions: seq<(Action, bool)>)
    requires 1 <= capacity
    ensures var s := Run(Start(capacity), actions); !(s.reader.ReaderWaiting? && s.writer.WriterWaiting?)
  {
    hide Run;
    RunWaits(capacity, actions);
  }

  /**
    Two threads that are both in a call are never stuck: the reader can return, or the writer can return or hand over
    at least one byte, whichever thread a notification prefers.
   */
  lemma Progress(capacity: nat, actions: seq<(Action, bool)>, readerFirst: bool)
    requires 1 <= capacity
    requires var s := Run(Start(capacity), actions); !s.reader.ReaderIdle? && !s.writer.WriterIdle?
    ensures var s := Run(Start(capacity), actions);
            || (s.reader.ReaderNotified? && Step(s, ResumeRead, readerFirst).reader.ReaderIdle?)
            || (s.writer.WriterNotified?
                && var s' := Step(s, ResumeWrite, readerFirst); s'.writer.WriterIdle? || s.written < s'.written)
  {
    hide Run, Delivered, Accepted, CallsOk;
    RunWaits(capacity, actions);
  }
}
