/** The circular buffer of ByteQueue.java and the parts of its operations that run under the lock. */
module ByteQueues {
  import opened Basics
  import opened QueueThreads

  /** The n elements of a circular buffer that start at head. */
  function Window<T>(s: seq<T>, head: nat, n: nat): (w: seq<T>)
    requires head <= |s| && n <= |s|
    ensures |w| == n
  {
    if head + n <= |s| then s[head..head + n] else s[head..] + s[..head + n - |s|]
  }

  /** Where the head is after k elements have been taken off. */
  function Moved(head: nat, k: nat, length: nat): nat {
    if head + k >= length then 0 else head + k
  }

  lemma WindowAt<T>(s: seq<T>, head: nat, n: nat, i: nat)
    requires head <= |s| && i < n <= |s|
    ensures Window(s, head, n)[i] == if head + i < |s| then s[head + i] else s[head + i - |s|]
  {
  }

  lemma WindowTake<T>(s: seq<T>, head: nat, n: nat, k: nat)
    requires head < |s| && k <= n <= |s| && head + k <= |s|
    ensures Window(s, head, n) == s[head..head + k] + Window(s, Moved(head, k, |s|), n - k)
  {
    hide Window;
    var h := Moved(head, k, |s|);
    forall i | 0 <= i < n ensures Window(s, head, n)[i] == (s[head..head + k] + Window(s, h, n - k))[i] {
      WindowAt(s, head, n, i);
      if k <= i {
        WindowAt(s, h, n - k, i - k);
      }
    }
  }

  /** Storing elements at the tail appends them. */
  lemma WindowPut<T>(s: seq<T>, s': seq<T>, head: nat, n: nat, tail: nat, chunk: seq<T>)
    requires head < |s| && n + |chunk| <= |s|
    requires tail == if head + n >= |s| then head + n - |s| else head + n
    requires |chunk| <= if head + n >= |s| then head - tail else |s| - tail
    requires s' == s[..tail] + chunk + s[tail + |chunk|..]
    ensures |s'| == |s| && Window(s', head, n + |chunk|) == Window(s, head, n) + chunk
  {
    hide Window;
    forall i | 0 <= i < n + |chunk| ensures Window(s', head, n + |chunk|)[i] == (Window(s, head, n) + chunk)[i] {
      WindowAt(s', head, n + |chunk|, i);
      if i < n {
        WindowAt(s, head, n, i);
      }
    }
  }

  lemma TakenMore<T>(contents: seq<T>, dst0: seq<T>, before: seq<T>, after: seq<T>, offset: nat, chunk: seq<T>,
                     rest: seq<T>)
    requires offset <= |contents| && offset + |chunk| <= |dst0| && contents[offset..] == chunk + rest
    requires before == contents[..offset] + dst0[offset..]
    requires after == before[..offset] + chunk + before[offset + |chunk|..]
    ensures after == contents[..offset + |chunk|] + dst0[offset + |chunk|..] && rest == contents[offset + |chunk|..]
  {
    assert rest == (chunk + rest)[|chunk|..];
    assert chunk == contents[offset..offset + |chunk|] by {
      assert forall i :: 0 <= i < |chunk| ==> chunk[i] == contents[offset..][i];
    }
    assert before[..offset] == contents[..offset];
    assert before[offset + |chunk|..] == dst0[offset + |chunk|..];
    assert contents[..offset] + chunk == contents[..offset + |chunk|];
  }

  lemma PutMore<T>(contents: seq<T>, src: seq<T>, from: nat, offset: nat, n: nat)
    requires from <= offset <= offset + n <= |src|
    ensures contents + src[from..offset] + src[offset..offset + n] == contents + src[from..offset + n]
  {
    assert src[from..offset] + src[offset..offset + n] == src[from..offset + n];
  }

  /** System.arraycopy between different arrays. */
  method Copy(src: array<byte>, from: nat, dst: array<byte>, to: nat, n: nat)
    requires src != dst && from + n <= src.Length && to + n <= dst.Length
    modifies dst
    ensures dst[..] == old(dst[..])[..to] + src[from..from + n] + old(dst[..])[to + n..]
  {
    var k := 0;
    while k < n
      invariant k <= n
      invariant dst[..] == old(dst[..])[..to] + src[from..from + k] + old(dst[..])[to + k..]
    {
      dst[to + k] := src[from + k];
      k := k + 1;
    }
  }

  class ByteQueue {
    const buffer: array<byte>
    var head: nat
    var stored: nat
    var open: bool

    ghost predicate Valid()
      reads this
    {
      stored <= buffer.Length && (head < buffer.Length || head == 0)
    }

    ghost function Contents(): (s: seq<byte>)
      requires Valid()
      reads this, buffer
      ensures |s| == stored
    {
      Window(buffer[..], head, stored)
    }

    constructor (size: nat)
      ensures Valid() && fresh(buffer) && buffer.Length == size && open && Contents() == []
    {
      buffer := new byte[size];
      head, stored, open := 0, 0, true;
    }

    /** The first bytes of the contents have been moved to the destination. */
    ghost predicate TakenSoFar(dst: array<byte>, contents: seq<byte>, dst0: seq<byte>, offset: nat)
      requires Valid()
      reads this, buffer, dst
      ensures TakenSoFar(dst, contents, dst0, offset) ==> offset + stored == |contents|
    {
      && offset + stored == |contents| && offset <= dst.Length == |dst0|
      && Contents() == contents[offset..] && dst[..] == contents[..offset] + dst0[offset..]
    }

    /** Copies bytes that lie next to each other, and takes them off. */
    method TakeRun(dst: array<byte>, offset: nat, bytesToCopy: nat, ghost contents: seq<byte>, ghost dst0: seq<byte>)
      requires Valid() && dst != buffer && 0 < bytesToCopy <= stored && head + bytesToCopy <= buffer.Length
      requires TakenSoFar(dst, contents, dst0, offset) && offset + bytesToCopy <= dst.Length
      modifies this, dst
      ensures Valid() && open == old(open) && stored == old(stored) - bytesToCopy
      ensures TakenSoFar(dst, contents, dst0, offset + bytesToCopy)
    {
      hide Window;
      ghost var before := dst[..];
      WindowTake(buffer[..], head, stored, bytesToCopy);
      Copy(buffer, head, dst, offset, bytesToCopy);
      TakenMore(contents, dst0, before, dst[..], offset, buffer[head..head + bytesToCopy],
                Window(buffer[..], Moved(head, bytesToCopy, buffer.Length), stored - bytesToCopy));
      head := head + bytesToCopy;
      if head >= buffer.Length { head := 0; }
      stored := stored - bytesToCopy;
    }

    lemma NothingTaken(dst: array<byte>)
      requires Valid()
      ensures TakenSoFar(dst, Contents(), dst[..], 0)
    {
    }

    lemma AllTaken(dst: array<byte>, contents: seq<byte>, dst0: seq<byte>, offset: nat)
      requires Valid() && TakenSoFar(dst, contents, dst0, offset)
      ensures offset <= |contents| && offset <= |dst0| && Contents() == contents[offset..]
      ensures dst[..] == contents[..offset] + dst0[offset..]
    {
    }

    /** Takes bytes off until the destination is full or the queue is empty. */
    method Take(dst: array<byte>) returns (total: nat)
      requires Valid() && dst != buffer
      modifies this, dst
      ensures Valid() && open == old(open) && total == Min(dst.Length, old(stored))
      ensures Contents() == old(Contents())[total..]
      ensures dst[..] == old(Contents())[..total] + old(dst[..])[total..]
    {
      hide Contents, TakenSoFar;
      ghost var contents := Contents();
      var length, offset := dst.Length, 0;
      total := 0;
      NothingTaken(dst);
      while length > 0 && stored > 0
        invariant Valid() && open == old(open) && total == offset == dst.Length - length && 0 <= length
        invariant TakenSoFar(dst, contents, old(dst[..]), offset)
        decreases length
      {
        var oneRun := Min(buffer.Length - head, stored);
        var bytesToCopy := Min(length, oneRun);
        TakeRun(dst, offset, bytesToCopy, contents, old(dst[..]));
        length := length - bytesToCopy;
        offset := offset + bytesToCopy;
        total := total + bytesToCopy;
      }
      AllTaken(dst, contents, old(dst[..]), offset);
    }

    /** Appends bytes for which there is room. */
    method Put(src: array<byte>, from: nat, n: nat)
      requires Valid() && src != buffer && from + n <= src.Length && stored + n <= buffer.Length
      modifies this, buffer
      ensures Valid() && open == old(open)
      ensures Contents() == old(Contents()) + src[from..from + n]
    {
      hide Window;
      ghost var contents := Contents();
      var offset, left := from, n;
      while left > 0
        invariant Valid() && open == old(open) && 0 <= left && from <= offset && offset + left == from + n
        invariant stored + left <= buffer.Length
        invariant Contents() == contents + src[from..offset]
      {
        var tail := head + stored;
        var oneRun;
        if tail >= buffer.Length {
          tail := tail - buffer.Length;
          oneRun := head - tail;
        } else {
          oneRun := buffer.Length - tail;
        }
        var bytesToCopy := Min(oneRun, left);
        ghost var before := buffer[..];
        Copy(src, offset, buffer, tail, bytesToCopy);
        WindowPut(before, buffer[..], head, stored, tail, src[offset..offset + bytesToCopy]);
        PutMore(contents, src[..], from, offset, bytesToCopy);
        offset := offset + bytesToCopy;
        left := left - bytesToCopy;
        stored := stored + bytesToCopy;
      }
    }

    /**
      What read does from taking the lock to returning or waiting; a thread that has waited comes back here.
      The flag tells whether it calls notify.
     */
    method Read(dst: array<byte>, block: bool) returns (result: int, waits: bool, notifies: bool)
      requires Valid() && dst != buffer
      modifies this, dst
      ensures Valid() && open == old(open)
      ensures var section := ReadOnce(old(Contents()), buffer.Length, old(open), dst.Length, block);
              && waits == section.end.ReadWaits? && notifies == section.notifies && Contents() == section.contents
              && (!waits ==> result == section.end.result)
              && dst[..] == if waits then old(dst[..]) else section.end.bytes + old(dst[..])[|section.end.bytes|..]
    {
      if stored == 0 && open {
        return 0, block, false;
      }
      if !open {
        return -1, false, false;
      }
      waits, notifies := false, buffer.Length == stored;
      result := Take(dst);
    }

    /**
      What write does from taking the lock to returning or waiting, and where it stands then.  It takes up again at
      the position and with the length it had when it began to wait.
     */
    method Write(src: array<byte>, from: nat, length: nat) returns (ok: bool, waits: bool, notifies: bool, offset: nat)
      requires Valid() && src != buffer && from + length <= src.Length
      modifies this, buffer
      ensures Valid() && open == old(open) && from <= offset <= from + length
      ensures var section := WriteOnce(old(Contents()), buffer.Length, old(open), src[from..from + length]);
              && waits == section.end.WriteWaits? && notifies == section.notifies && Contents() == section.contents
              && (if waits then section.end.rest == src[offset..from + length] else ok == section.end.ok)
    {
      hide Window, WriteOnce;
      offset, notifies, ok, waits := from, false, false, false;
      ghost var data := src[from..from + length];
      ghost var contents := Contents();
      var left := length;
      NothingWritten(contents, buffer.Length, open, data);
      SomeWritten(contents, buffer.Length, data);
      while left > 0
        invariant Valid() && open == old(open) && 0 <= left && from <= offset && offset + left == from + length
        invariant Contents() == contents + src[from..offset]
        invariant offset == from ==> !notifies
        invariant offset > from ==>
                    && open && notifies == (contents == [])
                    && offset - from == Min(length, buffer.Length - |contents|)
      {
        if buffer.Length == stored && open {
          waits := true;
          assert data[offset - from..] == src[offset..from + length] && data[..offset - from] == src[from..offset];
          return;
        }
        if !open { return; }
        var wasEmpty := stored == 0;
        var n := Min(left, buffer.Length - stored);
        left := left - n;
        Put(src, offset, n);
        assert src[from..offset] + src[offset..offset + n] == src[from..offset + n];
        offset := offset + n;
        if wasEmpty { notifies := true; }
      }
      ok := true;
      assert offset > from ==> data[..length] == src[from..offset];
    }

    /** close, which notifies in any case. */
    method Close() returns (notifies: bool)
      requires Valid()
      modifies this
      ensures Valid() && !open && Contents() == old(Contents()) && notifies
    {
      open := false;
      notifies := true;
    }
  }

  /** A section of write that hands over nothing. */
  lemma NothingWritten(contents: seq<byte>, capacity: nat, open: bool, data: seq<byte>)
    requires |contents| <= capacity
    ensures data == [] ==>
              WriteOnce(contents, capacity, open, data) == WriteSection(WriteReturns(true), contents, false)
    ensures data != [] && !open ==>
              WriteOnce(contents, capacity, open, data) == WriteSection(WriteReturns(false), contents, false)
    ensures data != [] && open && |contents| == capacity ==>
              WriteOnce(contents, capacity, open, data) == WriteSection(WriteWaits(data), contents, false)
  {
  }

  /** A section of write that hands over as much as there is room for. */
  lemma SomeWritten(contents: seq<byte>, capacity: nat, data: seq<byte>)
    requires |contents| <= capacity
    ensures data != [] && |contents| < capacity ==>
              var n := Min(|data|, capacity - |contents|);
              && WriteOnce(contents, capacity, true, data).contents == contents + data[..n]
              && WriteOnce(contents, capacity, true, data).notifies == (contents == [])
              && WriteOnce(contents, capacity, true, data).end
                 == if n == |data| then WriteReturns(true) else WriteWaits(data[n..])
  {
  }

  /** The checks of write on its arguments, made before the lock is taken; an error is an IllegalArgumentException. */
  datatype Check = ArgumentsOk | LengthTooLarge | LengthNotPositive

  function CheckWrite(bufferLength: nat, offset: nat, lengthToWrite: int): (c: Check)
    ensures c.ArgumentsOk? <==> 0 < lengthToWrite <= bufferLength - offset
  {
    if lengthToWrite + offset > bufferLength then LengthTooLarge
    else if lengthToWrite <= 0 then LengthNotPositive
    else ArgumentsOk
  }
}
