/** The byte sinks both serializers write to (src/write.rs): the growable
    `&mut Vec<u8>` sink and the fixed-buffer `BuffWriter`. */
module Write {
  import opened Bytes
  import opened Wrappers

  /** `impl Write for &mut Vec<u8>`: every write appends and none fails. */
  class VecSink {
    var bytes: seq<u8>

    constructor (init: seq<u8>)
      ensures bytes == init
    {
      bytes := init;
    }

    /** `push`; the count of one byte stands for the `()` the trait returns. */
    method WriteByte(b: u8) returns (n: nat)
      modifies this
      ensures bytes == old(bytes) + [b]
      ensures n == 1
    {
      bytes := bytes + [b];
      n := 1;
    }

    /** `extend_from_slice`, returning the number of bytes appended. */
    method WriteBytes(bs: seq<u8>) returns (n: nat)
      modifies this
      ensures bytes == old(bytes) + bs
      ensures n == |bs|
    {
      bytes := bytes + bs;
      n := |bs|;
    }
  }

  datatype EndOfBuff = EndOfBuff

  /** Whether `after` is `before` with `bs` copied in at offset `at` and every
      other cell left as it was. */
  ghost predicate CopiedAt(after: seq<u8>, before: seq<u8>, at: nat, bs: seq<u8>)
  {
    |after| == |before| && at + |bs| <= |before|
    && (forall k :: 0 <= k < |after| && !(at <= k < at + |bs|) ==> after[k] == before[k])
    && (forall k :: at <= k < at + |bs| ==> after[k] == bs[k - at])
  }

  /** A sink over a caller-provided buffer, writing at `head`. */
  class BuffWriter {
    const buff: array<u8>
    var head: nat

    /** `BuffWriter::new`: writing starts at the front of the buffer. */
    constructor (buff: array<u8>)
      ensures this.buff == buff && head == 0
    {
      this.buff := buff;
      head := 0;
    }

    /** Stores `b` at `buff[head]` and moves `head` past it; at the end of
        the buffer fails with `EndOfBuff` and changes nothing. */
    method WriteByte(b: u8) returns (r: Result<(), EndOfBuff>)
      modifies this, buff
      ensures old(head) < buff.Length ==>
        r.Ok? && head == old(head) + 1 && buff[..] == old(buff[..])[old(head) := b]
      ensures old(head) >= buff.Length ==>
        r == Err(EndOfBuff) && head == old(head) && buff[..] == old(buff[..])
    {
      if head >= buff.Length {
        return Err(EndOfBuff);
      }
      buff[head] := b;
      head := head + 1;
      r := Ok(());
    }

    /** `write_bytes` as written: copies `bs` into `buff[head..head + |bs|]`
        and returns `|bs|`, but leaves `head` where it was; when the range
        does not fit, fails with `EndOfBuff` and writes nothing. */
    method WriteBytes(bs: seq<u8>) returns (r: Result<nat, EndOfBuff>)
      modifies buff
      ensures head + |bs| <= buff.Length ==>
        r == Ok(|bs|) && CopiedAt(buff[..], old(buff[..]), head, bs)
      ensures head + |bs| > buff.Length ==>
        r == Err(EndOfBuff) && buff[..] == old(buff[..])
    {
      if head + |bs| > buff.Length {
        return Err(EndOfBuff);
      }
      CopyAt(bs);
      r := Ok(|bs|);
    }

    /** `write_bytes` with the evident intent: as `WriteBytes`, then `head`
        moves past the copied bytes, so that consecutive writes follow each
        other in the buffer. */
    method WriteBytesAdvancing(bs: seq<u8>) returns (r: Result<nat, EndOfBuff>)
      modifies this, buff
      ensures old(head) + |bs| <= buff.Length ==>
        r == Ok(|bs|) && head == old(head) + |bs|
        && CopiedAt(buff[..], old(buff[..]), old(head), bs)
      ensures old(head) + |bs| > buff.Length ==>
        r == Err(EndOfBuff) && head == old(head) && buff[..] == old(buff[..])
    {
      if head + |bs| > buff.Length {
        return Err(EndOfBuff);
      }
      CopyAt(bs);
      head := head + |bs|;
      r := Ok(|bs|);
    }

    /** `copy_from_slice` into `buff[head..head + |bs|]`. */
    method CopyAt(bs: seq<u8>)
      requires head + |bs| <= buff.Length
      modifies buff
      ensures CopiedAt(buff[..], old(buff[..]), head, bs)
    {
      var i := 0;
      while i < |bs|
        invariant 0 <= i <= |bs|
        invariant forall k :: 0 <= k < buff.Length && !(head <= k < head + i) ==> buff[k] == old(buff[k])
        invariant forall k :: head <= k < head + i ==> buff[k] == bs[k - head]
      {
        buff[head + i] := bs[i];
        i := i + 1;
      }
    }

    /** `write_byte_matrix` with the corrected `write_bytes`: the parts land
        one after the other from `head` on, and `head` moves past all of them.
        When they do not all fit, the fold stops at the first part that does
        not: the parts before it stay written, `head` is past them, and the
        result is `EndOfBuff`. The head never passes the end of the buffer,
        since every write checks the room first. */
    method WriteMatrixAdvancing(parts: seq<seq<u8>>) returns (r: Result<nat, EndOfBuff>)
      requires head <= buff.Length
      modifies this, buff
      ensures old(head) + |Flatten(parts)| <= buff.Length ==>
        r == Ok(|Flatten(parts)|) && head == old(head) + |Flatten(parts)|
        && CopiedAt(buff[..], old(buff[..]), old(head), Flatten(parts))
      ensures old(head) + |Flatten(parts)| > buff.Length ==>
        r == Err(EndOfBuff)
        && (exists k :: 0 <= k < |parts| && old(head) + |Flatten(parts[..k + 1])| > buff.Length
              && head == old(head) + |Flatten(parts[..k])|
              && CopiedAt(buff[..], old(buff[..]), old(head), Flatten(parts[..k])))
    {
      var total := 0;
      var i := 0;
      while i < |parts|
        invariant 0 <= i <= |parts|
        invariant head == old(head) + total && total == |Flatten(parts[..i])|
        invariant CopiedAt(buff[..], old(buff[..]), old(head), Flatten(parts[..i]))
      {
        FlattenPrefix(parts, i);
        ghost var before := buff[..];
        var w := WriteBytesAdvancing(parts[i]);
        if w.Err? {
          assert old(head) + |Flatten(parts[..i + 1])| > buff.Length;
          return Err(EndOfBuff);
        }
        CopiedAtExtend(buff[..], before, old(buff[..]), old(head), Flatten(parts[..i]), parts[i]);
        total := total + w.value;
        i := i + 1;
      }
      assert parts[..|parts|] == parts;
      r := Ok(total);
    }
  }

  /** Copying `more` right after a copied range extends the range. */
  lemma CopiedAtExtend(after: seq<u8>, mid: seq<u8>, before: seq<u8>, at: nat, bs: seq<u8>, more: seq<u8>)
    requires CopiedAt(mid, before, at, bs)
    requires CopiedAt(after, mid, at + |bs|, more)
    ensures CopiedAt(after, before, at, bs + more)
  {
  }

  lemma {:induction false} FlattenPrefix(parts: seq<seq<u8>>, i: nat)
    requires i < |parts|
    ensures Flatten(parts[..i + 1]) == Flatten(parts[..i]) + parts[i]
    ensures |Flatten(parts[..i + 1])| <= |Flatten(parts)|
    decreases |parts| - i
  {
    assert parts[..i + 1][..i] == parts[..i];
    if i + 1 < |parts| {
      FlattenPrefix(parts, i + 1);
    } else {
      assert parts[..i + 1] == parts;
    }
  }

  /** `serialize_u8(5)` into a two-byte buffer as written: `write_tag_then`
      sends the tag and the value through two `write_bytes` calls, the second
      overwrites the first and `head` never moves. */
  method U8IntoBufferAsWritten() returns (contents: seq<u8>, head: nat)
    ensures contents == [5, 0] && head == 0
  {
    var a := new u8[2](_ => 0);
    var w := new BuffWriter(a);
    var _ := w.WriteBytes([8]);
    var _ := w.WriteBytes([5]);
    contents := a[..];
    head := w.head;
  }

  /** The same calls with the corrected `write_bytes`: tag then value. */
  method U8IntoBufferCorrected() returns (contents: seq<u8>, head: nat)
    ensures contents == [8, 5] && head == 2
  {
    var a := new u8[2](_ => 0);
    var w := new BuffWriter(a);
    var _ := w.WriteBytesAdvancing([8]);
    var _ := w.WriteBytesAdvancing([5]);
    contents := a[..];
    head := w.head;
  }
}
