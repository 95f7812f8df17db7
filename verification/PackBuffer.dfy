/** The buffer that generated tracing code packs its arguments into. */
module PackBuffer {
  import opened Common

  const INT_MAX: nat := 0x7FFF_FFFF

  // ----- sizes -----

  /** The size asked for grows by half, rounded down, and is never tiny. */
  function Grown(newSize: nat): nat
  {
    var more := newSize * 3 / 2;
    if more < 32 then 32 else more
  }

  function SizeAfter(size: nat, offset: nat, len: nat): nat
  {
    if offset + len > size then Grown(size + len) else size
  }

  /** No integer overflows when `len` bytes are written. */
  predicate Fits(size: nat, offset: nat, len: nat)
  {
    offset + len <= INT_MAX && (offset + len > size ==> (size + len) * 3 / 2 <= INT_MAX)
  }

  function Len(payload: Option<string>): nat
  {
    if payload.None? then 0 else |payload.value|
  }

  /** No integer overflows when all of the payloads are written. */
  predicate AllFit(size: nat, offset: nat, payloads: seq<Option<string>>)
    decreases |payloads|
  {
    payloads == [] ||
    (Fits(size, offset, Len(payloads[0]))
     && AllFit(SizeAfter(size, offset, Len(payloads[0])), offset + Len(payloads[0]), payloads[1..]))
  }

  function TotalLen(payloads: seq<Option<string>>): nat
  {
    if payloads == [] then 0 else Len(payloads[0]) + TotalLen(payloads[1..])
  }

  /** Whatever the buffer starts with, payloads of up to a third of the largest integer fit. */
  lemma {:induction false} SmallPayloadsFit(size: nat, offset: nat, payloads: seq<Option<string>>)
    requires offset <= size && 3 * (offset + TotalLen(payloads)) <= INT_MAX
    ensures AllFit(size, offset, payloads)
    decreases |payloads|
  {
    if payloads != [] {
      SmallPayloadsFit(SizeAfter(size, offset, Len(payloads[0])), offset + Len(payloads[0]), payloads[1..]);
    }
  }

  /** What the payloads amount to: those that are there, one after the other. */
  function Concat(payloads: seq<Option<string>>): string
  {
    if payloads == [] then "" else (if payloads[0].None? then "" else payloads[0].value) + Concat(payloads[1..])
  }

  lemma {:induction false} NextPayload(payloads: seq<Option<string>>, i: nat, size: nat, offset: nat)
    requires i < |payloads| && AllFit(size, offset, payloads[i..])
    ensures Concat(payloads[i..]) == (if payloads[i].None? then "" else payloads[i].value) + Concat(payloads[i+1..])
    ensures Fits(size, offset, Len(payloads[i]))
    ensures AllFit(SizeAfter(size, offset, Len(payloads[i])), offset + Len(payloads[i]), payloads[i+1..])
  {
    assert payloads[i..][1..] == payloads[i+1..];
  }

  // ----- the buffer -----

  ghost predicate NoDuplicates<T>(s: seq<T>)
  {
    forall i, j :: 0 <= i < j < |s| ==> s[i] != s[j]
  }

  class Packer {
    const stackBuffer: array<char>
    var buffer: array<char>
    var offset: nat
    var size: nat
    var fixedBuffer: bool

    /** The heap buffers acquired so far, and those released, in order. */
    ghost var acquired: set<array<char>>
    ghost var released: seq<array<char>>

    constructor (stackBuffer: array<char>)
      ensures Valid() && Contents() == "" && this.stackBuffer == stackBuffer && acquired == {}
      ensures offset == 0 && size == stackBuffer.Length && buffer == stackBuffer
    {
      this.stackBuffer, buffer := stackBuffer, stackBuffer;
      offset, size, fixedBuffer := 0, stackBuffer.Length, true;
      acquired, released := {}, [];
    }

    /** All heap buffers but the current one were released, once; the stack buffer is none of them. */
    ghost predicate Valid()
      reads this
    {
      && size == buffer.Length && offset <= size
      && (fixedBuffer ==> buffer == stackBuffer)
      && stackBuffer !in acquired && NoDuplicates(released)
      && (forall b <- released :: b in acquired)
      && (forall b <- acquired :: b in released || (!fixedBuffer && b == buffer))
      && (!fixedBuffer ==> buffer in acquired && buffer !in released)
    }

    ghost function Contents(): string
      reads this, buffer
      requires offset <= buffer.Length
    {
      buffer[..offset]
    }

    method Allocate(n: nat) returns (b: array<char>)
      modifies this`acquired
      ensures fresh(b) && b.Length == n && acquired == old(acquired) + {b}
    {
      b := new char[n];
      acquired := acquired + {b};
    }

    /** `delete[]`, which only heap buffers may get, and only once. */
    ghost method Release(b: array<char>)
      requires b in acquired && b !in released
      modifies this`released
      ensures released == old(released) + [b]
    {
      released := released + [b];
    }

    method ResizeBuffer(newSize: nat)
      requires Valid() && newSize > size && newSize * 3 / 2 <= INT_MAX
      modifies this
      ensures Valid() && Contents() == old(Contents()) && offset == old(offset)
      ensures size == (if newSize * 3 / 2 < 32 then 32 else newSize * 3 / 2) && !fixedBuffer && fresh(buffer)
      ensures acquired == old(acquired) + {buffer}
    {
      var grown := newSize * 3 / 2;
      assert grown > size;
      if grown < 32 {
        grown := 32;
      }
      var newBuffer := Allocate(grown);
      forall i | 0 <= i < offset {
        newBuffer[i] := buffer[i];
      }
      if !fixedBuffer {
        Release(buffer);
      }
      buffer := newBuffer;
      size := grown;
      fixedBuffer := false;
    }

    method WriteToBuffer(src: Option<string>) returns (success: bool)
      requires Valid() && Fits(size, offset, Len(src))
      modifies this, buffer
      ensures Valid() && success
      ensures Contents() == old(Contents()) + (if src.None? then "" else src.value)
      ensures offset == old(offset) + Len(src) && size == SizeAfter(old(size), old(offset), Len(src))
      ensures size == if old(offset) + Len(src) <= old(size) then old(size)
        else if (old(size) + Len(src)) * 3 / 2 < 32 then 32 else (old(size) + Len(src)) * 3 / 2
      ensures buffer == old(buffer) || fresh(buffer)
    {
      if src.None? {
        return true;
      }
      if offset + |src.value| > size {
        ResizeBuffer(size + |src.value|);
      }
      ghost var before := Contents();
      forall i | 0 <= i < |src.value| {
        buffer[offset + i] := src.value[i];
      }
      offset := offset + |src.value|;
      assert Contents() == before + src.value;
      return true;
    }
  }

  /** Packs all payloads, starting on the stack, and hands them on; every heap buffer acquired on the
      way was released in the end, once, and the stack buffer was not. */
  method Trace(stackBuffer: array<char>, payloads: seq<Option<string>>)
    returns (sent: string, ghost acquired: set<array<char>>, ghost released: seq<array<char>>)
    requires AllFit(stackBuffer.Length, 0, payloads)
    modifies stackBuffer
    ensures sent == Concat(payloads)
    ensures NoDuplicates(released) && (set b <- released) == acquired && stackBuffer !in acquired
  {
    var packer := new Packer(stackBuffer);
    var success := true;
    var i := 0;
    while i < |payloads|
      invariant 0 <= i <= |payloads| && packer.Valid() && fresh(packer) && success
      invariant packer.stackBuffer == stackBuffer && (packer.buffer == stackBuffer || fresh(packer.buffer))
      invariant packer.Contents() + Concat(payloads[i..]) == Concat(payloads)
      invariant AllFit(packer.size, packer.offset, payloads[i..])
    {
      ghost var before := packer.Contents();
      NextPayload(payloads, i, packer.size, packer.offset);
      success := packer.WriteToBuffer(payloads[i]);
      Reassociate(before, if payloads[i].None? then "" else payloads[i].value, Concat(payloads[i+1..]));
      i := i + 1;
    }
    sent := packer.buffer[..packer.offset];
    if !packer.fixedBuffer {
      packer.Release(packer.buffer);
    }
    acquired, released := packer.acquired, packer.released;
  }
}
