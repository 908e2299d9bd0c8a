/**
 The requests the memory process decodes, and its answer to a read. Each decoder walks the
 payload with an offset; what it finds is the only request the payload can carry.
 */
module Requests {
  import opened Bytes
  import opened Faults
  import opened Options
  import opened Serialization

  // ---- the messages, as their senders give them to _serialize --------------------------

  function TwoInts(a: int32, b: int32): (r: seq<Arg>)
    ensures WellFormed(r)
  {
    [Number(a), Number(b)]
  }

  function ThreeInts(a: int32, b: int32, c: int32): (r: seq<Arg>)
    ensures WellFormed(r)
  {
    [Number(a), Number(b), Number(c)]
  }

  /** Two ints, and bytes behind their length. */
  function WithBytes(a: int32, b: int32, bytes: buffer): (r: seq<Arg>)
    ensures WellFormed(r)
  {
    [Number(a), Number(b), Number(|bytes|), Block(bytes)]
  }

  lemma TwoIntsSize(a: int32, b: int32)
    ensures TotalSize(TwoInts(a, b)) == 2 * INT_SIZE
    ensures |Encoded(TwoInts(a, b))| == 2 * INT_SIZE
  {
    var r := TwoInts(a, b);
    assert r[..1] == [Number(a)] && [Number(a)][..0] == [];
    assert TotalSize([Number(a)]) == INT_SIZE;
    EncodedSize(r);
  }

  lemma ThreeIntsSize(a: int32, b: int32, c: int32)
    ensures TotalSize(ThreeInts(a, b, c)) == 3 * INT_SIZE
    ensures |Encoded(ThreeInts(a, b, c))| == 3 * INT_SIZE
  {
    assert [Number(a), Number(b), Number(c)][..2] == TwoInts(a, b);
    TwoIntsSize(a, b);
    EncodedSize(ThreeInts(a, b, c));
  }

  lemma WithBytesSize(a: int32, b: int32, bytes: buffer)
    ensures TotalSize(WithBytes(a, b, bytes)) == 3 * INT_SIZE + |bytes|
    ensures |Encoded(WithBytes(a, b, bytes))| == 3 * INT_SIZE + |bytes|
  {
    var r := WithBytes(a, b, bytes);
    assert r[..3] == ThreeInts(a, b, |bytes|);
    ThreeIntsSize(a, b, |bytes|);
    EncodedSize(r);
  }

  // ---- what a payload carries --------------------------------------------------------------

  lemma IntRead(payload: seq<byte>, got: seq<Arg>, offset: nat, v: int32)
    requires Carries(payload, got) && offset == TotalSize(got)
    requires offset + INT_SIZE <= |payload| && IntAt(payload, offset) == v
    ensures Carries(payload, got + [Number(v)]) && TotalSize(got + [Number(v)]) == offset + INT_SIZE
  {
    IntRoundTrip(payload, offset, v);
    ReadOn(payload, got, Number(v));
  }

  lemma NothingRead(payload: seq<byte>)
    ensures Carries(payload, []) && TotalSize([]) == 0
  {
  }

  /** Two ints at the front of a payload are the only two it can carry. */
  lemma TwoIntsCarried(payload: seq<byte>, a: int32, b: int32)
    requires 2 * INT_SIZE <= |payload|
    ensures Carries(payload, TwoInts(a, b)) <==> a == IntAt(payload, 0) && b == IntAt(payload, INT_SIZE)
  {
    hide IntAt, Encoded, TotalSize;
    var x, y := IntAt(payload, 0), IntAt(payload, INT_SIZE);
    NothingRead(payload);
    IntRead(payload, [], 0, x);
    assert [] + [Number(x)] == [Number(x)];
    IntRead(payload, [Number(x)], INT_SIZE, y);
    assert [Number(x)] + [Number(y)] == TwoInts(x, y);
    if Carries(payload, TwoInts(a, b)) {
      EncodingIsUnambiguous(payload, TwoInts(a, b), TwoInts(x, y));
      assert TwoInts(a, b)[0] == Number(a) && TwoInts(a, b)[1] == Number(b);
    }
  }

  lemma ThreeIntsCarried(payload: seq<byte>, a: int32, b: int32, c: int32)
    requires 3 * INT_SIZE <= |payload|
    ensures Carries(payload, ThreeInts(a, b, c)) <==>
      a == IntAt(payload, 0) && b == IntAt(payload, INT_SIZE) && c == IntAt(payload, 2 * INT_SIZE)
  {
    hide IntAt, Encoded, TotalSize;
    var x, y, z := IntAt(payload, 0), IntAt(payload, INT_SIZE), IntAt(payload, 2 * INT_SIZE);
    TwoIntsCarried(payload, x, y);
    TwoIntsSize(x, y);
    IntRead(payload, TwoInts(x, y), 2 * INT_SIZE, z);
    assert TwoInts(x, y) + [Number(z)] == ThreeInts(x, y, z);
    if Carries(payload, ThreeInts(a, b, c)) {
      EncodingIsUnambiguous(payload, ThreeInts(a, b, c), ThreeInts(x, y, z));
      var r := ThreeInts(a, b, c);
      assert r[0] == Number(a) && r[1] == Number(b) && r[2] == Number(c);
    }
  }

  lemma WithBytesCarried(payload: seq<byte>, a: int32, b: int32, bytes: buffer)
    ensures Carries(payload, WithBytes(a, b, bytes)) <==>
      && 3 * INT_SIZE + |bytes| <= |payload|
      && a == IntAt(payload, 0) && b == IntAt(payload, INT_SIZE) && |bytes| == IntAt(payload, 2 * INT_SIZE)
      && bytes == payload[3 * INT_SIZE..3 * INT_SIZE + |bytes|]
  {
    var r, h := WithBytes(a, b, bytes), ThreeInts(a, b, |bytes|);
    WithBytesSize(a, b, bytes);
    ThreeIntsSize(a, b, |bytes|);
    assert r[..3] == h && r == h + [Block(bytes)];
    if 3 * INT_SIZE + |bytes| <= |payload| {
      ThreeIntsCarried(payload, a, b, |bytes|);
      if Carries(payload, r) {
        assert Encoded(r) == Encoded(h) + bytes;
      } else if Carries(payload, h) && bytes == payload[3 * INT_SIZE..3 * INT_SIZE + |bytes|] {
        ReadOn(payload, h, Block(bytes));
      }
    }
  }

  // ---- the decoders --------------------------------------------------------------------

  /** deserialize_mem_alloc: the process and how many bytes it asks for. */
  method DeserializeMemAlloc(payload: seq<byte>) returns (pid: int32, size: int32)
    requires 2 * INT_SIZE <= |payload|
    ensures forall p, n :: Carries(payload, TwoInts(p, n)) <==> p == pid && n == size
  {
    var offset := 0;
    pid := IntAt(payload, 0);
    offset := offset + INT_SIZE;
    size := IntAt(payload, offset);
    forall p, n ensures Carries(payload, TwoInts(p, n)) <==> p == pid && n == size {
      TwoIntsCarried(payload, p, n);
    }
  }

  /** deserialize_mem_free: the process and the address it frees. */
  method DeserializeMemFree(payload: seq<byte>) returns (pid: int32, address: int32)
    requires 2 * INT_SIZE <= |payload|
    ensures forall p, d :: Carries(payload, TwoInts(p, d)) <==> p == pid && d == address
  {
    pid, address := DeserializeMemAlloc(payload);
  }

  /** deserialize_mem_read: the process, the address and how many bytes. */
  method DeserializeMemRead(payload: seq<byte>) returns (pid: int32, address: int32, size: int32)
    requires 3 * INT_SIZE <= |payload|
    ensures forall p, d, n :: Carries(payload, ThreeInts(p, d, n)) <==> p == pid && d == address && n == size
  {
    var offset := 0;
    pid := IntAt(payload, 0);
    offset := offset + INT_SIZE;
    address := IntAt(payload, offset);
    offset := offset + INT_SIZE;
    size := IntAt(payload, offset);
    forall p, d, n ensures Carries(payload, ThreeInts(p, d, n)) <==> p == pid && d == address && n == size {
      ThreeIntsCarried(payload, p, d, n);
    }
  }

  /** deserialize_mem_write: also the bytes to write, as many as the third int says; C needs them to be there. */
  method DeserializeMemWrite(payload: seq<byte>) returns (pid: int32, address: int32, size: int32, info: buffer)
    requires 3 * INT_SIZE <= |payload|
    requires 0 <= IntAt(payload, 2 * INT_SIZE) <= |payload| - 3 * INT_SIZE
    ensures |info| == size
    ensures forall p, d, b :: Carries(payload, WithBytes(p, d, b)) <==> p == pid && d == address && b == info
  {
    var offset := 0;
    pid := IntAt(payload, 0);
    offset := offset + INT_SIZE;
    address := IntAt(payload, offset);
    offset := offset + INT_SIZE;
    size := IntAt(payload, offset);
    offset := offset + INT_SIZE;
    info := payload[offset..offset + size];
    forall p, d, b ensures Carries(payload, WithBytes(p, d, b)) <==> p == pid && d == address && b == info {
      WithBytesCarried(payload, p, d, b);
    }
  }

  // ---- the answer to a read ----------------------------------------------------------------

  /**
   How memoria answers a read: it peeks at the first int of what memread returned, the bytes or
   the fault code, and sends only that int if it is the fault code. None where the peek runs past
   the bytes, which C leaves undefined.

   So an answer arrives whole exactly when the bytes do not start with the image of the code;
   four bytes equal to it arrive whole, but as the code itself.
   */
  method AnswerRead(found: Option<seq<byte>>) returns (reply: Option<seq<byte>>)
    ensures found.None? ==> reply == Some(IntBytes(READ_FAULT))
    ensures found.Some? ==> (reply.None? <==> |found.value| < INT_SIZE)
    ensures found.Some? && reply.Some? ==>
      (reply.value == found.value <==> |found.value| == INT_SIZE || !(IntBytes(READ_FAULT) <= found.value))
    ensures found.Some? && reply.Some? && IntBytes(READ_FAULT) <= found.value ==> reply.value == IntBytes(READ_FAULT)
  {
    var resp := if found.None? then IntBytes(READ_FAULT) else found.value;
    if |resp| < INT_SIZE {
      return None;
    }
    var result := IntAt(resp, 0);
    IntRoundTrip(resp, 0, READ_FAULT);
    var size := |resp|;
    if result == READ_FAULT {
      size := INT_SIZE;
    }
    reply := Some(resp[..size]);
  }
}
