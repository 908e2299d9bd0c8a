/** What the library sends the kernel with every call, and how the kernel reads it. */
module KernelRequests {
  import opened Bytes
  import opened Options
  import opened Serialization

  /** The part of mate_inner_structure that travels. */
  datatype Request = Request(id: int32, semaphore: buffer, value: int32, device: buffer)

  const FORMAT := "%d%s%d%s"

  function Fields(q: Request): (r: seq<Arg>)
    ensures WellFormed(r)
  {
    [Number(q.id), Text(q.semaphore), Number(q.value), Text(q.device)]
  }

  function SizeOf(q: Request): nat {
    INT_SIZE * 4 + |q.semaphore| + |q.device|
  }

  lemma FieldsSize(q: Request)
    ensures TotalSize(Fields(q)[..1]) == INT_SIZE && TotalSize(Fields(q)[..2]) == 2 * INT_SIZE + |q.semaphore|
    ensures TotalSize(Fields(q)[..3]) == 3 * INT_SIZE + |q.semaphore| && TotalSize(Fields(q)) == SizeOf(q)
    ensures TotalSize(Fields(q)[..0]) == 0 && |Encoded(Fields(q))| == SizeOf(q)
  {
    var r := Fields(q);
    assert r[..1][..0] == r[..0] && r[..2][..1] == r[..1] && r[..3][..2] == r[..2];
    EncodedSize(r);
  }

  /** The places where the kernel reads hold the request's fields: names in order, behind their lengths. */
  ghost predicate ReadsAs(payload: seq<byte>, q: Request) {
    && SizeOf(q) <= |payload|
    && var n, v := 2 * INT_SIZE, 2 * INT_SIZE + |q.semaphore|;
      && IntAt(payload, 0) == q.id
      && IntAt(payload, INT_SIZE) == |q.semaphore| && payload[n..n + |q.semaphore|] == q.semaphore
      && IntAt(payload, v) == q.value
      && IntAt(payload, v + INT_SIZE) == |q.device|
      && payload[v + 2 * INT_SIZE..v + 2 * INT_SIZE + |q.device|] == q.device
  }

  lemma CarriedReads(payload: seq<byte>, q: Request)
    requires Carries(payload, Fields(q))
    ensures ReadsAs(payload, q)
  {
    hide IntAt, Encoded, LiesAt;
    var r := Fields(q);
    FieldsSize(q);
    forall i: nat | i < 4 ensures FoundAt(payload, TotalSize(r[..i]), r[i]) {
      FieldAt(r, i);
      LiesInLonger(Encoded(r), payload, TotalSize(r[..i]), r[i]);
      FieldIsFound(payload, TotalSize(r[..i]), r[i]);
    }
    assert FoundAt(payload, 0, r[0]) && FoundAt(payload, INT_SIZE, r[1]);
    assert FoundAt(payload, 2 * INT_SIZE + |q.semaphore|, r[2]);
    assert FoundAt(payload, 3 * INT_SIZE + |q.semaphore|, r[3]);
  }

  lemma ReadsCarried(payload: seq<byte>, q: Request)
    requires ReadsAs(payload, q)
    ensures Carries(payload, Fields(q))
  {
    hide IntAt, Encoded, LiesAt, TotalSize;
    var r := Fields(q);
    FieldsSize(q);
    NextCarried(payload, r, 0, Number(q.id));
    NextCarried(payload, r, 1, Text(q.semaphore));
    NextCarried(payload, r, 2, Number(q.value));
    NextCarried(payload, r, 3, Text(q.device));
    assert r[..4] == r;
  }

  lemma NextCarried(payload: seq<byte>, r: seq<Arg>, i: nat, a: Arg)
    requires WellFormed(r) && i < |r| && r[i] == a && !a.Block?
    requires i > 0 ==> Carries(payload, r[..i])
    requires FoundAt(payload, TotalSize(r[..i]), a)
    ensures Carries(payload, r[..i + 1])
  {
    hide IntAt, LiesAt, FoundAt;
    assert i == 0 ==> r[..i] == [] && Encoded(r[..i]) == [];
    FieldIsFound(payload, TotalSize(r[..i]), a);
    assert r[..i] + [a] == r[..i + 1];
    ReadOn(payload, r[..i], a);
  }

  /** armar_paquete: exactly the encoding of the structure. */
  method ArmarPaquete(q: Request) returns (payload: array<byte>)
    ensures fresh(payload) && payload.Length == SizeOf(q) && Carries(payload[..], Fields(q))
  {
    hide Encoded, Sent;
    FieldsSize(q);
    WellFormedIsSentWhole(Fields(q));
    FormatIsAccepted(Fields(q));
    FormatIs(q);
    var stream := Serialize(SizeOf(q), FORMAT, Fields(q));
    payload := stream;
  }

  lemma FormatIs(q: Request)
    ensures FormatOf(Fields(q)) == FORMAT
  {
    var r := Fields(q);
    assert FormatOf(r[1..][1..][1..][1..]) == "";
    assert FormatOf(r[1..][1..][1..]) == "%s";
    assert FormatOf(r[1..][1..]) == "%d%s";
    assert FormatOf(r[1..]) == "%s%d%s";
  }

  /** The two lengths are no negative numbers and stay inside the payload; C leaves anything else undefined. */
  predicate Whole(payload: seq<byte>) {
    && 2 * INT_SIZE <= |payload|
    && var n := IntAt(payload, INT_SIZE);
      && n >= 0 && 4 * INT_SIZE + n <= |payload|
      && var d := IntAt(payload, 3 * INT_SIZE + n);
        d >= 0 && 4 * INT_SIZE + n + d <= |payload|
  }

  lemma CarriedIsWhole(payload: seq<byte>, q: Request)
    requires Carries(payload, Fields(q))
    ensures Whole(payload)
  {
    hide IntAt, Encoded;
    CarriedReads(payload, q);
  }

  /** deserializar: nothing for a process the kernel does not know, otherwise the only request the payload carries. */
  method Deserializar(payload: seq<byte>, known: set<int>) returns (r: Option<Request>)
    requires INT_SIZE <= |payload| && (IntAt(payload, 0) in known ==> Whole(payload))
    ensures r.None? <==> IntAt(payload, 0) !in known
    ensures r.Some? ==> forall q :: Carries(payload, Fields(q)) <==> q == r.value
  {
    var offset := 0;
    var id := IntAt(payload, 0);
    offset := offset + INT_SIZE;
    if id !in known {
      return None;
    }
    var semLen := IntAt(payload, offset);
    offset := offset + INT_SIZE;
    var semaphore := payload[offset..offset + semLen];
    offset := offset + semLen;
    var value := IntAt(payload, offset);
    offset := offset + INT_SIZE;
    var ioLen := IntAt(payload, offset);
    offset := offset + INT_SIZE;
    var device := payload[offset..offset + ioLen];
    var q := Request(id, semaphore, value, device);
    ReadsCarried(payload, q);
    forall p | Carries(payload, Fields(p)) ensures p == q {
      CarriedReads(payload, p);
    }
    r := Some(q);
  }

  /** Whatever call the library makes, the kernel reads the names and the value it was given. */
  method CallArrives(q: Request, known: set<int>) returns (r: Option<Request>)
    ensures r == if q.id in known then Some(q) else None
  {
    var payload := ArmarPaquete(q);
    CarriedIsWhole(payload[..], q);
    CarriedReads(payload[..], q);
    r := Deserializar(payload[..], known);
  }
}
