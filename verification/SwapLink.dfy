/**
 The conversation between the memory process and the swap process, byte for byte: what the
 memory process serializes, what the swap process decodes and does, and what comes back.
 The paging model calls the swap store directly; the exchanges here show that it may.
 */
module SwapLink {
  import opened Bytes
  import opened Options
  import opened Serialization
  import opened Requests
  import S = Swap
  import SwapServer

  // ---- messages ------------------------------------------------------------------------

  /** A call of _serialize with a buffer of exactly the size of its arguments. */
  method Message(format: string, args: seq<Arg>) returns (bytes: seq<byte>)
    requires args != [] && WellFormed(args) && format == FormatOf(args)
    ensures bytes == Encoded(args)
  {
    FormatIsAccepted(args);
    WellFormedIsSentWhole(args);
    EncodedSize(args);
    var stream := Serialize(TotalSize(args), format, args);
    bytes := stream[..];
  }

  method OneInt(value: int32) returns (bytes: seq<byte>)
    ensures |bytes| == INT_SIZE && IntAt(bytes, 0) == value
  {
    var args := [Number(value)];
    assert args[..0] == [];
    assert "%d" == FormatOf(args) by {
      assert args[1..] == [];
    }
    bytes := Message("%d", args);
    FieldAt(args, 0);
    EncodedSize(args);
    IntRoundTrip(bytes, 0, value);
  }

  method TwoIntMessage(a: int32, b: int32) returns (bytes: seq<byte>)
    ensures bytes == Encoded(TwoInts(a, b))
  {
    var args := TwoInts(a, b);
    assert "%d%d" == FormatOf(args) by {
      assert args[1..] == [Number(b)] && args[1..][1..] == [];
      assert FormatOf(args[1..]) == "%d";
    }
    bytes := Message("%d%d", args);
  }

  method PageMessage(pid: int32, page: int32, content: buffer) returns (bytes: seq<byte>)
    ensures bytes == Encoded(WithBytes(pid, page, content))
  {
    var args := WithBytes(pid, page, content);
    assert "%d%d%d%v" == FormatOf(args) by {
      var one, two, three := args[1..], args[2..], args[3..];
      assert one[1..] == two && two[1..] == three && three[1..] == [];
      assert FormatOf(three) == "%v";
      assert FormatOf(two) == "%d%v";
    }
    bytes := Message("%d%d%d%v", args);
  }

  /** The page sent back: `%d%v` with the page size and the page. */
  method ContentMessage(content: buffer) returns (bytes: seq<byte>)
    ensures |bytes| == INT_SIZE + |content| && bytes[INT_SIZE..] == content
  {
    var args := [Number(|content|), Block(content)];
    assert "%d%v" == FormatOf(args) by {
      assert args[1..] == [Block(content)] && args[1..][1..] == [];
      assert FormatOf(args[1..]) == "%v";
    }
    bytes := Message("%d%v", args);
    assert args[..1] == [Number(|content|)] && args[..1][..0] == [];
    assert Encoded(args[..1]) == IntBytes(|content|);
  }

  // ---- the swap process ----------------------------------------------------------------

  /** consola, over the server whose state it changes. A request of the wrong length gets no answer. */
  class Console {
    const server: SwapServer.Server

    constructor (s: SwapServer.Server)
      ensures server == s
    {
      server := s;
    }

    ghost predicate Valid()
      reads this, server
    {
      server.Valid() && server.cfg.pageSize < INT_LIMIT
    }

    /** MEMORY_SEND_SWAP_RECV: the third int is skipped, not compared with the page size. */
    method SavePage(payload: seq<byte>) returns (reply: Option<seq<byte>>)
      requires Valid()
      modifies server
      ensures Valid()
      ensures reply.Some? <==> |payload| == 3 * INT_SIZE + server.cfg.pageSize
      ensures reply.None? ==> server.State() == old(server.State())
      ensures reply.Some? ==>
        var (ok, after) := S.Save(server.cfg, old(server.State()), IntAt(payload, 0), IntAt(payload, INT_SIZE),
                                  payload[3 * INT_SIZE..]);
        server.State() == after && |reply.value| == INT_SIZE && IntAt(reply.value, 0) == if ok then 1 else 0
    {
      if |payload| != 3 * INT_SIZE + server.cfg.pageSize {
        return None;
      }
      var offset := 0;
      var pid := IntAt(payload, offset);
      offset := offset + INT_SIZE;
      var page := IntAt(payload, offset);
      offset := offset + 2 * INT_SIZE;
      var content := payload[offset..offset + server.cfg.pageSize];
      assert content == payload[3 * INT_SIZE..];
      var ok := server.SavePage(pid, page, content);
      var answer := OneInt(if ok then 1 else 0);
      reply := Some(answer);
    }

    /** MEMORY_RECV_SWAP_SEND, where obtener_pagina has a frame to read. */
    method FetchPage(payload: seq<byte>) returns (reply: Option<seq<byte>>)
      requires Valid()
      requires |payload| == 2 * INT_SIZE ==>
        S.Obtained(server.State(), IntAt(payload, 0), IntAt(payload, INT_SIZE)).Some?
      ensures reply.Some? <==> |payload| == 2 * INT_SIZE
      ensures reply.Some? ==>
        && |reply.value| == INT_SIZE + server.cfg.pageSize
        && S.Obtained(server.State(), IntAt(payload, 0), IntAt(payload, INT_SIZE)) == Some(reply.value[INT_SIZE..])
    {
      if |payload| != 2 * INT_SIZE {
        return None;
      }
      var offset := 0;
      var pid := IntAt(payload, offset);
      offset := offset + INT_SIZE;
      var page := IntAt(payload, offset);
      var content := server.FetchPage(pid, page);
      var answer := ContentMessage(content.value);
      reply := Some(answer);
    }

    /** FINISH_PROCESS: no answer. */
    method Finish(payload: seq<byte>)
      requires Valid()
      requires |payload| == INT_SIZE ==> IntAt(payload, 0) != S.MARK
      modifies server
      ensures Valid()
      ensures server.State() ==
        if |payload| == INT_SIZE then S.Finish(server.cfg, old(server.State()), IntAt(payload, 0))
        else old(server.State())
    {
      if |payload| == INT_SIZE {
        var pid := IntAt(payload, 0);
        server.FinishProcess(pid);
      }
    }
  }

  // ---- the memory process --------------------------------------------------------------

  /**
   Sending a page out: serialized, decoded, stored, answered and the answer read, it is one call of
   the store when both sides use the same page size; with any other size nothing happens and no
   answer comes.
   */
  method SendPage(swap: Console, pid: int32, page: int32, content: buffer) returns (iresp: Option<int32>)
    requires swap.Valid()
    modifies swap.server
    ensures swap.Valid()
    ensures |content| == swap.server.cfg.pageSize ==>
      var (ok, after) := S.Save(swap.server.cfg, old(swap.server.State()), pid, page, content);
      swap.server.State() == after && iresp == Some(if ok then 1 else 0)
    ensures |content| != swap.server.cfg.pageSize ==> iresp == None && swap.server.State() == old(swap.server.State())
  {
    var payload := PageMessage(pid, page, content);
    WithBytesSize(pid, page, content);
    WithBytesCarried(payload, pid, page, content);
    var resp := swap.SavePage(payload);
    if resp.None? {
      return None;
    }
    assert payload[3 * INT_SIZE..] == content;
    iresp := Some(IntAt(resp.value, 0));
  }

  /** Asking for a page: exactly the bytes obtener_pagina reads, the stored copy where there is one. */
  method AskForPage(swap: Console, pid: int32, page: int32, pageSize: nat) returns (content: seq<byte>)
    requires swap.Valid() && pageSize == swap.server.cfg.pageSize
    requires S.Obtained(swap.server.State(), pid, page).Some?
    ensures S.Obtained(swap.server.State(), pid, page) == Some(content)
    ensures S.Fetch(swap.server.State(), pid, page).Some? ==> S.Fetch(swap.server.State(), pid, page) == Some(content)
  {
    var payload := TwoIntMessage(pid, page);
    TwoIntsSize(pid, page);
    TwoIntsCarried(payload, pid, page);
    var response := swap.FetchPage(payload);
    content := response.value[INT_SIZE..INT_SIZE + pageSize];
    assert content == response.value[INT_SIZE..];
  }

  /** Announcing the end of a process. */
  method SendFinish(swap: Console, pid: int32)
    requires swap.Valid() && pid != S.MARK
    modifies swap.server
    ensures swap.Valid() && swap.server.State() == S.Finish(swap.server.cfg, old(swap.server.State()), pid)
  {
    var payload := OneInt(pid);
    swap.Finish(payload);
  }
}
