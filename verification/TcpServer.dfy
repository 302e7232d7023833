/** Reassembly of newline-terminated packets from a TCP stream. */
module TcpServer {
  import opened JsStrings
  import opened Aggregator
  import opened OrderTheorems
  import opened Deliveries

  /** `buffer.lastIndexOf("\n")` */
  function LastNewline(s: string): (i: int)
    ensures -1 <= i < |s|
    ensures i >= 0 ==> s[i] == '\n'
    ensures forall j :: i < j < |s| ==> s[j] != '\n'
  {
    if s == "" then -1
    else if s[|s| - 1] == '\n' then |s| - 1
    else LastNewline(s[..|s| - 1])
  }

  /** What a connection has delivered, and what it still holds back. */
  datatype Stream = Stream(packets: seq<string>, buffer: string)

  function Feed(s: Stream, data: string): Stream
  {
    var all := s.buffer + data;
    var offset := LastNewline(all);
    if offset > -1 then Stream(s.packets + [all[..offset + 1]], all[offset + 1..])
    else Stream(s.packets, all)
  }

  function FeedAll(chunks: seq<string>): Stream
  {
    if chunks == [] then Stream([], "") else Feed(FeedAll(chunks[..|chunks| - 1]), chunks[|chunks| - 1])
  }

  function Concat(parts: seq<string>): string
  {
    if parts == [] then "" else Concat(parts[..|parts| - 1]) + parts[|parts| - 1]
  }

  class Connection {
    var buffer: string
    ghost var packets: seq<string>

    constructor ()
      ensures buffer == "" && packets == []
    {
      buffer, packets := "", [];
    }

    /** The `data` handler; the callback's packet, if any, is returned. */
    method Data(data: string) returns (packet: Option<string>)
      modifies this
      ensures Stream(packets, buffer) == Feed(Stream(old(packets), old(buffer)), data)
      ensures packets == old(packets) + if packet.Some? then [packet.value] else []
    {
      buffer := buffer + data;
      packet := None;
      var offset := LastNewline(buffer);
      if offset > -1 {
        packet := Some(buffer[..offset + 1]);
        buffer := buffer[offset + 1..];
        packets := packets + [packet.value];
      }
    }
  }

  predicate IsTerminated(packet: string)
  {
    packet != "" && packet[|packet| - 1] == '\n'
  }

  /** Nothing is lost, reordered or cut: the delivered packets and the leftover buffer spell
      the stream, every packet ends in a newline and the leftover holds none. */
  lemma {:induction false} Reassembles(chunks: seq<string>)
    ensures var s := FeedAll(chunks);
      && Concat(s.packets) + s.buffer == Concat(chunks)
      && (forall packet <- s.packets :: IsTerminated(packet))
      && '\n' !in s.buffer
  {
    if chunks != [] {
      var m := |chunks| - 1;
      Reassembles(chunks[..m]);
      FeedKeeps(FeedAll(chunks[..m]), chunks[m]);
    }
  }

  lemma FeedKeeps(s: Stream, data: string)
    requires forall packet <- s.packets :: IsTerminated(packet)
    ensures var s' := Feed(s, data);
      && Concat(s'.packets) + s'.buffer == (Concat(s.packets) + s.buffer) + data
      && (forall packet <- s'.packets :: IsTerminated(packet))
      && '\n' !in s'.buffer
  {
    var all := s.buffer + data;
    var offset := LastNewline(all);
    assert Concat(s.packets) + all == (Concat(s.packets) + s.buffer) + data;
    if offset > -1 {
      var packet := all[..offset + 1];
      assert (s.packets + [packet])[..|s.packets|] == s.packets;
      assert packet + all[offset + 1..] == all;
    } else {
      assert all[offset + 1..] == all;
    }
  }

  lemma {:induction false} ConcatIsTerminated(packets: seq<string>)
    requires forall packet <- packets :: IsTerminated(packet)
    ensures Concat(packets) == "" || IsTerminated(Concat(packets))
  {
    if packets != [] {
      var m := |packets| - 1;
      var last := packets[m];
      assert last in packets;
      var all := Concat(packets[..m]) + last;
      assert all[|all| - 1] == last[|last| - 1];
    }
  }

  /** The lines of terminated packets are the lines of their concatenation. */
  lemma {:induction false} LinesOfPackets(packets: seq<string>)
    requires forall packet <- packets :: IsTerminated(packet)
    ensures IntervalLines(packets) == Lines(Concat(packets))
  {
    hide Lines, IsTerminated;
    if packets == [] {
      LinesOfOne("");
    } else {
      var init := packets[..|packets| - 1];
      ConcatIsTerminated(init);
      LinesOfPackets(init);
      LinesOfTerminatedAll(Concat(init), packets[|packets| - 1]);
    }
  }

  lemma LinesOfTerminatedAll(a: string, b: string)
    requires a == "" || IsTerminated(a)
    ensures Lines(a + b) == Lines(a) + Lines(b)
  {
    LinesOfTerminated(a, b);
  }

  /** The complete part of a stream ends at its last newline. */
  function Complete(stream: string): string
  {
    stream[..LastNewline(stream) + 1]
  }

  lemma CompleteIsUnique(done: string, rest: string)
    requires done == "" || IsTerminated(done)
    requires '\n' !in rest
    ensures Complete(done + rest) == done
  {
    var s := done + rest;
    assert s[..|done|] == done;
    assert forall j :: |done| <= j < |s| ==> s[j] == rest[j - |done|];
    if done != "" {
      assert s[|done| - 1] == '\n';
    }
  }

  /** However a stream is cut into chunks, the stores end as if each of its complete lines had
      come as a packet of its own; only the packet counter can tell. */
  lemma ChunkingIsInvisible(cfg: Config, st: Stores, chunks: seq<string>)
    requires cfg.syntax.names.packets in st.counters
    ensures var stream := Concat(chunks);
      && FeedAll(chunks).buffer == stream[|Complete(stream)|..]
      && SameButPackets(cfg, Receive(cfg, st, FeedAll(chunks).packets),
                        Receive(cfg, st, Lines(Complete(stream))))
  {
    hide SameButPackets, Receive, Lines;
    var s := FeedAll(chunks);
    Reassembles(chunks);
    LinesOfPackets(s.packets);
    ConcatIsTerminated(s.packets);
    CompleteIsUnique(Concat(s.packets), s.buffer);
    LinesAreClean(Concat(s.packets));
    LinesAsPackets(Lines(Concat(s.packets)));
    GroupingIsInvisible(cfg, st, s.packets, Lines(Concat(s.packets)));
  }
}
