/** The batching client: stats are joined by newlines in a bounded buffer that is sent as one
    datagram when the next stat may not fit. Every character is one encoded byte. */
module StatsdClient {
  import opened JsStrings
  import opened Aggregator
  import opened OrderTheorems
  import opened Deliveries

  /** A datagram with the buffer capacity at the time it was sent. */
  datatype Datagram = Datagram(text: string, capacity: nat)

  datatype State = State(pending: string, capacity: nat, multiMetrics: bool, sent: seq<Datagram>)

  function Flushed(s: State): State
  {
    if s.pending == "" then s
    else s.(pending := "", sent := s.sent + [Datagram(s.pending, s.capacity)])
  }

  function Append(pending: string, stat: string): string
  {
    if pending == "" then stat else pending + "\n" + stat
  }

  /** The state in which a stat meets the buffer. */
  function MadeRoom(s: State, stat: string): State
  {
    if s.capacity - |s.pending| < |stat| + 1 then Flushed(s) else s
  }

  /** A stat larger than the whole buffer overflows it. */
  predicate Fits(s: State, stat: string)
  {
    |stat| <= s.capacity
  }

  function Sent(s: State, stat: string): State
  {
    var room := MadeRoom(s, stat);
    if !Fits(s, stat) then room
    else
      var full := room.(pending := Append(room.pending, stat));
      if s.multiMetrics then full else Flushed(full)
  }

  datatype Outcome = Accepted | Overflow

  class Client {
    var sendBuffer: array<char>
    var position: nat
    var multiMetrics: bool
    ghost var sent: seq<Datagram>

    ghost predicate Valid()
      reads this, sendBuffer
    {
      position <= sendBuffer.Length
    }

    ghost function View(): State
      requires Valid()
      reads this, sendBuffer
    {
      State(sendBuffer[..position], sendBuffer.Length, multiMetrics, sent)
    }

    constructor ()
      ensures Valid() && fresh(sendBuffer) && View() == State("", 1500, false, [])
    {
      sendBuffer := new char[1500];
      position, multiMetrics, sent := 0, false, [];
    }

    /** Sends the buffered characters as one datagram; false when there are none. */
    method Flush() returns (ok: bool)
      requires Valid()
      modifies this`position, this`sent
      ensures Valid() && View() == Flushed(old(View()))
      ensures ok <==> old(position) > 0
    {
      if position <= 0 {
        return false;
      }
      sent := sent + [Datagram(sendBuffer[..position], sendBuffer.Length)];
      position := 0;
      return true;
    }

    method Put(text: string)
      requires Valid() && position + |text| <= sendBuffer.Length
      modifies this`position, sendBuffer
      ensures Valid() && sendBuffer[..position] == old(sendBuffer[..position]) + text
    {
      forall i | 0 <= i < |text| {
        sendBuffer[position + i] := text[i];
      }
      position := position + |text|;
    }

    method DoSend(stat: string) returns (outcome: Outcome)
      requires Valid()
      modifies this`position, this`sent, sendBuffer
      ensures Valid() && View() == Sent(old(View()), stat)
      ensures outcome == if Fits(old(View()), stat) then Accepted else Overflow
    {
      if sendBuffer.Length - position < |stat| + 1 {
        var _ := Flush();
      }
      ghost var room := View();
      assert room == MadeRoom(old(View()), stat);
      if position > 0 {
        Put("\n");
      }
      if sendBuffer.Length - position < |stat| {
        return Overflow;
      }
      Put(stat);
      assert View() == room.(pending := Append(room.pending, stat));
      if !multiMetrics {
        var _ := Flush();
      }
      return Accepted;
    }

    method SetBufferSize(packetBufferSize: nat)
      requires Valid()
      modifies this
      ensures Valid() && fresh(sendBuffer)
      ensures View() == Flushed(old(View())).(capacity := packetBufferSize)
    {
      var _ := Flush();
      sendBuffer := new char[packetBufferSize];
    }

    method EnableMultiMetrics(enable: bool)
      requires Valid()
      modifies this`multiMetrics
      ensures Valid() && View() == old(View()).(multiMetrics := enable)
    {
      multiMetrics := enable;
    }
  }

  // ----- when a stat leaves

  /** An accepted stat is sent at once without batching. With batching it waits when it and a
      separator fit the room that is left; otherwise what was pending goes first, alone. A stat larger
      than the buffer overflows, and what was pending has gone. */
  lemma WhenStatsLeave(s: State, stat: string)
    requires |s.pending| <= s.capacity
    ensures var fits, waits := |stat| <= s.capacity, s.capacity - |s.pending| >= |stat| + 1;
      var joined := if s.pending == "" then stat else s.pending + "\n" + stat;
      var earlier := if waits || s.pending == "" then [] else [Datagram(s.pending, s.capacity)];
      var text := if waits then joined else stat;
      var s' := Sent(s, stat);
      && (Fits(s, stat) <==> fits)
      && s'.capacity == s.capacity && s'.multiMetrics == s.multiMetrics
      && (!fits ==> s'.pending == "" && s'.sent == s.sent + earlier)
      && (fits && s.multiMetrics ==> s'.pending == text && s'.sent == s.sent + earlier)
      && (fits && !s.multiMetrics ==>
            && s'.pending == ""
            && s'.sent == s.sent + earlier + if text == "" then [] else [Datagram(text, s.capacity)])
  {
    assert s.sent + [] == s.sent;
  }

  /** A client that never batches sends every accepted stat as a datagram of its own. */
  lemma UnbatchedStatGoesAlone(s: State, stat: string)
    requires s.pending == "" && !s.multiMetrics && 0 < |stat| <= s.capacity
    ensures Sent(s, stat) == s.(sent := s.sent + [Datagram(stat, s.capacity)])
  {
    WhenStatsLeave(s, stat);
    assert s.sent + [] == s.sent;
  }

  // ----- runs

  /** What a program or the flush timer asks of the client. */
  datatype Call = DoSend(stat: string) | Flush | SetBufferSize(size: nat) | EnableMultiMetrics(enable: bool)

  function Step(s: State, c: Call): State
  {
    match c
    case DoSend(stat) => Sent(s, stat)
    case Flush => Flushed(s)
    case SetBufferSize(size) => Flushed(s).(capacity := size)
    case EnableMultiMetrics(enable) => s.(multiMetrics := enable)
  }

  function Initial(): State { State("", 1500, false, []) }

  function Run(calls: seq<Call>): State
  {
    if calls == [] then Initial() else Step(Run(calls[..|calls| - 1]), calls[|calls| - 1])
  }

  function NewStats(s: State, c: Call): seq<string>
  {
    if c.DoSend? && Fits(s, c.stat) then [c.stat] else []
  }

  /** A new buffer size and a new mode hold from then on; a resize sends what was pending first, under
      the old size. */
  lemma SettingsTakeEffect(s: State, size: nat, enable: bool)
    ensures var s' := Step(s, SetBufferSize(size));
      && s'.capacity == size && s'.pending == "" && s'.multiMetrics == s.multiMetrics
      && s'.sent == s.sent + if s.pending == "" then [] else [Datagram(s.pending, s.capacity)]
    ensures Step(s, EnableMultiMetrics(enable)) == s.(multiMetrics := enable)
    ensures Initial().pending == "" && Initial().capacity == 1500 && !Initial().multiMetrics
  {
    assert s.sent + [] == s.sent;
  }

  /** The stats that did not overflow, in order. */
  function AcceptedStats(calls: seq<Call>): seq<string>
  {
    if calls == [] then []
    else
      var m := |calls| - 1;
      AcceptedStats(calls[..m]) + NewStats(Run(calls[..m]), calls[m])
  }

  function Texts(sent: seq<Datagram>): seq<string>
  {
    if sent == [] then [] else Texts(sent[..|sent| - 1]) + [sent[|sent| - 1].text]
  }

  /** The lines a server reads from the datagrams, then those still waiting in the buffer. */
  function LinesOut(s: State): seq<string>
  {
    IntervalLines(Texts(s.sent)) + Lines(s.pending)
  }

  ghost predicate WithinCapacity(s: State)
  {
    && |s.pending| <= s.capacity
    && forall i :: 0 <= i < |s.sent| ==> 0 < |s.sent[i].text| <= s.sent[i].capacity
  }

  lemma FlushKeepsLines(s: State)
    requires WithinCapacity(s)
    ensures LinesOut(Flushed(s)) == LinesOut(s) && WithinCapacity(Flushed(s))
  {
    hide Lines;
    if s.pending != "" {
      var sent' := s.sent + [Datagram(s.pending, s.capacity)];
      assert sent'[..|s.sent|] == s.sent;
      var texts := Texts(s.sent);
      assert Texts(sent') == texts + [s.pending];
      assert (texts + [s.pending])[..|texts|] == texts;
      LinesOfOne("");
    }
  }

  lemma AppendAddsLines(pending: string, stat: string)
    ensures Lines(Append(pending, stat)) == Lines(pending) + Lines(stat)
  {
    if pending == "" {
      LinesOfOne("");
    } else {
      LinesAtNewline(pending, stat);
    }
  }

  lemma SendAddsLines(s: State, stat: string)
    requires WithinCapacity(s)
    ensures LinesOut(Sent(s, stat)) == LinesOut(s) + if Fits(s, stat) then Lines(stat) else []
    ensures WithinCapacity(Sent(s, stat))
  {
    hide Lines, IntervalLines, Texts;
    FlushKeepsLines(s);
    if Fits(s, stat) {
      var room := MadeRoom(s, stat);
      var full := room.(pending := Append(room.pending, stat));
      AppendAddsLines(room.pending, stat);
      Associative(IntervalLines(Texts(room.sent)), Lines(room.pending), Lines(stat));
      FlushKeepsLines(full);
    }
  }

  lemma OneStat(stat: string)
    ensures IntervalLines([stat]) == Lines(stat)
  {
    assert [stat][..0] == [];
  }

  lemma AppendStats(stats: seq<string>, more: seq<string>)
    requires |more| <= 1
    ensures IntervalLines(stats + more) == IntervalLines(stats) + IntervalLines(more)
  {
    hide Lines;
    if more == [] {
      assert stats + [] == stats;
    } else {
      OneStat(more[0]);
      assert (stats + more)[..|stats|] == stats && more == [more[0]];
    }
  }

  lemma StepAddsLines(s: State, c: Call)
    requires WithinCapacity(s)
    ensures LinesOut(Step(s, c)) == LinesOut(s) + IntervalLines(NewStats(s, c))
    ensures WithinCapacity(Step(s, c))
  {
    hide Lines, Sent, Fits, Texts, IntervalLines;
    if c.DoSend? {
      hide LinesOut, WithinCapacity;
      SendAddsLines(s, c.stat);
      OneStat(c.stat);
      NoStats(LinesOut(s));
    } else {
      hide Flushed;
      FlushKeepsLines(s);
      NoStats(LinesOut(s));
    }
  }

  lemma NoStats(lines: seq<string>)
    ensures lines + IntervalLines([]) == lines + [] == lines
  {
  }

  /** Across sends, timer flushes, buffer resizes and mode changes: every datagram is within
      the capacity it was sent under, and the lines read from the datagrams and the pending
      buffer are the lines of the accepted stats in order, so that none is split or lost. */
  lemma {:induction false} BatchingIsUndone(calls: seq<Call>)
    ensures WithinCapacity(Run(calls))
    ensures LinesOut(Run(calls)) == IntervalLines(AcceptedStats(calls))
  {
    if calls == [] {
      LinesOfOne("");
    } else {
      hide Lines, IntervalLines, WithinCapacity, LinesOut, Step, NewStats;
      var m := |calls| - 1;
      var s, stats := Run(calls[..m]), AcceptedStats(calls[..m]);
      BatchingIsUndone(calls[..m]);
      StepAddsLines(s, calls[m]);
      AppendStats(stats, NewStats(s, calls[m]));
    }
  }

  /** After a final flush a daemon that receives the datagrams holds the same stores as one
      that receives every accepted stat as a packet of its own. */
  lemma BatchingIsInvisible(cfg: Config, st: Stores, calls: seq<Call>)
    requires cfg.syntax.names.packets in st.counters
    ensures SameButPackets(cfg, Receive(cfg, st, Texts(Run(calls + [Call.Flush]).sent)),
                           Receive(cfg, st, AcceptedStats(calls)))
  {
    hide SameButPackets, Receive, Lines;
    var all := calls + [Call.Flush];
    assert all[..|calls|] == calls;
    BatchingIsUndone(all);
    LinesOfOne("");
    assert Run(all) == Flushed(Run(calls));
    assert Run(all).pending == "";
    var out := IntervalLines(Texts(Run(all).sent));
    assert LinesOut(Run(all)) == out + [] == out;
    assert AcceptedStats(all) == AcceptedStats(calls) + [] == AcceptedStats(calls);
    GroupingIsInvisible(cfg, st, Texts(Run(all).sent), AcceptedStats(calls));
  }
}
