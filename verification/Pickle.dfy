/** The graphite backend's serialisers, and the readers that undo them: a protocol-0 pickle
    machine behind a length header, and the line reader of the text protocol. */
module Pickle {
  import opened JsStrings

  /** A measurement; the value is the text JavaScript prints for it. */
  datatype Metric = Metric(key: string, value: string, ts: nat)

  // ----- decimal numbers

  function DigitChar(d: nat): char
    requires d < 10
  {
    '0' + d as char
  }

  function Decimal(n: nat): string
  {
    if n < 10 then [DigitChar(n)] else Decimal(n / 10) + [DigitChar(n % 10)]
  }

  function ParseDecimal(s: string): Option<nat>
    decreases |s|
  {
    if s == "" || !IsDigit(s[|s| - 1]) then None
    else
      var d := s[|s| - 1] as int - '0' as int;
      if |s| == 1 then Some(d)
      else
        var rest := ParseDecimal(s[..|s| - 1]);
        if rest.None? then None else Some(10 * rest.value + d)
  }

  lemma DigitRoundTrip(d: nat)
    requires d < 10
    ensures IsDigit(DigitChar(d)) && DigitChar(d) as int - '0' as int == d
  {
  }

  lemma {:induction false} DecimalRoundTrip(n: nat)
    ensures ParseDecimal(Decimal(n)) == Some(n)
    ensures forall c <- Decimal(n) :: IsDigit(c)
  {
    DigitRoundTrip(n % 10);
    if n >= 10 {
      DecimalRoundTrip(n / 10);
      var s := Decimal(n);
      assert s[..|s| - 1] == Decimal(n / 10);
    }
  }

  // ----- pickle writer

  function StringOp(s: string): string { "S'" + s + "'\n" }

  function LongOp(n: nat): string { "L" + Decimal(n) + "L\n" }

  function MetricToPickle(m: Metric): string
  {
    "(" + StringOp(m.key) + "(" + LongOp(m.ts) + StringOp(m.value) + "tta"
  }

  function MetricsToPickle(metrics: seq<Metric>): string
  {
    if metrics == [] then "" else MetricToPickle(metrics[0]) + MetricsToPickle(metrics[1..])
  }

  function Body(metrics: seq<Metric>): string
  {
    "(l" + MetricsToPickle(metrics) + "."
  }

  // ----- pickle machine

  datatype Value = Str(s: string) | Long(n: nat) | Tuple(items: seq<Value>) | List(items: seq<Value>)

  datatype Item = Mark | Val(v: Value)

  /** The line up to the next newline, and what follows it. */
  function ReadLine(s: string): Option<(string, string)>
  {
    if s == "" then None
    else if s[0] == '\n' then Some(("", s[1..]))
    else
      var r := ReadLine(s[1..]);
      if r.None? then None else Some(([s[0]] + r.value.0, r.value.1))
  }

  lemma {:induction false} ReadLineShortens(s: string)
    ensures ReadLine(s).Some? ==> |ReadLine(s).value.1| < |s|
  {
    if s != "" {
      ReadLineShortens(s[1..]);
    }
  }

  /** Text that a quoted string holds verbatim. */
  predicate IsVerbatim(s: string)
  {
    '\n' !in s && '\'' !in s && '\\' !in s
  }

  function Unquote(line: string): Option<string>
  {
    if |line| >= 2 && line[0] == '\'' && line[|line| - 1] == '\'' && IsVerbatim(line[1..|line| - 1])
    then Some(line[1..|line| - 1]) else None
  }

  function ParseLong(line: string): Option<nat>
  {
    if EndsWith(line, "L") then ParseDecimal(line[..|line| - 1]) else ParseDecimal(line)
  }

  /** The values above the topmost mark, and the stack below it. */
  function PopMark(stack: seq<Item>): Option<(seq<Item>, seq<Value>)>
  {
    if stack == [] then None
    else
      var top, init := stack[|stack| - 1], stack[..|stack| - 1];
      match top
      case Mark => Some((init, []))
      case Val(v) =>
        var r := PopMark(init);
        if r.None? then None else Some((r.value.0, r.value.1 + [v]))
  }

  function Append(stack: seq<Item>): Option<seq<Item>>
  {
    var n := |stack|;
    if n >= 2 && stack[n - 1].Val? && stack[n - 2].Val? && stack[n - 2].v.List? then
      Some(stack[..n - 2] + [Val(List(stack[n - 2].v.items + [stack[n - 1].v]))])
    else None
  }

  /** Runs the machine; the result is the value on top at STOP and the unread input. */
  function Exec(input: string, stack: seq<Item>): Option<(Value, string)>
    decreases |input|
  {
    if input == "" then None
    else
      var rest := input[1..];
      match input[0]
      case '(' => Exec(rest, stack + [Mark])
      case 'l' =>
        var r := PopMark(stack);
        if r.None? then None else Exec(rest, r.value.0 + [Val(List(r.value.1))])
      case 't' =>
        var r := PopMark(stack);
        if r.None? then None else Exec(rest, r.value.0 + [Val(Tuple(r.value.1))])
      case 'a' =>
        var r := Append(stack);
        if r.None? then None else Exec(rest, r.value)
      case 'S' =>
        ReadLineShortens(rest);
        var line := ReadLine(rest);
        if line.None? then None
        else
          var s := Unquote(line.value.0);
          if s.None? then None else Exec(line.value.1, stack + [Val(Str(s.value))])
      case 'L' =>
        ReadLineShortens(rest);
        var line := ReadLine(rest);
        if line.None? then None
        else
          var n := ParseLong(line.value.0);
          if n.None? then None else Exec(line.value.1, stack + [Val(Long(n.value))])
      case '.' =>
        if stack != [] && stack[|stack| - 1].Val? then Some((stack[|stack| - 1].v, rest)) else None
      case _ => None
  }

  // ----- the machine undoes the writer

  lemma {:induction false} ReadLineOf(line: string, rest: string)
    requires '\n' !in line
    ensures ReadLine(line + "\n" + rest) == Some((line, rest))
  {
    var s := line + "\n" + rest;
    if line == "" {
      assert s[0] == '\n' && s[1..] == rest;
    } else {
      ReadLineOf(line[1..], rest);
      assert s[1..] == line[1..] + "\n" + rest;
      assert line == [line[0]] + line[1..];
    }
  }

  lemma ExecString(s: string, rest: string, stack: seq<Item>)
    requires IsVerbatim(s)
    ensures Exec(StringOp(s) + rest, stack) == Exec(rest, stack + [Val(Str(s))])
  {
    hide ReadLine;
    var line := "'" + s + "'";
    var input := StringOp(s) + rest;
    assert input[0] == 'S' && input[1..] == line + "\n" + rest;
    ReadLineOf(line, rest);
    assert line[1..|line| - 1] == s;
  }

  lemma ExecLong(n: nat, rest: string, stack: seq<Item>)
    ensures Exec(LongOp(n) + rest, stack) == Exec(rest, stack + [Val(Long(n))])
  {
    hide ReadLine, Decimal, ParseDecimal;
    DecimalRoundTrip(n);
    var line := Decimal(n) + "L";
    var input := LongOp(n) + rest;
    assert input[0] == 'L' && input[1..] == line + "\n" + rest;
    ReadLineOf(line, rest);
    assert line[..|line| - 1] == Decimal(n) && line[|line| - 1..] == "L";
  }

  lemma ExecMark(rest: string, stack: seq<Item>)
    ensures Exec("(" + rest, stack) == Exec(rest, stack + [Mark])
  {
    assert ("(" + rest)[1..] == rest;
  }

  lemma ExecTuple(rest: string, below: seq<Item>, a: Value, b: Value)
    ensures Exec("t" + rest, below + [Mark, Val(a), Val(b)]) == Exec(rest, below + [Val(Tuple([a, b]))])
  {
    var stack := below + [Mark, Val(a), Val(b)];
    assert ("t" + rest)[1..] == rest;
    assert stack == below + [Mark] + [Val(a)] + [Val(b)];
    assert (below + [Mark])[..|below|] == below;
    PopMarkValue(below + [Mark], a);
    PopMarkValue(below + [Mark] + [Val(a)], b);
    assert [] + [a] + [b] == [a, b];
    assert PopMark(stack) == Some((below, [a, b]));
  }

  lemma PopMarkValue(stack: seq<Item>, v: Value)
    ensures PopMark(stack + [Val(v)])
         == if PopMark(stack).None? then None
            else Some((PopMark(stack).value.0, PopMark(stack).value.1 + [v]))
  {
    assert (stack + [Val(v)])[..|stack|] == stack;
  }

  lemma ExecAppend(rest: string, items: seq<Value>, v: Value)
    ensures Exec("a" + rest, [Val(List(items)), Val(v)]) == Exec(rest, [Val(List(items + [v]))])
  {
    assert ("a" + rest)[1..] == rest;
    var stack := [Val(List(items)), Val(v)];
    assert stack[..0] + [Val(List(items + [v]))] == [Val(List(items + [v]))];
    assert Append(stack) == Some([Val(List(items + [v]))]);
  }

  function MetricValue(m: Metric): Value
  {
    Tuple([Str(m.key), Tuple([Long(m.ts), Str(m.value)])])
  }

  predicate IsSerialisable(m: Metric)
  {
    IsVerbatim(m.key) && IsVerbatim(m.value)
  }

  /** The program of one metric appends its (key, (ts, value)) to the list on the stack. */
  lemma ExecMetric(m: Metric, rest: string, items: seq<Value>)
    requires IsSerialisable(m)
    ensures Exec(MetricToPickle(m) + rest, [Val(List(items))])
         == Exec(rest, [Val(List(items + [MetricValue(m)]))])
  {
    hide StringOp, LongOp, PopMark, Append, ReadLine, Unquote, ParseLong;
    var p6 := "a" + rest;
    var p5 := "t" + p6;
    var p4 := "t" + p5;
    var p3 := StringOp(m.value) + p4;
    var p2 := LongOp(m.ts) + p3;
    var p1 := "(" + p2;
    var p0 := StringOp(m.key) + p1;
    assert MetricToPickle(m) + rest == "(" + p0;
    var list, key, ts, value := Val(List(items)), Str(m.key), Long(m.ts), Str(m.value);
    var s1 := [list] + [Mark];
    var s2 := s1 + [Val(key)];
    var s3 := s2 + [Mark];
    var s4 := s3 + [Val(ts)];
    var s5 := s4 + [Val(value)];
    var s6 := s2 + [Val(Tuple([ts, value]))];
    var s7 := [list] + [Val(MetricValue(m))];
    ExecMark(p0, [list]);
    ExecString(m.key, p1, s1);
    ExecMark(p2, s2);
    ExecLong(m.ts, p3, s3);
    ExecString(m.value, p4, s4);
    assert s5 == s2 + [Mark, Val(ts), Val(value)];
    ExecTuple(p5, s2, ts, value);
    assert s6 == [list] + [Mark, Val(key), Val(Tuple([ts, value]))];
    ExecTuple(p6, [list], key, Tuple([ts, value]));
    assert s7 == [list, Val(MetricValue(m))];
    ExecAppend(rest, items, MetricValue(m));
  }

  function MetricValues(metrics: seq<Metric>): seq<Value>
  {
    if metrics == [] then [] else [MetricValue(metrics[0])] + MetricValues(metrics[1..])
  }

  lemma {:induction false} ExecMetrics(metrics: seq<Metric>, rest: string, items: seq<Value>)
    requires forall m <- metrics :: IsSerialisable(m)
    ensures Exec(MetricsToPickle(metrics) + rest, [Val(List(items))])
         == Exec(rest, [Val(List(items + MetricValues(metrics)))])
  {
    hide MetricToPickle, PopMark, Append, ReadLine, Unquote, ParseLong;
    if metrics == [] {
      assert "" + rest == rest;
      assert items + [] == items;
    } else {
      var m, more := metrics[0], metrics[1..];
      ExecMetric(m, MetricsToPickle(more) + rest, items);
      Associative(MetricToPickle(m), MetricsToPickle(more), rest);
      ExecMetrics(more, rest, items + [MetricValue(m)]);
      Associative(items, [MetricValue(m)], MetricValues(more));
    }
  }

  /** Unpickling the body gives exactly the list of (key, (ts, value)) in insertion order and
      leaves nothing unread, for any number of metrics. */
  lemma PickleRoundTrip(metrics: seq<Metric>)
    requires forall m <- metrics :: IsSerialisable(m)
    ensures Exec(Body(metrics), []) == Some((List(MetricValues(metrics)), ""))
  {
    hide MetricsToPickle, PopMark, Append, ReadLine, Unquote, ParseLong;
    var tail := MetricsToPickle(metrics) + ".";
    assert Body(metrics) == "(" + ("l" + tail);
    ExecOpenList(tail);
    ExecMetrics(metrics, ".", []);
    assert [] + MetricValues(metrics) == MetricValues(metrics);
    ExecStop(List(MetricValues(metrics)));
  }

  lemma ExecOpenList(rest: string)
    ensures Exec("(" + ("l" + rest), []) == Exec(rest, [Val(List([]))])
  {
    var marked: seq<Item> := [] + [Mark];
    ExecMark("l" + rest, []);
    assert ("l" + rest)[1..] == rest;
    assert marked[..0] == [];
    assert PopMark(marked) == Some(([], []));
    assert [] + [Val(List([]))] == [Val(List([]))];
  }

  lemma ExecStop(v: Value)
    ensures Exec(".", [Val(v)]) == Some((v, ""))
  {
    assert "."[1..] == "";
  }

  // ----- header and buffer

  type Byte = x: int | 0 <= x < 256

  function UInt32BE(n: nat): seq<Byte>
    requires n < 0x1_0000_0000
  {
    [n / 0x100_0000, n / 0x1_0000 % 256, n / 256 % 256, n % 256]
  }

  function FromUInt32BE(bytes: seq<Byte>): nat
    requires |bytes| == 4
  {
    var b0: int, b1: int, b2: int, b3: int := bytes[0], bytes[1], bytes[2], bytes[3];
    ((b0 * 256 + b1) * 256 + b2) * 256 + b3
  }

  lemma HeaderRoundTrip(n: nat)
    requires n < 0x1_0000_0000
    ensures FromUInt32BE(UInt32BE(n)) == n
  {
    var a := n / 256;
    var b := a / 256;
    assert b == n / 0x1_0000 && b / 256 == n / 0x100_0000;
  }

  predicate IsAscii(s: string)
  {
    forall i :: 0 <= i < |s| ==> s[i] as int < 128
  }

  function Encode(s: string): seq<Byte>
    requires IsAscii(s)
  {
    seq(|s|, i requires 0 <= i < |s| => s[i] as int)
  }

  function Decode(bytes: seq<Byte>): string
  {
    seq(|bytes|, i requires 0 <= i < |bytes| => bytes[i] as char)
  }

  lemma DecodeEncode(s: string)
    requires IsAscii(s)
    ensures Decode(Encode(s)) == s
  {
  }

  // ----- lengths in UTF-16 units and in bytes

  /** `s.length`: characters beyond the basic plane take two units. */
  function Units(s: string): nat
  {
    if s == "" then 0 else (if s[0] as int < 0x1_0000 then 1 else 2) + Units(s[1..])
  }

  function Utf8Char(c: char): seq<Byte>
  {
    var code := c as int;
    if code < 0x80 then [code]
    else if code < 0x800 then [0xC0 + code / 0x40, 0x80 + code % 0x40]
    else if code < 0x1_0000 then [0xE0 + code / 0x1000, 0x80 + code / 0x40 % 0x40, 0x80 + code % 0x40]
    else [0xF0 + code / 0x4_0000, 0x80 + code / 0x1000 % 0x40, 0x80 + code / 0x40 % 0x40, 0x80 + code % 0x40]
  }

  function Utf8(s: string): seq<Byte>
  {
    if s == "" then [] else Utf8Char(s[0]) + Utf8(s[1..])
  }

  /** What `write` puts into a buffer with some room: as many whole characters as fit. */
  function Fitting(s: string, room: nat): string
  {
    if s == "" || |Utf8Char(s[0])| > room then ""
    else [s[0]] + Fitting(s[1..], room - |Utf8Char(s[0])|)
  }

  lemma {:induction false} FittingIsLongestPrefix(s: string, room: nat)
    ensures var n := |Fitting(s, room)|;
      && n <= |s| && Fitting(s, room) == s[..n] && |Utf8(s[..n])| <= room
      && (n < |s| ==> |Utf8(s[..n + 1])| > room)
    ensures Fitting(s, room) == s <==> |Utf8(s)| <= room
  {
    if s != "" && |Utf8Char(s[0])| <= room {
      hide Utf8Char;
      var rest, left := s[1..], room - |Utf8Char(s[0])|;
      FittingIsLongestPrefix(rest, left);
      var n := |Fitting(rest, left)|;
      assert s[..n + 1] == [s[0]] + rest[..n] && s[..n + 1][1..] == rest[..n];
      if n < |rest| {
        assert s[..n + 2][1..] == rest[..n + 1];
      }
    } else if s != "" {
      assert s[..1][1..] == "";
    }
  }

  /** A string takes as many bytes as units exactly when it is ASCII, and more otherwise. */
  lemma {:induction false} BytesPerUnit(s: string)
    ensures Units(s) <= |Utf8(s)|
    ensures Units(s) == |Utf8(s)| <==> IsAscii(s)
  {
    if s != "" {
      BytesPerUnit(s[1..]);
      assert s == [s[0]] + s[1..];
      assert IsAscii(s) <==> s[0] as int < 128 && IsAscii(s[1..]);
    }
  }

  lemma {:induction false} AsciiBytes(s: string)
    requires IsAscii(s)
    ensures Utf8(s) == Encode(s) && Units(s) == |s|
  {
    if s != "" {
      AsciiBytes(s[1..]);
      assert Utf8(s) == [s[0] as int] + Encode(s[1..]);
    }
  }

  /** The payload holds the whole body exactly when the body is ASCII. Otherwise the buffer, sized
      in units, is too short for the bytes, and at least the STOP at the end is lost. */
  lemma PayloadIsCompleteIff(metrics: seq<Metric>)
    ensures var body := Body(metrics); Fitting(body, Units(body)) == body <==> IsAscii(body)
  {
    var body := Body(metrics);
    FittingIsLongestPrefix(body, Units(body));
    BytesPerUnit(body);
  }

  /** `Stats.toPickle`: the length header, then as much of the body as fits. */
  method ToPickle(metrics: seq<Metric>) returns (buf: array<Byte>)
    requires Units(Body(metrics)) < 0x1_0000_0000
    ensures fresh(buf)
    ensures var body := Body(metrics);
      var text := Utf8(Fitting(body, Units(body)));
      && buf.Length == 4 + Units(body) && |text| <= Units(body)
      && buf[..4] == UInt32BE(Units(body)) && buf[4..4 + |text|] == text
      && (IsAscii(body) ==> Units(body) == |body| && buf[..] == UInt32BE(Units(body)) + Encode(body))
  {
    hide Body, Utf8, Units, Fitting, UInt32BE;
    var body := Body(metrics);
    var length := Units(body);
    buf := new Byte[4 + length];
    var header := UInt32BE(length);
    HeaderLength(length);
    forall i | 0 <= i < 4 {
      buf[i] := header[i];
    }
    FittingIsLongestPrefix(body, length);
    var text := Utf8(Fitting(body, length));
    forall i | 0 <= i < |text| {
      buf[4 + i] := text[i];
    }
    assert buf[..4] == header && buf[4..4 + |text|] == text;
    if IsAscii(body) {
      PayloadIsCompleteIff(metrics);
      AsciiBytes(body);
      assert buf[..] == buf[..4] + buf[4..4 + |text|];
    }
  }

  /** The receiver: reads a length, then as many bytes, and runs the machine on them. */
  function Receive(bytes: seq<Byte>): Option<Value>
  {
    if |bytes| < 4 then None
    else
      var n := FromUInt32BE(bytes[..4]);
      if |bytes| != 4 + n then None
      else
        var r := Exec(Decode(bytes[4..]), []);
        if r.Some? && r.value.1 == "" then Some(r.value.0) else None
  }

  /** What the backend writes is what the receiver reads. */
  lemma PicklePayloadRoundTrip(metrics: seq<Metric>)
    requires forall m <- metrics :: IsSerialisable(m)
    requires IsAscii(Body(metrics)) && |Body(metrics)| < 0x1_0000_0000
    ensures Receive(UInt32BE(|Body(metrics)|) + Encode(Body(metrics)))
         == Some(List(MetricValues(metrics)))
  {
    hide Exec, Body, UInt32BE, FromUInt32BE;
    var body := Body(metrics);
    var bytes := UInt32BE(|body|) + Encode(body);
    PickleRoundTrip(metrics);
    HeaderLength(|body|);
    HeaderRoundTrip(|body|);
    DecodeEncode(body);
    assert bytes[..4] == UInt32BE(|body|) && bytes[4..] == Encode(body);
  }

  lemma HeaderLength(n: nat)
    requires n < 0x1_0000_0000
    ensures |UInt32BE(n)| == 4
  {
  }

  // ----- the formats, letter by letter

  lemma DecimalExamples()
    ensures Decimal(0) == "0" && Decimal(7) == "7" && Decimal(120) == "120"
  {
    assert Decimal(1) == "1" && Decimal(12) == Decimal(1) + "2";
    assert Decimal(120) == Decimal(12) + "0";
  }

  /** One metric as the receiver's protocol spells it: mark, string, mark, long, string, two tuples
      and an append, between the opening of a list and the stop. */
  lemma PickleLetters()
    ensures Body([Metric("a", "1", 120)]) == "(l(S'a'\n(L120L\nS'1'\ntta."
    ensures Body([]) == "(l."
  {
    var m := Metric("a", "1", 120);
    MetricLetters();
    assert [m][1..] == [];
    assert MetricsToPickle([m]) == MetricToPickle(m) + "";
    hide MetricToPickle;
  }

  lemma MetricLetters()
    ensures MetricToPickle(Metric("a", "1", 120)) == "(S'a'\n(L120L\nS'1'\ntta"
  {
    DecimalExamples();
    hide Decimal;
    assert StringOp("a") == "S'a'\n" && StringOp("1") == "S'1'\n" && LongOp(120) == "L120L\n";
  }

  /** The header's most significant byte comes first. */
  lemma HeaderBytes()
    ensures UInt32BE(0x0102_0304) == [1, 2, 3, 4]
  {
  }

  /** One line per metric: key, value and timestamp between blanks, and a newline at the end. */
  lemma TextLetters()
    ensures ToText([Metric("a", "1", 120), Metric("b", "2", 7)]) == "a 1 120\nb 2 7\n"
  {
    DecimalExamples();
    var a, b := Metric("a", "1", 120), Metric("b", "2", 7);
    assert MetricToText(a) == "a 1 120" && MetricToText(b) == "b 2 7";
    assert [a, b][1..] == [b] && [b][1..] == [];
    assert TextLines([b]) == ["b 2 7"] && TextLines([a, b]) == ["a 1 120"] + ["b 2 7"];
    assert ["a 1 120", "b 2 7"][1..] == ["b 2 7"];
    assert Join(["a 1 120", "b 2 7"], "\n") == "a 1 120" + "\n" + "b 2 7";
  }

  /** The bytes of characters of one to four bytes. */
  lemma Utf8Bytes()
    ensures Utf8Char('A') == [0x41] && Utf8Char('\U{E9}') == [0xC3, 0xA9]
    ensures Utf8Char('\U{20AC}') == [0xE2, 0x82, 0xAC] && Utf8Char('\U{1F600}') == [0xF0, 0x9F, 0x98, 0x80]
  {
  }

  // ----- text protocol

  function MetricToText(m: Metric): string
  {
    m.key + " " + m.value + " " + Decimal(m.ts)
  }

  function TextLines(metrics: seq<Metric>): seq<string>
  {
    if metrics == [] then [] else [MetricToText(metrics[0])] + TextLines(metrics[1..])
  }

  function ToText(metrics: seq<Metric>): string
  {
    Join(TextLines(metrics), "\n") + "\n"
  }

  /** A metric read from one line of text. */
  function ParseTextLine(line: string): Option<Metric>
  {
    var fields := Split(line, " ");
    if |fields| != 3 || ParseDecimal(fields[2]).None? then None
    else Some(Metric(fields[0], fields[1], ParseDecimal(fields[2]).value))
  }

  predicate IsOneLine(m: Metric)
  {
    ' ' !in m.key && '\n' !in m.key && ' ' !in m.value && '\n' !in m.value
  }

  lemma TextLineRoundTrip(m: Metric)
    requires IsOneLine(m)
    ensures ParseTextLine(MetricToText(m)) == Some(m)
    ensures '\n' !in MetricToText(m) && MetricToText(m) != ""
  {
    hide Split, Decimal, ParseDecimal;
    DecimalRoundTrip(m.ts);
    var ts := Decimal(m.ts);
    SplitWithoutSeparator(m.key, ' ');
    SplitWithoutSeparator(m.value, ' ');
    SplitWithoutSeparator(ts, ' ');
    SplitAtSeparator(m.key, ' ', m.value + " " + ts);
    SplitAtSeparator(m.value, ' ', ts);
    assert MetricToText(m) == m.key + " " + (m.value + " " + ts);
    assert [m.key] + ([m.value] + [ts]) == [m.key, m.value, ts];
  }

  /** Splitting the payload on newlines and each line on blanks gives the metrics back. */
  lemma {:induction false} TextRoundTrip(metrics: seq<Metric>)
    requires forall m <- metrics :: IsOneLine(m)
    ensures Lines(ToText(metrics)) == TextLines(metrics)
    ensures |TextLines(metrics)| == |metrics|
    ensures forall i :: 0 <= i < |metrics| ==> ParseTextLine(TextLines(metrics)[i]) == Some(metrics[i])
  {
    hide Lines, MetricToText, ParseTextLine;
    if metrics == [] {
      assert "" + "\n" == "" + "\n" + "";
      LinesAtNewline("", "");
      LinesOfOne("");
    } else {
      var m, more := metrics[0], metrics[1..];
      TextLineRoundTrip(m);
      TextRoundTrip(more);
      var line := MetricToText(m);
      LinesOfOne(line);
      if more == [] {
        assert ToText(metrics) == line + "\n" + "";
        LinesAtNewline(line, "");
        LinesOfOne("");
      } else {
        assert TextLines(metrics)[1..] == TextLines(more);
        assert ToText(metrics) == line + "\n" + ToText(more);
        LinesAtNewline(line, ToText(more));
      }
    }
  }
}
