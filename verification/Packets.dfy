/** Packet validation and parsing: every packet becomes a list of store updates. */
module Packets {
  import opened JsStrings

  /** The names of the daemon's own metrics. */
  datatype Names = Names(badLines: string, packets: string, metrics: string, lag: string)

  function NamesFor(prefix: string): Names
  {
    Names(prefix + ".bad_lines_seen", prefix + ".packets_received",
          prefix + ".metrics_received", prefix + ".timestamp_lag")
  }

  /** What parsing depends on. `number` is JavaScript's `Number`, where None is NaN. */
  datatype Syntax = Syntax(number: string -> Option<real>, names: Names, sanitizeKeys: bool)

  type NonZero = x: real | x != 0.0 witness 1.0

  /** What one sample taken at a sample rate stands for. */
  function Weight(rate: NonZero): real { 1.0 / rate }

  /** One store update. `Bump` is `counters[key]++`; `Fault` is a field on which the handler
      throws, or whose sample rate leaves no finite weight. */
  datatype Update =
    | Bump(key: string)
    | BadLine
    | Fault
    | Count(key: string, amount: real)
    | Time(key: string, value: real, rate: NonZero)
    | Gauge(key: string, signed: bool, value: real)
    | Member(key: string, element: string)

  // ----- lib/helpers.js

  predicate IsNumber(syn: Syntax, s: string)
  {
    s != "" && syn.number(s).Some?
  }

  predicate IsValidSampleRate(syn: Syntax, s: string)
  {
    |s| > 1 && s[0] == '@' && IsNumber(syn, s[1..]) && s[1] != '-'
  }

  predicate IsValidPacket(syn: Syntax, fields: seq<string>)
    requires fields != []
  {
    if |fields| < 2 then false
    else if |fields| > 2 && !IsValidSampleRate(syn, fields[2]) then false
    else if fields[1] == "s" then true
    else if fields[1] == "g" then IsNumber(syn, fields[0])
    else if fields[1] == "ms" then IsNumber(syn, fields[0]) && syn.number(fields[0]).value >= 0.0
    else IsNumber(syn, fields[0])
  }

  // ----- handlePacket

  /** The longest prefix of digits and dots. */
  function RateDigits(s: string): string
  {
    if s != "" && (IsDigit(s[0]) || s[0] == '.') then [s[0]] + RateDigits(s[1..]) else ""
  }

  datatype Rate = Throws | Rate(value: Option<real>)

  /** The sample rate of a valid field list: `match` throws when no digit or dot follows the @. */
  function SampleRate(syn: Syntax, fields: seq<string>): Rate
    requires fields != [] && IsValidPacket(syn, fields)
  {
    if |fields| < 3 then Rate(Some(1.0))
    else
      var digits := RateDigits(fields[2][1..]);
      if digits == "" then Throws else Rate(syn.number(digits))
  }

  predicate HasWeight(rate: Rate)
  {
    rate.Rate? && rate.value.Some? && rate.value.value != 0.0
  }

  predicate IsSigned(s: string)
  {
    s != "" && (s[0] == '-' || s[0] == '+')
  }

  /** What a valid field list does to the stores. */
  function FieldsUpdate(syn: Syntax, key: string, fields: seq<string>): Update
    requires fields != [] && IsValidPacket(syn, fields)
  {
    var rate := SampleRate(syn, fields);
    var kind := Trim(fields[1]);
    if rate.Throws? then Fault
    else if kind == "s" then Member(key, if fields[0] == "" then "0" else fields[0])
    else
      TypeIsNotExactlySet(fields[1]);
      var value := syn.number(fields[0]).value;
      if kind == "g" then Gauge(key, IsSigned(fields[0]), value)
      else if !HasWeight(rate) then Fault
      else if kind == "ms" then Time(key, value, rate.value.value)
      else Count(key, value * Weight(rate.value.value))
  }

  lemma TypeIsNotExactlySet(kind: string)
    ensures kind == "s" ==> Trim(kind) == "s"
  {
    assert DropSpaces("s") == "s";
    assert DropTrailingSpaces("s") == "s";
  }

  function BitUpdate(syn: Syntax, key: string, bit: string): Update
  {
    var fields := Split(bit, "|");
    if IsValidPacket(syn, fields) then FieldsUpdate(syn, key, fields) else BadLine
  }

  function CleanTags(tags: seq<string>): seq<string>
  {
    if tags == [] then []
    else [ReplaceFirst(ReplaceFirst(tags[0], ';', "_"), ':', "=")] + CleanTags(tags[1..])
  }

  function Tags(line: string): seq<string>
  {
    var parts := Split(line, "|#");
    if |parts| > 1 && parts[1] != "" then Split(parts[1], ",") else []
  }

  /** The part of a line before its tags, cut at the colons: the raw name, then the values. */
  function Pieces(line: string): (pieces: seq<string>)
    ensures pieces != []
  {
    Split(Split(line, "|#")[0], ":")
  }

  function KeyOf(syn: Syntax, line: string): string
  {
    var tags := Tags(line);
    var key := Pieces(line)[0] + if tags == [] then "" else ";" + Join(CleanTags(tags), ";");
    if syn.sanitizeKeys then Sanitize(key) else key
  }

  /** The values of a line; a line without any is read as "1". */
  function Bits(line: string): (bits: seq<string>)
    ensures bits != []
  {
    var pieces := Pieces(line);
    if |pieces| == 1 then ["1"] else pieces[1..]
  }

  function BitUpdates(syn: Syntax, key: string, bits: seq<string>): seq<Update>
  {
    if bits == [] then []
    else BitUpdates(syn, key, bits[..|bits| - 1]) + [BitUpdate(syn, key, bits[|bits| - 1])]
  }

  function LineUpdates(syn: Syntax, line: string): seq<Update>
  {
    [Bump(syn.names.metrics)] + BitUpdates(syn, KeyOf(syn, line), Bits(line))
  }

  function LinesUpdates(syn: Syntax, lines: seq<string>): seq<Update>
  {
    if lines == [] then []
    else LinesUpdates(syn, lines[..|lines| - 1]) + LineUpdates(syn, lines[|lines| - 1])
  }

  function PacketUpdates(syn: Syntax, packet: string): seq<Update>
  {
    [Bump(syn.names.packets)] + LinesUpdates(syn, Lines(packet))
  }

  lemma {:induction false} LinesUpdatesConcat(syn: Syntax, a: seq<string>, b: seq<string>)
    ensures LinesUpdates(syn, a + b) == LinesUpdates(syn, a) + LinesUpdates(syn, b)
    decreases |b|
  {
    hide LineUpdates;
    if b == [] {
      assert a + b == a;
    } else {
      var m := |b| - 1;
      LinesUpdatesConcat(syn, a, b[..m]);
      assert (a + b)[..|a + b| - 1] == a + b[..m] && (a + b)[|a + b| - 1] == b[m];
      Associative(LinesUpdates(syn, a), LinesUpdates(syn, b[..m]), LineUpdates(syn, b[m]));
    }
  }

  // ----- values that are accepted but should not be

  lemma TrimmedKinds()
    ensures Trim("c") == "c" && Trim("ms") == "ms" && Trim("g") == "g" && Trim("s") == "s"
  {
    assert "ms"[..1] == "m" && DropTrailingSpaces("ms") == "ms";
  }

  /** The rate field, if any, gives a finite weight. */
  predicate HasUsableRate(syn: Syntax, fields: seq<string>)
  {
    |fields| > 2 ==>
      && IsValidSampleRate(syn, fields[2])
      && (var digits := RateDigits(fields[2][1..]);
          digits != "" && syn.number(digits).Some? && syn.number(digits).value != 0.0)
  }

  /** A negative timer is stored exactly for a padded `ms`: such a type is validated as if it
      were a counter's, and then still read as a timer's. */
  lemma NegativeTimerIff(syn: Syntax, key: string, bit: string)
    ensures var u, fields := BitUpdate(syn, key, bit), Split(bit, "|");
      (u.Time? && u.value < 0.0) <==>
        && |fields| >= 2 && fields[1] != "ms" && Trim(fields[1]) == "ms"
        && IsNumber(syn, fields[0]) && syn.number(fields[0]).value < 0.0
        && HasUsableRate(syn, fields)
  {
    hide Split, Trim;
    TrimmedKinds();
  }

  /** Two fields around one bar. */
  lemma TwoFields(value: string, kind: string)
    requires '|' !in value && '|' !in kind
    ensures Split(value + "|" + kind, "|") == [value, kind]
  {
    hide Split;
    SplitWithoutSeparator(value, '|');
    SplitWithoutSeparator(kind, '|');
    SplitAtSeparator(value, '|', kind);
  }

  lemma NegativeTimer(syn: Syntax, key: string, v: real)
    requires syn.number("-5") == Some(v)
    ensures BitUpdate(syn, key, "-5| ms") == Time(key, v, 1.0)
  {
    hide Split;
    TwoFields("-5", " ms");
    assert "-5" + "|" + " ms" == "-5| ms";
    TrimmedKinds();
    assert DropSpaces(" ms") == DropSpaces("ms") == "ms";
  }

  /** A valid value is a fault exactly when its rate field does not go on with a digit or a dot,
      or when what it goes on with is 0 or no number and the type scales by it. */
  lemma FaultIff(syn: Syntax, key: string, bit: string)
    ensures var fields := Split(bit, "|");
      BitUpdate(syn, key, bit) == Fault <==>
        && IsValidPacket(syn, fields) && |fields| > 2
        && (|| !(IsDigit(fields[2][1]) || fields[2][1] == '.')
            || (Trim(fields[1]) !in {"s", "g"} && !HasUsableRate(syn, fields)))
  {
    hide Split, Trim;
    var fields := Split(bit, "|");
    if |fields| > 2 && |fields[2]| > 1 {
      assert fields[2][1..][0] == fields[2][1];
    }
  }

  lemma ThreeFields(value: string, kind: string, rate: string)
    requires '|' !in value && '|' !in kind && '|' !in rate
    ensures Split(value + "|" + kind + "|" + rate, "|") == [value, kind, rate]
  {
    hide Split;
    TwoFields(kind, rate);
    SplitWithoutSeparator(value, '|');
    SplitAtSeparator(value, '|', kind + "|" + rate);
    assert value + "|" + kind + "|" + rate == value + "|" + (kind + "|" + rate);
  }

  /** Rates the validator lets through: a sign makes the handler throw, and 0 has no weight. */
  lemma BadRates(syn: Syntax, key: string)
    requires syn.number("1").Some? && syn.number("+5").Some? && syn.number("0") == Some(0.0)
    ensures BitUpdate(syn, key, "1|c|@+5") == Fault
    ensures BitUpdate(syn, key, "1|c|@0") == Fault
  {
    hide Split, Trim;
    ThreeFields("1", "c", "@+5");
    ThreeFields("1", "c", "@0");
    assert "1" + "|" + "c" + "|" + "@+5" == "1|c|@+5" && "1" + "|" + "c" + "|" + "@0" == "1|c|@0";
    assert "@+5"[1..] == "+5" && "@0"[1..] == "0";
    RateDigitsOf("0");
    TrimmedKinds();
  }

  // ----- pieces of a line

  /** Text that none of the separators can cut. */
  predicate IsAtom(s: string)
  {
    ':' !in s && '|' !in s && '#' !in s
  }

  lemma {:induction false} RateDigitsOf(rate: string)
    requires forall i :: 0 <= i < |rate| ==> IsDigit(rate[i]) || rate[i] == '.'
    ensures RateDigits(rate) == rate
  {
    if rate != "" {
      RateDigitsOf(rate[1..]);
      assert [rate[0]] + rate[1..] == rate;
    }
  }

  lemma RateIsAtom(rate: string)
    requires forall i :: 0 <= i < |rate| ==> IsDigit(rate[i]) || rate[i] == '.'
    ensures IsAtom(rate)
  {
  }

  lemma TagMarkHasHash(line: string, i: nat)
    requires i <= |line| && StartsWith(line[i..], "|#")
    ensures '#' in line
  {
    assert line[i..][..2][1] == line[i + 1];
  }

  lemma PiecesOf(name: string, bit: string)
    requires IsAtom(name) && ':' !in bit && '#' !in bit
    ensures var line := name + ":" + bit;
      Tags(line) == [] && Pieces(line) == [name, bit]
  {
    hide Split;
    var line := name + ":" + bit;
    assert '#' !in line;
    if Contains(line, "|#") {
      var i :| 0 <= i <= |line| && StartsWith(line[i..], "|#");
      TagMarkHasHash(line, i);
    }
    SplitUncut(line, "|#");
    SplitAtSeparator(name, ':', bit);
    SplitWithoutSeparator(name, ':');
    SplitWithoutSeparator(bit, ':');
  }

  lemma OneBit(syn: Syntax, key: string, bit: string)
    ensures BitUpdates(syn, key, [bit]) == [BitUpdate(syn, key, bit)]
  {
    hide BitUpdate;
    assert [bit][..0] == [];
  }

  /** A weight is the inverse of its rate. */
  lemma WeightTimesRate(rate: NonZero)
    ensures Weight(rate) * rate == 1.0
  {
  }
}
