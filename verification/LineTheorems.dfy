/** What the handler reads from the lines clients write: any number of values, sampled or not, and
    any number of tags. */
module LineTheorems {
  import opened JsStrings
  import opened Packets

  // ----- values

  /** A value as a client writes it; `number` and `r` are what its texts mean. */
  datatype Val = Val(text: string, kind: string, rate: Option<string>, number: real, r: NonZero)

  function BitText(x: Val): string
  {
    x.text + "|" + x.kind + if x.rate.Some? then "|@" + x.rate.value else ""
  }

  /** The text of a sample rate reads as r; without one the rate is 1. */
  predicate ReadsAsRate(syn: Syntax, rate: Option<string>, r: real)
  {
    match rate
    case None => r == 1.0
    case Some(text) =>
      && text != "" && syn.number(text) == Some(r)
      && forall i :: 0 <= i < |text| ==> IsDigit(text[i]) || text[i] == '.'
  }

  predicate IsFormatted(syn: Syntax, x: Val)
  {
    && IsAtom(x.text) && IsAtom(x.kind) && x.text != ""
    && (x.kind != "s" ==> syn.number(x.text) == Some(x.number))
    && (x.kind == "ms" ==> x.number >= 0.0)
    && ReadsAsRate(syn, x.rate, x.r)
  }

  /** The update asks for what the value says: a set member, a signed or absolute gauge, a timer
      sample taken at rate r, or for any other type an amount that r times over is the number. */
  ghost predicate Means(u: Update, key: string, x: Val)
  {
    var kind := Trim(x.kind);
    if kind == "s" then u == Member(key, x.text)
    else if kind == "g" then
      && u.Gauge? && u.key == key && u.value == x.number
      && (u.signed <==> StartsWith(x.text, "+") || StartsWith(x.text, "-"))
    else if kind == "ms" then u.Time? && u.key == key && u.value == x.number && u.rate == x.r
    else u.Count? && u.key == key && u.amount * x.r == x.number
  }

  lemma FieldsOf(x: Val)
    requires IsAtom(x.text) && IsAtom(x.kind) && (x.rate.Some? ==> IsAtom(x.rate.value))
    ensures Split(BitText(x), "|") == [x.text, x.kind] + if x.rate.Some? then ["@" + x.rate.value] else []
  {
    hide Split;
    if x.rate.None? {
      assert x.text + "|" + x.kind + "" == x.text + "|" + x.kind;
      TwoFields(x.text, x.kind);
    } else {
      ThreeFields(x.text, x.kind, "@" + x.rate.value);
      assert BitText(x) == x.text + "|" + x.kind + "|" + ("@" + x.rate.value);
    }
  }

  lemma ScaledBack(number: real, r: NonZero)
    ensures number * Weight(r) * r == number
  {
    WeightTimesRate(r);
    var w := Weight(r);
    assert number * w * r == number * (w * r);
  }

  lemma ValueIsRead(syn: Syntax, key: string, x: Val)
    requires IsFormatted(syn, x)
    ensures Means(BitUpdate(syn, key, BitText(x)), key, x)
  {
    hide Split, Trim, Weight;
    TrimmedKinds();
    ScaledBack(x.number, x.r);
    if x.rate.Some? {
      RateIsAtom(x.rate.value);
      RateDigitsOf(x.rate.value);
      assert ("@" + x.rate.value)[1..] == x.rate.value && ("@" + x.rate.value)[1] == x.rate.value[0];
    }
    FieldsOf(x);
  }

  // ----- tags

  /** A tag with its value, if any, and what stands for it in the key. */
  datatype Tag = Tag(name: string, value: Option<string>)

  function TagText(t: Tag): string
  {
    t.name + if t.value.Some? then ":" + t.value.value else ""
  }

  function TagKey(t: Tag): string
  {
    t.name + if t.value.Some? then "=" + t.value.value else ""
  }

  /** Text without any separator of tags or keys. */
  predicate IsTagAtom(s: string)
  {
    ':' !in s && ';' !in s && ',' !in s && '#' !in s
  }

  predicate IsTag(t: Tag)
  {
    t.name != "" && IsTagAtom(t.name) && (t.value.Some? ==> IsTagAtom(t.value.value))
  }

  function TagTexts(tags: seq<Tag>): seq<string>
  {
    if tags == [] then [] else [TagText(tags[0])] + TagTexts(tags[1..])
  }

  function TagKeys(tags: seq<Tag>): seq<string>
  {
    if tags == [] then [] else [TagKey(tags[0])] + TagKeys(tags[1..])
  }

  lemma CleanTag(t: Tag)
    requires IsTag(t)
    ensures ReplaceFirst(ReplaceFirst(TagText(t), ';', "_"), ':', "=") == TagKey(t)
  {
    ReplaceNone(TagText(t), ';', "_");
    if t.value.None? {
      assert t.name + "" == t.name;
      ReplaceNone(t.name, ':', "=");
    } else {
      assert TagText(t) == t.name + ":" + t.value.value;
      ReplaceAt(t.name, ':', t.value.value, "=");
      assert t.name + "=" + t.value.value == TagKey(t);
    }
  }

  lemma {:induction false} CleanTagTexts(tags: seq<Tag>)
    requires forall i :: 0 <= i < |tags| ==> IsTag(tags[i])
    ensures CleanTags(TagTexts(tags)) == TagKeys(tags)
    ensures forall i :: 0 <= i < |TagTexts(tags)| ==> ',' !in TagTexts(tags)[i] && '#' !in TagTexts(tags)[i]
    ensures tags != [] ==> TagTexts(tags) != [] && TagTexts(tags)[0] != ""
  {
    hide ReplaceFirst;
    if tags != [] {
      CleanTag(tags[0]);
      CleanTagTexts(tags[1..]);
      var texts := TagTexts(tags);
      assert texts[0] == TagText(tags[0]) && texts[1..] == TagTexts(tags[1..]);
      assert CleanTags(texts) == [TagKey(tags[0])] + CleanTags(texts[1..]);
    }
  }

  /** Inside a tag the first semicolon becomes `_`, and the first colon `=`; later ones stay. */
  lemma SeparatorsInTags(a: string, b: string)
    requires ';' !in a && ':' !in a
    ensures ':' !in b ==> CleanTags([a + ";" + b]) == [a + "_" + b]
    ensures ';' !in b ==> CleanTags([a + ":" + b]) == [a + "=" + b]
  {
    hide ReplaceFirst;
    assert [a + ";" + b][1..] == [] && [a + ":" + b][1..] == [];
    ReplaceAt(a, ';', b, "_");
    ReplaceAt(a, ':', b, "=");
    if ':' !in b { ReplaceNone(a + "_" + b, ':', "="); }
    if ';' !in b { ReplaceNone(a + ":" + b, ';', "_"); }
  }

  // ----- whole lines

  function BitTexts(values: seq<Val>): seq<string>
  {
    seq(|values|, i requires 0 <= i < |values| => BitText(values[i]))
  }

  /** A name, its values between colons, and its tags between commas. */
  function Line(name: string, values: seq<Val>, tags: seq<Tag>): string
  {
    Body(name, values) + if tags == [] then "" else "|#" + Join(TagTexts(tags), ",")
  }

  function Body(name: string, values: seq<Val>): string
  {
    name + if values == [] then "" else ":" + Join(BitTexts(values), ":")
  }

  /** The key such a line is stored under: its tags follow the name as `;tag=value`. */
  function LineKey(syn: Syntax, name: string, tags: seq<Tag>): string
  {
    var key := name + if tags == [] then "" else ";" + Join(TagKeys(tags), ";");
    if syn.sanitizeKeys then Sanitize(key) else key
  }

  lemma BodyHasNoMark(syn: Syntax, name: string, values: seq<Val>)
    requires IsAtom(name) && forall i :: 0 <= i < |values| ==> IsFormatted(syn, values[i])
    ensures '#' !in Body(name, values)
    ensures forall i :: 0 <= i < |values| ==> ':' !in BitTexts(values)[i]
  {
    forall i | 0 <= i < |values|
      ensures ':' !in BitTexts(values)[i] && '#' !in BitTexts(values)[i]
    {
      assert IsFormatted(syn, values[i]);
      if values[i].rate.Some? { RateIsAtom(values[i].rate.value); }
    }
    JoinHolds(BitTexts(values), ":", '#');
  }

  lemma PartsOfTagged(body: string, tags: seq<Tag>)
    requires '#' !in body && tags != [] && forall i :: 0 <= i < |tags| ==> IsTag(tags[i])
    ensures Split(body + "|#" + Join(TagTexts(tags), ","), "|#") == [body, Join(TagTexts(tags), ",")]
    ensures Join(TagTexts(tags), ",") != ""
    ensures Split(Join(TagTexts(tags), ","), ",") == TagTexts(tags)
  {
    hide Split, IsTag, TagTexts;
    CleanTagTexts(tags);
    var texts := Join(TagTexts(tags), ",");
    SplitAtMark(body, texts);
    JoinHolds(TagTexts(tags), ",", '#');
    NoMark(texts);
    SplitUncut(texts, "|#");
    SplitJoin(TagTexts(tags), ',');
  }

  lemma PartsOfLine(body: string, tags: seq<Tag>)
    requires '#' !in body && forall i :: 0 <= i < |tags| ==> IsTag(tags[i])
    ensures var line := body + if tags == [] then "" else "|#" + Join(TagTexts(tags), ",");
      Split(line, "|#")[0] == body && Tags(line) == TagTexts(tags)
  {
    hide Split, Join, IsTag;
    if tags == [] {
      assert body + "" == body;
      NoMark(body);
      SplitUncut(body, "|#");
    } else {
      hide TagTexts;
      PartsOfTagged(body, tags);
      assert body + ("|#" + Join(TagTexts(tags), ",")) == body + "|#" + Join(TagTexts(tags), ",");
    }
  }

  lemma NoMark(s: string)
    requires '#' !in s
    ensures !Contains(s, "|#")
  {
    if Contains(s, "|#") {
      var i :| 0 <= i <= |s| && StartsWith(s[i..], "|#");
      TagMarkHasHash(s, i);
    }
  }

  lemma PiecesOfBody(name: string, bits: seq<string>)
    requires IsAtom(name) && forall i :: 0 <= i < |bits| ==> ':' !in bits[i]
    ensures Split(name + if bits == [] then "" else ":" + Join(bits, ":"), ":") == [name] + bits
  {
    hide Split;
    SplitWithoutSeparator(name, ':');
    if bits == [] {
      assert name + "" == name && [name] + bits == [name];
    } else {
      assert name + (":" + Join(bits, ":")) == name + ":" + Join(bits, ":");
      SplitAtSeparator(name, ':', Join(bits, ":"));
      SplitJoin(bits, ':');
    }
  }

  lemma KeyAndBits(syn: Syntax, name: string, values: seq<Val>, tags: seq<Tag>)
    requires IsAtom(name) && (forall i :: 0 <= i < |values| ==> IsFormatted(syn, values[i]))
    requires forall i :: 0 <= i < |tags| ==> IsTag(tags[i])
    ensures var line := Line(name, values, tags);
      && KeyOf(syn, line) == LineKey(syn, name, tags)
      && Bits(line) == if values == [] then ["1"] else BitTexts(values)
  {
    hide Split, Sanitize, Tags, IsFormatted, IsTag, Join, TagTexts, CleanTags;
    BodyHasNoMark(syn, name, values);
    PartsOfLine(Body(name, values), tags);
    CleanTagTexts(tags);
    PiecesOfBody(name, BitTexts(values));
    var line := Line(name, values, tags);
    assert Pieces(line) == [name] + BitTexts(values);
    assert Pieces(line)[1..] == BitTexts(values);
    EmptyTags();
    if tags != [] { assert TagTexts(tags) != []; }
  }

  lemma EmptyTags()
    ensures TagTexts([]) == []
  {
  }

  lemma {:induction false} BitUpdatesAt(syn: Syntax, key: string, bits: seq<string>)
    ensures |BitUpdates(syn, key, bits)| == |bits|
    ensures forall i :: 0 <= i < |bits| ==> BitUpdates(syn, key, bits)[i] == BitUpdate(syn, key, bits[i])
    decreases |bits|
  {
    hide BitUpdate;
    if bits != [] {
      BitUpdatesAt(syn, key, bits[..|bits| - 1]);
    }
  }

  lemma BareValueIsBad(syn: Syntax, key: string)
    ensures BitUpdate(syn, key, "1") == BadLine
  {
    SplitWithoutSeparator("1", '|');
  }

  /** A line of a name with any number of values and tags counts itself, and then asks under its
      key for what each value says, in order; without any value it is one bad line. */
  lemma LineIsRead(syn: Syntax, name: string, values: seq<Val>, tags: seq<Tag>)
    requires IsAtom(name) && (forall i :: 0 <= i < |values| ==> IsFormatted(syn, values[i]))
    requires forall i :: 0 <= i < |tags| ==> IsTag(tags[i])
    ensures var us := LineUpdates(syn, Line(name, values, tags));
      && |us| > 0 && us[0] == Bump(syn.names.metrics)
      && (values == [] ==> us[1..] == [BadLine])
      && (values != [] ==>
            && |us| == |values| + 1
            && forall i :: 0 <= i < |values| ==> Means(us[i + 1], LineKey(syn, name, tags), values[i]))
  {
    hide KeyOf, Bits, BitUpdate, Means, Line, LineKey, IsFormatted, IsTag;
    var key := LineKey(syn, name, tags);
    KeyAndBits(syn, name, values, tags);
    if values == [] {
      OneBit(syn, key, "1");
      BareValueIsBad(syn, key);
    } else {
      BitUpdatesAt(syn, key, BitTexts(values));
      forall i | 0 <= i < |values|
        ensures Means(BitUpdate(syn, key, BitTexts(values)[i]), key, values[i])
      {
        ValueIsRead(syn, key, values[i]);
      }
    }
  }

  // ----- validation

  /** The cases of the validator's tests: what is accepted and what is not. */
  lemma ValidatorCases(syn: Syntax, n: string, rate: string)
    requires syn.number(n).Some? && n != "" && rate != ""
    ensures !IsValidPacket(syn, [n])
    ensures !IsValidPacket(syn, ["", "c"]) && !IsValidPacket(syn, ["", "ms"]) && !IsValidPacket(syn, ["", "g"])
    ensures IsValidPacket(syn, [n, "c"]) && IsValidPacket(syn, [n, "g"]) && IsValidPacket(syn, [n, "x"])
    ensures IsValidPacket(syn, [n, "ms"]) <==> syn.number(n).value >= 0.0
    ensures IsValidPacket(syn, ["", "s"]) && IsValidPacket(syn, ["any", "s"])
    ensures syn.number("any").None? ==> !IsValidPacket(syn, ["any", "c"]) && !IsValidPacket(syn, ["any", "g"])
                                        && !IsValidPacket(syn, ["any", "ms"])
    ensures !IsValidPacket(syn, [n, "c", ""]) && !IsValidPacket(syn, [n, "c", "@"])
    ensures rate[0] != '@' ==> !IsValidPacket(syn, [n, "c", rate])
    ensures IsValidPacket(syn, [n, "c", "@" + rate]) <==> syn.number(rate).Some? && rate[0] != '-'
    ensures IsValidPacket(syn, ["any", "s", "@" + rate]) <==> syn.number(rate).Some? && rate[0] != '-'
  {
    assert ("@" + rate)[1..] == rate && ("@" + rate)[1] == rate[0];
  }

  /** The handler reads a rate up to the first character that is no digit or dot. */
  lemma {:induction false} RateDigitsStop(digits: string, rest: string)
    requires forall i :: 0 <= i < |digits| ==> IsDigit(digits[i]) || digits[i] == '.'
    requires rest != "" ==> !IsDigit(rest[0]) && rest[0] != '.'
    ensures RateDigits(digits + rest) == digits
    decreases |digits|
  {
    if digits == "" {
      assert digits + rest == rest;
    } else {
      RateDigitsStop(digits[1..], rest);
      assert (digits + rest)[1..] == digits[1..] + rest && (digits + rest)[0] == digits[0];
      assert [digits[0]] + digits[1..] == digits;
    }
  }

  /** An empty set element is stored as "0". */
  lemma EmptyElement(syn: Syntax, key: string)
    ensures BitUpdate(syn, key, "|s") == Member(key, "0")
  {
    hide Split, Trim;
    TwoFields("", "s");
    assert "" + "|" + "s" == "|s";
    TrimmedKinds();
  }
}
