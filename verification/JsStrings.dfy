/** The string operations of JavaScript that the daemon, the proxy and the graphite
    backend use: splitting, joining, trimming and the three-pass key sanitiser. */
module JsStrings {

  datatype Option<+T> = None | Some(value: T)

  /** `s.split(sep)` for a non-empty separator: the leftmost match is cut first. */
  function Split(s: string, sep: string): (parts: seq<string>)
    requires sep != ""
    ensures parts != []
    decreases |s|
  {
    if |s| < |sep| then [s]
    else if s[..|sep|] == sep then [""] + Split(s[|sep|..], sep)
    else ExtendFirst(s[0], Split(s[1..], sep))
  }

  function ExtendFirst(c: char, parts: seq<string>): (r: seq<string>)
    requires parts != []
    ensures r != []
  {
    [[c] + parts[0]] + parts[1..]
  }

  lemma ExtendFirstConcat(c: char, p: seq<string>, q: seq<string>)
    requires p != []
    ensures ExtendFirst(c, p + q) == ExtendFirst(c, p) + q
  {
    assert (p + q)[1..] == p[1..] + q;
  }

  lemma ExtendFirstJoin(c: char, parts: seq<string>, sep: string)
    requires parts != []
    ensures Join(ExtendFirst(c, parts), sep) == [c] + Join(parts, sep)
  {
    assert ExtendFirst(c, parts)[1..] == parts[1..];
  }

  /** `parts.join(sep)` */
  function Join(parts: seq<string>, sep: string): string
  {
    if parts == [] then ""
    else if |parts| == 1 then parts[0]
    else parts[0] + sep + Join(parts[1..], sep)
  }

  lemma {:induction false} JoinSplit(s: string, sep: string)
    requires sep != ""
    ensures Join(Split(s, sep), sep) == s
    decreases |s|
  {
    if |s| < |sep| {
    } else if s[..|sep|] == sep {
      var rest := Split(s[|sep|..], sep);
      JoinSplit(s[|sep|..], sep);
      assert ([""] + rest)[1..] == rest;
    } else {
      JoinSplit(s[1..], sep);
      ExtendFirstJoin(s[0], Split(s[1..], sep), sep);
    }
  }

  /** Splitting on one character leaves that character in no part. */
  lemma {:induction false} SplitHasNoSeparator(s: string, c: char)
    ensures forall part <- Split(s, [c]) :: c !in part
    decreases |s|
  {
    if s != "" {
      SplitHasNoSeparator(s[1..], c);
      if s[..1] != [c] {
        var rest := Split(s[1..], [c]);
        assert rest[0] in rest;
        assert forall part <- rest[1..] :: part in rest;
      }
    }
  }

  lemma {:induction false} SplitWithoutSeparator(s: string, c: char)
    requires c !in s
    ensures Split(s, [c]) == [s]
  {
    if s != "" {
      SplitWithoutSeparator(s[1..], c);
      assert [s[0]] + s[1..] == s;
    }
  }

  /** A separator between two strings separates their parts. */
  lemma {:induction false} SplitAtSeparator(a: string, c: char, b: string)
    ensures Split(a + [c] + b, [c]) == Split(a, [c]) + Split(b, [c])
  {
    var whole := a + [c] + b;
    if a == "" {
      assert whole[..1] == [c] && whole[1..] == b;
    } else {
      SplitAtSeparator(a[1..], c, b);
      assert whole[1..] == a[1..] + [c] + b && whole[0] == a[0];
      SplitStep(whole, c);
      SplitStep(a, c);
      ExtendFirstConcat(a[0], Split(a[1..], [c]), Split(b, [c]));
      if a[0] == c {
        Associative([""], Split(a[1..], [c]), Split(b, [c]));
      }
    }
  }

  lemma SplitStep(s: string, c: char)
    requires s != ""
    ensures Split(s, [c]) == if s[0] == c then [""] + Split(s[1..], [c])
                             else ExtendFirst(s[0], Split(s[1..], [c]))
  {
  }

  lemma Associative<T>(a: seq<T>, b: seq<T>, c: seq<T>)
    ensures a + (b + c) == (a + b) + c
  {
  }

  function NonEmpty(parts: seq<string>): seq<string>
  {
    if parts == [] then []
    else if parts[0] == "" then NonEmpty(parts[1..])
    else [parts[0]] + NonEmpty(parts[1..])
  }

  lemma {:induction false} NonEmptyConcat(a: seq<string>, b: seq<string>)
    ensures NonEmpty(a + b) == NonEmpty(a) + NonEmpty(b)
  {
    if a == [] {
      assert a + b == b;
    } else {
      NonEmptyConcat(a[1..], b);
      assert (a + b)[1..] == a[1..] + b && (a + b)[0] == a[0];
      assert NonEmpty(a + b) == (if a[0] == "" then [] else [a[0]]) + (NonEmpty(a[1..]) + NonEmpty(b));
    }
  }

  /** The metric lines of a packet: the non-empty parts between newlines. */
  function Lines(packet: string): seq<string>
  {
    NonEmpty(Split(packet, "\n"))
  }

  lemma LinesAtNewline(a: string, b: string)
    ensures Lines(a + "\n" + b) == Lines(a) + Lines(b)
  {
    SplitAtSeparator(a, '\n', b);
    NonEmptyConcat(Split(a, "\n"), Split(b, "\n"));
  }

  lemma LinesOfOne(line: string)
    requires '\n' !in line
    ensures Lines(line) == if line == "" then [] else [line]
  {
    SplitWithoutSeparator(line, '\n');
    assert NonEmpty([line][1..]) == [];
  }

  /** A packet that ends in a newline can be followed by more text without a line changing. */
  lemma LinesOfTerminated(a: string, b: string)
    requires a == "" || a[|a| - 1] == '\n'
    ensures Lines(a + b) == Lines(a) + Lines(b)
  {
    if a == "" {
      assert a + b == b;
      LinesOfOne("");
    } else {
      var body := a[..|a| - 1];
      assert a == body + "\n" + "";
      assert a + b == body + "\n" + b;
      LinesAtNewline(body, b);
      LinesAtNewline(body, "");
      LinesOfOne("");
    }
  }

  predicate StartsWith(s: string, prefix: string)
  {
    |prefix| <= |s| && s[..|prefix|] == prefix
  }

  predicate EndsWith(s: string, suffix: string)
  {
    |suffix| <= |s| && s[|s| - |suffix|..] == suffix
  }

  /** `s.indexOf(part) != -1` */
  predicate Contains(s: string, part: string)
  {
    exists i :: 0 <= i <= |s| && StartsWith(s[i..], part)
  }

  /** A string without the separator is its only part. */
  lemma {:induction false} SplitUncut(s: string, sep: string)
    requires sep != "" && !Contains(s, sep)
    ensures Split(s, sep) == [s]
    decreases |s|
  {
    if |s| >= |sep| {
      assert s[0..] == s && !StartsWith(s[0..], sep);
      forall i | 0 <= i <= |s[1..]|
        ensures !StartsWith(s[1..][i..], sep)
      {
        assert s[1..][i..] == s[i + 1..];
      }
      SplitUncut(s[1..], sep);
      assert [s[0]] + s[1..] == s;
    }
  }

  /** `s.replace(c, with)` with a one-character string pattern: only the first occurrence. */
  function ReplaceFirst(s: string, c: char, with: string): string
  {
    if s == "" then ""
    else if s[0] == c then with + s[1..]
    else [s[0]] + ReplaceFirst(s[1..], c, with)
  }

  lemma {:induction false} ReplaceNone(s: string, c: char, with: string)
    requires c !in s
    ensures ReplaceFirst(s, c, with) == s
  {
    if s != "" {
      ReplaceNone(s[1..], c, with);
      assert [s[0]] + s[1..] == s;
    }
  }

  lemma {:induction false} ReplaceAt(a: string, c: char, b: string, with: string)
    requires c !in a
    ensures ReplaceFirst(a + [c] + b, c, with) == a + with + b
  {
    var whole := a + [c] + b;
    if a == "" {
      assert whole[1..] == b && "" + with + b == with + b;
    } else {
      assert whole[1..] == a[1..] + [c] + b && whole[0] == a[0];
      ReplaceAt(a[1..], c, b, with);
      assert [a[0]] + (a[1..] + with + b) == a + with + b;
    }
  }

  /** The characters `\s` and `trim` treat as white space. */
  predicate IsSpace(c: char)
  {
    var code := c as int;
    || 9 <= code <= 13 || code == 0x20 || code == 0xA0 || code == 0x1680
    || 0x2000 <= code <= 0x200A || code == 0x2028 || code == 0x2029
    || code == 0x202F || code == 0x205F || code == 0x3000 || code == 0xFEFF
  }

  function DropSpaces(s: string): (rest: string)
    ensures |rest| <= |s|
    ensures s != "" && IsSpace(s[0]) ==> |rest| < |s|
  {
    if s != "" && IsSpace(s[0]) then DropSpaces(s[1..]) else s
  }

  function DropTrailingSpaces(s: string): string
  {
    if s != "" && IsSpace(s[|s| - 1]) then DropTrailingSpaces(s[..|s| - 1]) else s
  }

  function Trim(s: string): string
  {
    DropTrailingSpaces(DropSpaces(s))
  }

  // ----- sanitizeKeyName

  predicate IsDigit(c: char) { '0' <= c <= '9' }

  predicate IsKeyChar(c: char)
  {
    || 'a' <= c <= 'z' || 'A' <= c <= 'Z' || IsDigit(c)
    || c == '_' || c == '-' || c == '.' || c == ';' || c == '='
  }

  ghost predicate IsKey(s: string)
  {
    forall c <- s :: IsKeyChar(c)
  }

  function CollapseSpaces(s: string): string
    decreases |s|
  {
    if s == "" then ""
    else if IsSpace(s[0]) then "_" + CollapseSpaces(DropSpaces(s))
    else [s[0]] + CollapseSpaces(s[1..])
  }

  function SlashToDash(s: string): string
  {
    if s == "" then "" else [if s[0] == '/' then '-' else s[0]] + SlashToDash(s[1..])
  }

  function KeepKeyChars(s: string): string
  {
    if s == "" then ""
    else if IsKeyChar(s[0]) then [s[0]] + KeepKeyChars(s[1..])
    else KeepKeyChars(s[1..])
  }

  /** Each run of white space becomes `_`, `/` becomes `-`, anything unsafe is dropped. */
  function Sanitize(key: string): string
  {
    KeepKeyChars(SlashToDash(CollapseSpaces(key)))
  }

  lemma {:induction false} KeepKeyCharsIsKey(s: string)
    ensures IsKey(KeepKeyChars(s))
  {
    if s != "" {
      KeepKeyCharsIsKey(s[1..]);
    }
  }

  lemma {:induction false} KeysAreFixed(s: string)
    requires IsKey(s)
    ensures CollapseSpaces(s) == s && SlashToDash(s) == s && KeepKeyChars(s) == s
    decreases |s|
  {
    if s != "" {
      assert IsKeyChar(s[0]);
      KeysAreFixed(s[1..]);
      assert [s[0]] + s[1..] == s;
    }
  }

  /** Exactly the strings of key characters are left alone by the sanitiser. */
  lemma SanitizeFixes(s: string)
    ensures IsKey(Sanitize(s))
    ensures Sanitize(s) == s <==> IsKey(s)
  {
    KeepKeyCharsIsKey(SlashToDash(CollapseSpaces(s)));
    if IsKey(s) {
      KeysAreFixed(s);
    }
  }

  lemma SanitizeIdempotent(s: string)
    ensures Sanitize(Sanitize(s)) == Sanitize(s)
  {
    SanitizeFixes(s);
    SanitizeFixes(Sanitize(s));
  }

  // ----- what sanitising does to each part of a key

  ghost predicate AreSpaces(s: string)
  {
    forall i :: 0 <= i < |s| ==> IsSpace(s[i])
  }

  lemma {:induction false} DropLeadingSpaces(spaces: string, rest: string)
    requires AreSpaces(spaces) && (rest == "" || !IsSpace(rest[0]))
    ensures DropSpaces(spaces + rest) == rest
    decreases |spaces|
  {
    if spaces == "" {
      assert spaces + rest == rest;
    } else {
      DropLeadingSpaces(spaces[1..], rest);
      assert (spaces + rest)[1..] == spaces[1..] + rest && (spaces + rest)[0] == spaces[0];
    }
  }

  lemma {:induction false} DropSpacesBefore(s: string, rest: string)
    requires rest != "" && !IsSpace(rest[0])
    ensures DropSpaces(s + rest) == DropSpaces(s) + rest
    decreases |s|
  {
    if s == "" {
      assert s + rest == rest;
    } else {
      assert (s + rest)[1..] == s[1..] + rest && (s + rest)[0] == s[0];
      DropSpacesBefore(s[1..], rest);
    }
  }

  /** Runs of white space on the two sides of another character are separate. */
  lemma {:induction false} CollapseAt(a: string, rest: string)
    requires rest != "" && !IsSpace(rest[0])
    ensures CollapseSpaces(a + rest) == CollapseSpaces(a) + CollapseSpaces(rest)
    decreases |a|
  {
    var all := a + rest;
    if a == "" {
      assert all == rest;
      assert CollapseSpaces(a) + CollapseSpaces(rest) == CollapseSpaces(rest);
    } else if IsSpace(a[0]) {
      assert all[0] == a[0];
      DropSpacesBefore(a, rest);
      CollapseAt(DropSpaces(a), rest);
      Associative("_", CollapseSpaces(DropSpaces(a)), CollapseSpaces(rest));
    } else {
      assert all[1..] == a[1..] + rest && all[0] == a[0];
      CollapseAt(a[1..], rest);
      Associative([a[0]], CollapseSpaces(a[1..]), CollapseSpaces(rest));
    }
  }

  lemma {:induction false} DashConcat(a: string, b: string)
    ensures SlashToDash(a + b) == SlashToDash(a) + SlashToDash(b)
    decreases |a|
  {
    if a == "" {
      assert a + b == b;
    } else {
      assert (a + b)[1..] == a[1..] + b && (a + b)[0] == a[0];
      DashConcat(a[1..], b);
      Associative([if a[0] == '/' then '-' else a[0]], SlashToDash(a[1..]), SlashToDash(b));
    }
  }

  lemma {:induction false} KeepConcat(a: string, b: string)
    ensures KeepKeyChars(a + b) == KeepKeyChars(a) + KeepKeyChars(b)
    decreases |a|
  {
    if a == "" {
      assert a + b == b;
    } else {
      hide IsKeyChar;
      assert (a + b)[1..] == a[1..] + b && (a + b)[0] == a[0];
      KeepConcat(a[1..], b);
      Associative([a[0]], KeepKeyChars(a[1..]), KeepKeyChars(b));
    }
  }

  lemma FilteredConcat(a: string, b: string)
    ensures KeepKeyChars(SlashToDash(a + b)) == KeepKeyChars(SlashToDash(a)) + KeepKeyChars(SlashToDash(b))
  {
    DashConcat(a, b);
    KeepConcat(SlashToDash(a), SlashToDash(b));
  }

  /** What becomes of one character that is not white space. */
  function Sanitized(c: char): string
  {
    if c == '/' then "-" else if IsKeyChar(c) then [c] else ""
  }

  lemma FilteredChar(c: char)
    ensures KeepKeyChars(SlashToDash([c])) == Sanitized(c)
  {
    assert [c][1..] == "";
  }

  lemma CollapseStep(c: char, b: string)
    requires !IsSpace(c)
    ensures CollapseSpaces([c] + b) == [c] + CollapseSpaces(b)
  {
    assert ([c] + b)[1..] == b;
  }

  /** A `/` becomes `-`, a key character stays and any other character goes, wherever it stands. */
  lemma SanitizeChar(a: string, c: char, b: string)
    requires !IsSpace(c)
    ensures Sanitize(a + [c] + b) == Sanitize(a) + Sanitized(c) + Sanitize(b)
  {
    hide CollapseSpaces, SlashToDash, KeepKeyChars, IsSpace, Sanitized;
    assert a + [c] + b == a + ([c] + b);
    CollapseAt(a, [c] + b);
    CollapseStep(c, b);
    FilteredConcat(CollapseSpaces(a), [c] + CollapseSpaces(b));
    FilteredConcat([c], CollapseSpaces(b));
    FilteredChar(c);
  }

  lemma CollapseRun(spaces: string, b: string)
    requires spaces != "" && AreSpaces(spaces) && (b == "" || !IsSpace(b[0]))
    ensures CollapseSpaces(spaces + b) == "_" + CollapseSpaces(b)
  {
    DropLeadingSpaces(spaces, b);
  }

  /** Nothing runs over a character that is not white space. */
  lemma CollapseAfter(a: string, rest: string)
    requires a != "" && !IsSpace(a[|a| - 1])
    ensures CollapseSpaces(a + rest) == CollapseSpaces(a) + CollapseSpaces(rest)
  {
    hide CollapseSpaces, IsSpace;
    var init, c := a[..|a| - 1], a[|a| - 1];
    assert a == init + [c];
    assert a + rest == init + ([c] + rest);
    CollapseAt(init, [c] + rest);
    CollapseStep(c, rest);
    CollapseAt(init, [c]);
    CollapseStep(c, "");
    CollapseEmpty();
    assert [c] + "" == [c];
    Associative(CollapseSpaces(init), [c], CollapseSpaces(rest));
  }

  lemma CollapseBeforeRun(a: string, spaces: string, b: string)
    requires a == "" || !IsSpace(a[|a| - 1])
    requires spaces != "" && AreSpaces(spaces) && (b == "" || !IsSpace(b[0]))
    ensures CollapseSpaces(a + spaces + b) == CollapseSpaces(a) + ("_" + CollapseSpaces(b))
  {
    hide CollapseSpaces, IsSpace;
    assert a + spaces + b == a + (spaces + b);
    CollapseRun(spaces, b);
    if a == "" {
      CollapseEmpty();
      assert a + (spaces + b) == spaces + b;
    } else {
      CollapseAfter(a, spaces + b);
    }
  }

  lemma CollapseEmpty()
    ensures CollapseSpaces("") == ""
  {
  }

  /** A whole run of white space becomes one `_`. */
  lemma SanitizeRun(a: string, spaces: string, b: string)
    requires a == "" || !IsSpace(a[|a| - 1])
    requires spaces != "" && AreSpaces(spaces) && (b == "" || !IsSpace(b[0]))
    ensures Sanitize(a + spaces + b) == Sanitize(a) + "_" + Sanitize(b)
  {
    hide CollapseSpaces, SlashToDash, KeepKeyChars, IsSpace;
    CollapseBeforeRun(a, spaces, b);
    FilteredConcat(CollapseSpaces(a), "_" + CollapseSpaces(b));
    FilteredConcat("_", CollapseSpaces(b));
    FilteredChar('_');
  }

  lemma LowerCase(c: char)
    ensures 'a' <= c <= 'z' <==> c in "abcdefghijklmnopqrstuvwxyz"
  {
    var all := "abcdefghijklmnopqrstuvwxyz";
    if 'a' <= c <= 'z' {
      assert all[c as int - 97] == c;
    }
  }

  lemma UpperCase(c: char)
    ensures 'A' <= c <= 'Z' <==> c in "ABCDEFGHIJKLMNOPQRSTUVWXYZ"
  {
    var all := "ABCDEFGHIJKLMNOPQRSTUVWXYZ";
    if 'A' <= c <= 'Z' {
      assert all[c as int - 65] == c;
    }
  }

  /** The characters a key may hold. */
  lemma KeyChars(c: char)
    ensures IsKeyChar(c) <==>
              || c in "abcdefghijklmnopqrstuvwxyz" || c in "ABCDEFGHIJKLMNOPQRSTUVWXYZ"
              || c in ['0', '1', '2', '3', '4', '5', '6', '7', '8', '9'] || c in ['_', '-', '.', ';', '=']
  {
    LowerCase(c);
    UpperCase(c);
  }

  /** The white space of ECMAScript: tab, line ends, blanks of every width and the byte order mark.
      No character of a key is among them. */
  lemma Spaces(c: char)
    ensures IsSpace(c) <==>
              || c in ['\t', '\n', '\U{B}', '\U{C}', '\r', ' ', '\U{A0}', '\U{1680}', '\U{2028}', '\U{2029}']
              || c in ['\U{2000}', '\U{2001}', '\U{2002}', '\U{2003}', '\U{2004}', '\U{2005}', '\U{2006}']
              || c in ['\U{2007}', '\U{2008}', '\U{2009}', '\U{200A}', '\U{202F}', '\U{205F}', '\U{3000}']
              || c == '\U{FEFF}'
    ensures IsSpace(c) ==> !IsKeyChar(c) && c != '/'
  {
  }

  // ----- trimming and splitting undone

  lemma {:induction false} DropTrailing(s: string, spaces: string)
    requires AreSpaces(spaces) && (s == "" || !IsSpace(s[|s| - 1]))
    ensures DropTrailingSpaces(s + spaces) == s
    decreases |spaces|
  {
    if spaces == "" {
      assert s + spaces == s;
    } else {
      var m := |spaces| - 1;
      assert (s + spaces)[..|s + spaces| - 1] == s + spaces[..m];
      DropTrailing(s, spaces[..m]);
    }
  }

  /** `trim` takes the white space off both ends and nothing else. */
  lemma TrimTakesEnds(before: string, s: string, after: string)
    requires AreSpaces(before) && AreSpaces(after)
    requires s != "" && !IsSpace(s[0]) && !IsSpace(s[|s| - 1])
    ensures Trim(before + s + after) == s
  {
    assert before + s + after == before + (s + after);
    DropLeadingSpaces(before, s + after);
    DropTrailing(s, after);
  }

  /** Parts that do not hold the separator survive joining and splitting. */
  lemma {:induction false} SplitJoin(parts: seq<string>, c: char)
    requires parts != [] && forall i :: 0 <= i < |parts| ==> c !in parts[i]
    ensures Split(Join(parts, [c]), [c]) == parts
    decreases |parts|
  {
    SplitWithoutSeparator(parts[0], c);
    if |parts| > 1 {
      SplitJoin(parts[1..], c);
      SplitAtSeparator(parts[0], c, Join(parts[1..], [c]));
      assert parts == [parts[0]] + parts[1..];
    }
  }

  /** The first tag mark cuts a line. */
  lemma {:induction false} SplitAtMark(a: string, b: string)
    requires '#' !in a
    ensures Split(a + "|#" + b, "|#") == [a] + Split(b, "|#")
    decreases |a|
  {
    var all := a + "|#" + b;
    if a == "" {
      assert all[..2] == "|#" && all[2..] == b;
    } else {
      SplitAtMark(a[1..], b);
      assert all[1..] == a[1..] + "|#" + b && all[0] == a[0];
      assert all[1] != '#' && all[..2][1] == all[1];
      ExtendFirstConcat(a[0], [a[1..]], Split(b, "|#"));
      assert [a[0]] + a[1..] == a;
    }
  }

  lemma {:induction false} JoinHolds(parts: seq<string>, sep: string, c: char)
    requires c !in sep && forall i :: 0 <= i < |parts| ==> c !in parts[i]
    ensures c !in Join(parts, sep)
    decreases |parts|
  {
    if |parts| > 1 {
      JoinHolds(parts[1..], sep, c);
    }
  }

  /** The word stands somewhere in the string. */
  ghost predicate HoldsWord(s: string, word: string)
  {
    exists before, after :: s == before + word + after
  }

  lemma ContainsIff(s: string, word: string)
    ensures Contains(s, word) <==> HoldsWord(s, word)
  {
    if Contains(s, word) {
      var i :| 0 <= i <= |s| && StartsWith(s[i..], word);
      assert s == s[..i] + word + s[i + |word|..];
    }
    if HoldsWord(s, word) {
      var before, after :| s == before + word + after;
      assert s[|before|..] == word + after;
      assert StartsWith(s[|before|..], word);
    }
  }
}
