/** Graphite paths: the formatting of keys, and why a counter's path identifies it. */
module Naming {
  import opened JsStrings
  import Pickle

  /** The backend's settings after `init`. The suffix is empty or starts with a dot. */
  datatype Paths = Paths(
    legacy: bool,
    counters: seq<string>,
    timers: seq<string>,
    gauges: seq<string>,
    sets: seq<string>,
    suffix: string,
    sanitizedGlobally: bool)

  function Pushed(first: string, second: string): seq<string>
  {
    (if first != "" then [first] else []) + (if second != "" then [second] else [])
  }

  /** `init` with the configured prefixes; the legacy mode ignores them. */
  function InitPaths(legacy: bool, global: string, counter: string, timer: string, gauge: string, sets: string,
                     suffix: Option<string>, sanitizedGlobally: bool): Paths
  {
    var s := if suffix.Some? then "." + suffix.value else "";
    if legacy then
      Paths(true, ["stats"], ["stats", "timers"], ["stats", "gauges"], ["stats", "sets"], s, sanitizedGlobally)
    else
      Paths(false, Pushed(global, counter), Pushed(global, timer), Pushed(global, gauge), Pushed(global, sets),
            s, sanitizedGlobally)
  }

  /** `sk`: sanitises when the daemon has not. */
  function Sk(p: Paths, name: string): string
  {
    if p.sanitizedGlobally then name else Sanitize(name)
  }

  function NameOf(key: string): string
  {
    Split(key, ";")[0]
  }

  function TagsOf(key: string): string
  {
    var parts := Split(key, ";");
    if |parts| > 1 then ";" + Join(parts[1..], ";") else ""
  }

  function Format(p: Paths, namespace: seq<string>, key: string, args: seq<string>): string
  {
    Join(namespace + [Sk(p, NameOf(key))] + args, ".") + p.suffix + TagsOf(key)
  }

  datatype Kind = Rate | Total

  /** The path of a counter's rate or total. */
  function CounterPath(p: Paths, key: string, kind: Kind): string
  {
    if p.legacy then
      Format(p, if kind.Rate? then p.counters else ["stats_counts"], key, [])
    else Format(p, p.counters, key, [if kind.Rate? then "rate" else "count"])
  }

  // ----- parts of a key and of a path

  /** A key is its name followed by its tags, and the name holds no semicolon. */
  lemma KeyParts(key: string)
    ensures NameOf(key) + TagsOf(key) == key
    ensures ';' !in NameOf(key)
    ensures TagsOf(key) == "" || TagsOf(key)[0] == ';'
  {
    var parts := Split(key, ";");
    JoinSplit(key, ";");
    SplitHasNoSeparator(key, ';');
    assert parts[0] in parts;
    if |parts| > 1 {
      assert Join(parts, ";") == parts[0] + ";" + Join(parts[1..], ";");
      Associative(parts[0], ";", Join(parts[1..], ";"));
    } else {
      assert parts[0] + "" == parts[0];
    }
  }

  /** The text before the first semicolon of a path. */
  lemma HeadOfPath(head: string, tags: string)
    requires ';' !in head && (tags == "" || tags[0] == ';')
    ensures Split(head + tags, ";")[0] == head
  {
    SplitWithoutSeparator(head, ';');
    if tags == "" {
      assert head + tags == head;
    } else {
      assert head + tags == head + ";" + tags[1..];
      SplitAtSeparator(head, ';', tags[1..]);
    }
  }

  function PrefixOf(namespace: seq<string>): string
  {
    if namespace == [] then "" else namespace[0] + "." + PrefixOf(namespace[1..])
  }

  lemma {:induction false} JoinWithPrefix(namespace: seq<string>, rest: seq<string>)
    requires rest != []
    ensures Join(namespace + rest, ".") == PrefixOf(namespace) + Join(rest, ".")
  {
    if namespace == [] {
      assert namespace + rest == rest;
      assert "" + Join(rest, ".") == Join(rest, ".");
    } else {
      JoinWithPrefix(namespace[1..], rest);
      JoinHead(namespace, rest);
      hide Join;
      assert namespace[0] + "." + (PrefixOf(namespace[1..]) + Join(rest, ".")) == PrefixOf(namespace) + Join(rest, ".");
    }
  }

  lemma JoinHead(namespace: seq<string>, rest: seq<string>)
    requires namespace != [] && rest != []
    ensures Join(namespace + rest, ".") == namespace[0] + "." + Join(namespace[1..] + rest, ".")
  {
    var all := namespace + rest;
    assert all[1..] == namespace[1..] + rest && all[0] == namespace[0];
  }

  predicate HasNoSemicolon(namespace: seq<string>)
  {
    forall i :: 0 <= i < |namespace| ==> ';' !in namespace[i]
  }

  lemma {:induction false} PrefixHasNoSemicolon(namespace: seq<string>)
    requires HasNoSemicolon(namespace)
    ensures ';' !in PrefixOf(namespace)
  {
    if namespace != [] {
      PrefixHasNoSemicolon(namespace[1..]);
    }
  }

  /** What stands before and after the name in a counter's path. */
  function Before(p: Paths, kind: Kind): string
  {
    PrefixOf(if p.legacy && kind.Total? then ["stats_counts"] else p.counters)
  }

  function After(p: Paths, kind: Kind): string
  {
    (if p.legacy then "" else if kind.Rate? then ".rate" else ".count") + p.suffix
  }

  /** Sanitised keys pass through `sk` unchanged. */
  predicate IsSettled(p: Paths, key: string)
  {
    p.sanitizedGlobally || Sanitize(NameOf(key)) == NameOf(key)
  }

  /** What a path holds between the name and the suffix. */
  function Tail(args: seq<string>): string
  {
    if args == [] then "" else "." + Join(args, ".")
  }

  lemma FormatShape(p: Paths, namespace: seq<string>, key: string, args: seq<string>)
    ensures Format(p, namespace, key, args)
         == (PrefixOf(namespace) + Sk(p, NameOf(key)) + (Tail(args) + p.suffix)) + TagsOf(key)
  {
    hide Split, Join, PrefixOf, NameOf, TagsOf, Tail, Sk;
    var name, tail := Sk(p, NameOf(key)), Tail(args);
    assert namespace + [name] + args == namespace + ([name] + args);
    JoinWithPrefix(namespace, [name] + args);
    JoinNameAndArgs(name, args);
    assert PrefixOf(namespace) + (name + tail) + p.suffix == PrefixOf(namespace) + name + (tail + p.suffix);
  }

  lemma PathShape(p: Paths, key: string, kind: Kind)
    requires IsSettled(p, key)
    ensures CounterPath(p, key, kind) == (Before(p, kind) + NameOf(key) + After(p, kind)) + TagsOf(key)
  {
    hide Split, Join, PrefixOf, Format, NameOf, TagsOf;
    FormatShape(p, if p.legacy && kind.Total? then ["stats_counts"] else p.counters, key,
                if p.legacy then [] else [if kind.Rate? then "rate" else "count"]);
    KindTails();
  }

  lemma KindTails()
    ensures Tail([]) == "" && Tail(["rate"]) == ".rate" && Tail(["count"]) == ".count"
  {
    assert Join(["rate"], ".") == "rate" && Join(["count"], ".") == "count";
    assert "." + "rate" == ".rate" && "." + "count" == ".count";
  }

  lemma JoinNameAndArgs(name: string, args: seq<string>)
    ensures Join([name] + args, ".") == name + Tail(args)
  {
    if args == [] {
      assert [name] + args == [name];
      assert name + "" == name;
    } else {
      assert ([name] + args)[1..] == args;
      assert name + "." + Join(args, ".") == name + ("." + Join(args, "."));
    }
  }

  // ----- paths in full

  function OrNone(prefix: string): string
  {
    if prefix == "" then "" else prefix + "."
  }

  lemma PushedPrefix(first: string, second: string)
    ensures PrefixOf(Pushed(first, second)) == OrNone(first) + OrNone(second)
  {
    var f, s := if first != "" then [first] else [], if second != "" then [second] else [];
    assert PrefixOf([]) == "";
    if first != "" {
      assert ([first] + s)[1..] == s && ([first] + s)[0] == first;
    }
    if second != "" {
      assert [second][1..] == [] && PrefixOf([second]) == second + ".";
    }
    if first == "" {
      assert Pushed(first, second) == s && "" + OrNone(second) == OrNone(second);
    } else {
      assert Pushed(first, second) == [first] + s;
      assert first + "." + PrefixOf(s) == OrNone(first) + OrNone(second);
    }
  }

  /** A counter's path from the configuration: the configured prefixes, the name, `rate` or `count`,
      the suffix and the tags; in legacy mode `stats` or `stats_counts`, the name, the suffix and the
      tags. The name is sanitised here unless the daemon has done it. */
  lemma CounterPathText(legacy: bool, global: string, counter: string, timer: string, gauge: string,
                        sets: string, suffix: Option<string>, sanitizedGlobally: bool, key: string)
    ensures var p := InitPaths(legacy, global, counter, timer, gauge, sets, suffix, sanitizedGlobally);
      var name := if sanitizedGlobally then NameOf(key) else Sanitize(NameOf(key));
      var tail := if suffix.Some? then "." + suffix.value else "";
      if legacy then
        && CounterPath(p, key, Rate) == ("stats." + name + tail) + TagsOf(key)
        && CounterPath(p, key, Total) == ("stats_counts." + name + tail) + TagsOf(key)
      else
        var prefix := OrNone(global) + OrNone(counter);
        && CounterPath(p, key, Rate) == (prefix + name + (".rate" + tail)) + TagsOf(key)
        && CounterPath(p, key, Total) == (prefix + name + (".count" + tail)) + TagsOf(key)
  {
    hide Split, Join, Format, NameOf, TagsOf, Sanitize, PrefixOf, OrNone, Pushed, Tail;
    var p := InitPaths(legacy, global, counter, timer, gauge, sets, suffix, sanitizedGlobally);
    PushedPrefix(global, counter);
    LegacyPrefixes("");
    KindTails();
    FormatShape(p, p.counters, key, []);
    FormatShape(p, ["stats_counts"], key, []);
    FormatShape(p, p.counters, key, ["rate"]);
    FormatShape(p, p.counters, key, ["count"]);
    var tail := if suffix.Some? then "." + suffix.value else "";
    assert "" + tail == tail;
  }

  /** The namespaces of the other types, from the configuration. */
  lemma OtherNamespaces(global: string, counter: string, timer: string, gauge: string, sets: string,
                        suffix: Option<string>, sanitizedGlobally: bool)
    ensures var p := InitPaths(false, global, counter, timer, gauge, sets, suffix, sanitizedGlobally);
      && PrefixOf(p.timers) == OrNone(global) + OrNone(timer)
      && PrefixOf(p.gauges) == OrNone(global) + OrNone(gauge)
      && PrefixOf(p.sets) == OrNone(global) + OrNone(sets)
  {
    PushedPrefix(global, timer);
    PushedPrefix(global, gauge);
    PushedPrefix(global, sets);
  }

  // ----- recovery

  /** Settings under which paths are unambiguous: `;`-free prefixes and suffix, and the legacy
      namespace as `init` sets it. */
  predicate IsUnambiguous(p: Paths)
  {
    HasNoSemicolon(p.counters) && ';' !in p.suffix && (p.legacy ==> p.counters == ["stats"])
  }

  /** Reads the kind off a path's head: by its prefix in legacy mode, by its last word otherwise. */
  function KindOf(p: Paths, head: string): Kind
  {
    if p.legacy then if |head| > 5 && head[5] == '.' then Rate else Total
    else if EndsWith(head, ".rate" + p.suffix) then Rate else Total
  }

  /** The key and kind of a path. */
  function Recover(p: Paths, path: string): (string, Kind)
  {
    var head := Split(path, ";")[0];
    var kind := KindOf(p, head);
    var from, to := |Before(p, kind)|, |head| - |After(p, kind)|;
    if 0 <= from <= to <= |head| && |head| <= |path| then (head[from..to] + path[|head|..], kind)
    else ("", kind)
  }

  lemma KindIsRecovered(p: Paths, name: string, kind: Kind)
    requires IsUnambiguous(p)
    ensures KindOf(p, Before(p, kind) + name + After(p, kind)) == kind
  {
    var head := Before(p, kind) + name + After(p, kind);
    if p.legacy {
      assert PrefixOf(["stats"]) == "stats" + "." + PrefixOf([]);
      assert PrefixOf(["stats_counts"]) == "stats_counts" + "." + PrefixOf([]);
    } else {
      var n, s := |head|, |p.suffix|;
      var rate := ".rate" + p.suffix;
      if kind.Rate? {
        assert head[n - |rate|..] == rate;
      } else {
        assert After(p, kind) == ".count" + p.suffix;
        assert head[n - s - 1] == 't' && rate[|rate| - s - 1] == 'e';
      }
    }
  }

  /** Name, tags and kind can be read back from a counter's path in both namespace modes. */
  lemma PathRoundTrip(p: Paths, key: string, kind: Kind)
    requires IsUnambiguous(p) && IsSettled(p, key)
    ensures Recover(p, CounterPath(p, key, kind)) == (key, kind)
  {
    hide Split, NameOf, TagsOf, CounterPath;
    var b, a := Before(p, kind), After(p, kind);
    var name, tags := NameOf(key), TagsOf(key);
    var head := b + name + a;
    KeyParts(key);
    PathShape(p, key, kind);
    PrefixHasNoSemicolon(p.counters);
    PrefixHasNoSemicolon(["stats_counts"]);
    HeadOfPath(head, tags);
    KindIsRecovered(p, name, kind);
    assert head[|b|..|head| - |a|] == name;
    assert (head + tags)[|head|..] == tags;
  }

  /** Within a flush, different counters or kinds never share a path. */
  lemma PathsAreDistinct(p: Paths, key1: string, kind1: Kind, key2: string, kind2: Kind)
    requires IsUnambiguous(p) && IsSettled(p, key1) && IsSettled(p, key2)
    requires CounterPath(p, key1, kind1) == CounterPath(p, key2, kind2)
    ensures key1 == key2 && kind1 == kind2
  {
    PathRoundTrip(p, key1, kind1);
    PathRoundTrip(p, key2, kind2);
  }

  /** The legacy namespaces as `init` sets them. */
  predicate IsLegacy(p: Paths)
  {
    && p.legacy && p.counters == ["stats"] && ';' !in p.suffix
    && p.timers == ["stats", "timers"] && p.gauges == ["stats", "gauges"] && p.sets == ["stats", "sets"]
  }

  /** What `init` sets up from prefixes and a suffix without semicolons is unambiguous, and in
      legacy mode it is the legacy namespace whatever the prefixes. */
  lemma InitIsUnambiguous(legacy: bool, global: string, counter: string, timer: string, gauge: string,
                          sets: string, suffix: Option<string>, sanitizedGlobally: bool)
    requires ';' !in global && ';' !in counter && (suffix.Some? ==> ';' !in suffix.value)
    ensures var p := InitPaths(legacy, global, counter, timer, gauge, sets, suffix, sanitizedGlobally);
      IsUnambiguous(p) && (legacy ==> IsLegacy(p))
  {
  }

  /** A key is determined by its name and tags, also behind a prefix without semicolons. */
  lemma PrefixedKey(prefix: string, x: string)
    requires ';' !in prefix
    ensures NameOf(prefix + x) == prefix + NameOf(x) && TagsOf(prefix + x) == TagsOf(x)
  {
    hide Split, Join;
    KeyParts(x);
    KeyParts(prefix + x);
    var key, name, tags := prefix + x, prefix + NameOf(x), TagsOf(x);
    assert key == name + tags;
    HeadOfPath(name, tags);
    assert NameOf(key) == name;
    assert key[|name|..] == tags && key[|name|..] == TagsOf(key);
  }

  /** The namespaces of the other metric types. */
  predicate IsOtherType(p: Paths, namespace: seq<string>)
  {
    namespace == p.timers || namespace == p.gauges || namespace == p.sets
  }

  lemma OtherPathShape(p: Paths, namespace: seq<string>, x: string, args: seq<string>)
    requires IsLegacy(p) && IsOtherType(p, namespace) && IsSettled(p, x)
    ensures |namespace| == 2 && ';' !in namespace[1]
    ensures Format(p, namespace, x, args)
         == ("stats." + (namespace[1] + "." + NameOf(x) + Tail(args)) + p.suffix) + TagsOf(x)
  {
    hide Split, Join, Format, NameOf, TagsOf, Tail;
    LegacyPrefixes(namespace[1]);
    FormatShape(p, namespace, x, args);
    assert namespace == ["stats", namespace[1]];
    var ns, name, tail := namespace[1], NameOf(x), Tail(args);
    assert ("stats." + ns + ".") + name + (tail + p.suffix) == "stats." + (ns + "." + name + tail) + p.suffix;
  }

  lemma LegacyCounterShape(p: Paths, key: string)
    requires IsLegacy(p) && IsSettled(p, key)
    ensures CounterPath(p, key, Rate) == ("stats." + NameOf(key) + p.suffix) + TagsOf(key)
    ensures CounterPath(p, key, Total) == ("stats_counts." + NameOf(key) + p.suffix) + TagsOf(key)
  {
    hide Split, Join, Format, NameOf, TagsOf, CounterPath;
    LegacyPrefixes("");
    PathShape(p, key, Rate);
    PathShape(p, key, Total);
    assert "" + p.suffix == p.suffix;
  }

  /** Two heads without semicolons with their tags: equal only when both parts are. */
  lemma SamePathParts(head1: string, tags1: string, head2: string, tags2: string)
    requires ';' !in head1 && (tags1 == "" || tags1[0] == ';')
    requires ';' !in head2 && (tags2 == "" || tags2[0] == ';')
    requires head1 + tags1 == head2 + tags2
    ensures head1 == head2 && tags1 == tags2
  {
    hide Split;
    HeadOfPath(head1, tags1);
    HeadOfPath(head2, tags2);
    assert (head1 + tags1)[|head1|..] == tags1 && (head2 + tags2)[|head2|..] == tags2;
  }

  lemma SameMiddle(a: string, x: string, y: string, suffix: string)
    requires a + x + suffix == a + y + suffix
    ensures x == y
  {
    var whole := a + x + suffix;
    assert whole[|a|..|whole| - |suffix|] == x;
    assert (a + y + suffix)[|a|..|whole| - |suffix|] == y;
  }

  lemma {:induction false} JoinHasNoSemicolon(args: seq<string>)
    requires HasNoSemicolon(args)
    ensures ';' !in Join(args, ".")
  {
    if |args| > 1 {
      JoinHasNoSemicolon(args[1..]);
    }
  }

  /** Across metric types the legacy mode does not separate paths: a counter's rate shares the
      path of a figure of timer, gauge or set x exactly when the counter's name spells the type,
      the name of x and the figure, and the tags are those of x. */
  lemma LegacyCollisionIff(p: Paths, key: string, namespace: seq<string>, x: string, args: seq<string>)
    requires IsLegacy(p) && IsOtherType(p, namespace) && IsSettled(p, key) && IsSettled(p, x)
    requires HasNoSemicolon(args)
    ensures |namespace| == 2
    ensures CounterPath(p, key, Rate) == Format(p, namespace, x, args) <==>
              NameOf(key) == namespace[1] + "." + NameOf(x) + Tail(args) && TagsOf(key) == TagsOf(x)
  {
    OtherPathShape(p, namespace, x, args);
    JoinHasNoSemicolon(args);
    hide Split, Join, Format, NameOf, TagsOf, CounterPath, PrefixOf;
    LegacyCounterShape(p, key);
    KeyParts(key);
    KeyParts(x);
    var spelt := namespace[1] + "." + NameOf(x) + Tail(args);
    assert ';' !in spelt;
    if CounterPath(p, key, Rate) == Format(p, namespace, x, args) {
      SamePathParts("stats." + NameOf(key) + p.suffix, TagsOf(key), "stats." + spelt + p.suffix, TagsOf(x));
      SameMiddle("stats.", NameOf(key), spelt, p.suffix);
    }
  }

  /** For a gauge, whose path ends with its name: exactly when the counter is called `gauges.x`. */
  lemma LegacyGaugeCollisionIff(p: Paths, key: string, x: string)
    requires IsLegacy(p) && IsSettled(p, key) && IsSettled(p, x)
    ensures CounterPath(p, key, Rate) == Format(p, p.gauges, x, []) <==> key == "gauges." + x
  {
    hide Split, Join, Format, NameOf, TagsOf, CounterPath;
    LegacyCollisionIff(p, key, p.gauges, x, []);
    KeyParts(key);
    KeyParts(x);
    PrefixedKey("gauges.", x);
    assert "gauges" + "." + NameOf(x) + "" == "gauges." + NameOf(x);
    assert NameOf(key) == "gauges." + NameOf(x) && TagsOf(key) == TagsOf(x) ==>
             key == "gauges." + NameOf(x) + TagsOf(x) == "gauges." + x;
  }

  /** The total of a counter never shares a path with another type. */
  lemma LegacyTotalsAreApart(p: Paths, key: string, namespace: seq<string>, x: string, args: seq<string>)
    requires IsLegacy(p) && IsOtherType(p, namespace) && IsSettled(p, key) && IsSettled(p, x)
    ensures CounterPath(p, key, Total) != Format(p, namespace, x, args)
  {
    hide Split, Join, Format, NameOf, TagsOf, CounterPath, Tail;
    LegacyCounterShape(p, key);
    OtherPathShape(p, namespace, x, args);
    assert CounterPath(p, key, Total)[5] == '_' && Format(p, namespace, x, args)[5] == '.';
  }

  /** Nor do timers, gauges and sets share paths among each other. */
  lemma LegacyTypesAreApart(p: Paths, ns1: seq<string>, x: string, args1: seq<string>,
                            ns2: seq<string>, y: string, args2: seq<string>)
    requires IsLegacy(p) && IsOtherType(p, ns1) && IsOtherType(p, ns2) && ns1 != ns2
    requires IsSettled(p, x) && IsSettled(p, y)
    ensures Format(p, ns1, x, args1) != Format(p, ns2, y, args2)
  {
    hide Split, Join, Format, NameOf, TagsOf, Tail;
    OtherPathShape(p, ns1, x, args1);
    OtherPathShape(p, ns2, y, args2);
    assert Format(p, ns1, x, args1)[6] == ns1[1][0] && Format(p, ns2, y, args2)[6] == ns2[1][0];
  }

  lemma LegacyPrefixes(second: string)
    ensures PrefixOf(["stats"]) == "stats." && PrefixOf(["stats_counts"]) == "stats_counts."
    ensures PrefixOf(["stats", second]) == "stats." + second + "."
  {
    assert ["stats"][1..] == [] && ["stats_counts"][1..] == [] && [second][1..] == [];
    assert ["stats", second][1..] == [second];
    assert PrefixOf([]) == "";
    assert PrefixOf([second]) == second + ".";
  }

  // ----- safety for the serialisers

  ghost predicate AreKeys(namespace: seq<string>)
  {
    forall i :: 0 <= i < |namespace| ==> IsKey(namespace[i])
  }

  lemma {:induction false} PrefixIsKey(namespace: seq<string>)
    requires AreKeys(namespace)
    ensures IsKey(PrefixOf(namespace))
  {
    if namespace != [] {
      PrefixIsKey(namespace[1..]);
      assert IsKey(namespace[0]);
    }
  }

  /** Settings and key made of key characters give a path of key characters, which every
      serialiser takes verbatim. */
  lemma PathIsSafe(p: Paths, key: string, kind: Kind)
    requires AreKeys(p.counters) && IsKey(p.suffix) && IsKey(key)
    ensures var path := CounterPath(p, key, kind);
      && IsKey(path)
      && Pickle.IsVerbatim(path) && Pickle.IsAscii(path)
      && ' ' !in path
  {
    hide Split, NameOf, TagsOf, CounterPath;
    KeyParts(key);
    PartsAreKeys(NameOf(key), TagsOf(key), key);
    SanitizeFixes(NameOf(key));
    PathShape(p, key, kind);
    PrefixIsKey(p.counters);
    PrefixIsKey(["stats_counts"]);
    KeyIsSafe(CounterPath(p, key, kind));
  }

  lemma PartsAreKeys(a: string, b: string, key: string)
    requires a + b == key && IsKey(key)
    ensures IsKey(a) && IsKey(b)
  {
    assert forall c <- a :: c in key;
    assert forall c <- b :: c in key;
  }

  lemma KeyIsSafe(s: string)
    requires IsKey(s)
    ensures Pickle.IsVerbatim(s) && Pickle.IsAscii(s) && ' ' !in s
  {
    assert forall i :: 0 <= i < |s| ==> IsKeyChar(s[i]);
  }

  /** With global sanitising off `sk` treats the name alone: tags reach the path as they came. */
  lemma TagsAreVerbatim(p: Paths, kind: Kind)
    requires IsUnambiguous(p)
    ensures !Pickle.IsAscii(CounterPath(p, "a;t=\U{E9}", kind))
  {
    var name, tags := "a", ";t=\U{E9}";
    assert name + tags == "a;t=\U{E9}";
    HeadOfPath(name, tags);
    KeyParts(name + tags);
    assert TagsOf(name + tags) == (name + tags)[1..] == tags;
    SanitizeFixes(name);
    hide Split, Join, NameOf, TagsOf, CounterPath, Sanitize;
    PathShape(p, name + tags, kind);
    var path := CounterPath(p, name + tags, kind);
    assert path[|path| - 1] == '\U{E9}';
  }

  /** A sanitised key is safe, and graphite's own sanitising leaves its name alone. */
  lemma SanitizedKeyIsSafe(p: Paths, raw: string)
    ensures var key := Sanitize(raw);
      && Pickle.IsVerbatim(key) && Pickle.IsAscii(key) && ' ' !in key
      && Sk(p, NameOf(key)) == NameOf(key)
  {
    var key := Sanitize(raw);
    SanitizeFixes(raw);
    KeyIsSafe(key);
    KeyParts(key);
    PartsAreKeys(NameOf(key), TagsOf(key), key);
    SanitizeFixes(NameOf(key));
  }
}
