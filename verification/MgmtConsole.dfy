/** The deletion commands of the management console. */
module MgmtConsole {
  import opened JsStrings
  import opened Aggregator

  /** The stored names that a bucket asks for. A name can be listed twice, never wrongly. */
  method ExistingStats<V>(stats: map<string, V>, bucket: string) returns (matches: seq<string>)
    ensures forall name :: name in matches <==> name in stats && Matches(bucket, name)
  {
    matches := [];
    if bucket in stats {
      matches := matches + [bucket];
    }
    if EndsWith(bucket, ".*") {
      var folder := bucket[..|bucket| - 1];
      var todo := stats.Keys;
      while todo != {}
        invariant todo <= stats.Keys
        invariant forall name :: name in matches <==>
          name in stats && (name == bucket || (name !in todo && StartsWith(name, folder)))
      {
        var name :| name in todo;
        todo := todo - {name};
        if StartsWith(name, folder) {
          matches := matches + [name];
        }
      }
    }
  }

  method DeleteStats<V>(stats: map<string, V>, cmdline: seq<string>) returns (left: map<string, V>)
    ensures left == Without(stats, cmdline)
  {
    left := stats;
    for index := 0 to |cmdline|
      invariant left == Without(stats, cmdline[..index])
    {
      var deletable := ExistingStats(left, cmdline[index]);
      ghost var before := left;
      for d := 0 to |deletable|
        invariant left == before - (set x | x in deletable[..d])
      {
        left := left - {deletable[d]};
        assert deletable[..d + 1] == deletable[..d] + [deletable[d]];
      }
      assert deletable[..|deletable|] == deletable;
      DeleteOneMore(stats, cmdline, index, deletable);
    }
    assert cmdline[..|cmdline|] == cmdline;
  }

  lemma DeleteOneMore<V>(stats: map<string, V>, cmdline: seq<string>, i: nat, deletable: seq<string>)
    requires i < |cmdline|
    requires forall name :: name in deletable <==>
               name in Without(stats, cmdline[..i]) && Matches(cmdline[i], name)
    ensures Without(stats, cmdline[..i]) - (set x | x in deletable) == Without(stats, cmdline[..i + 1])
  {
    assert cmdline[..i + 1] == cmdline[..i] + [cmdline[i]];
    forall k
      ensures MatchesAny(cmdline[..i + 1], k) <==> MatchesAny(cmdline[..i], k) || Matches(cmdline[i], k)
    {
    }
  }
}
