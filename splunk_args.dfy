/**
 * The argument handling of net.hydromatic.optiq.impl.splunk.search.SplunkConnection:
 * parseArgs, which reads command-line style (-name, value) pairs into a map, and the
 * construction of the arguments of a search request, an insertion-ordered map
 * (java.util.LinkedHashMap) modelled as a sequence of entries.
 */
module SplunkArgs {
  import opened Options

  // ---------------------------------------------------------------------------
  // parseArgs
  // ---------------------------------------------------------------------------

  /** A result of parseArgs: the caller's map as the call leaves it and, when it threw
      IllegalArgumentException, that exception's message. */
  datatype ArgsOutcome = ArgsOutcome(entries: map<string, string>, error: Option<string>)

  /** argName.startsWith("-") */
  predicate IsArgName(a: string)
  {
    |a| > 0 && a[0] == '-'
  }

  /** Position i of args holds an argument name: names sit at the even positions. */
  predicate NameAt(args: seq<string>, i: int)
  {
    0 <= i < |args| && i % 2 == 0
  }

  /** The name at i is a valid name for key k. */
  predicate NamesKey(args: seq<string>, i: int, k: string)
  {
    NameAt(args, i) && IsArgName(args[i]) && args[i][1..] == k
  }

  /** The value paired with the name at i: the next argument, or "" after the last one. */
  function ValueAt(args: seq<string>, i: int): string
  {
    if 0 <= i && i + 1 < |args| then args[i + 1] else ""
  }

  function Message(name: string): string
  {
    "invalid argument name: " + name + ". Argument names must start with -"
  }

  /** parseArgs from position i on, with the map m as it stands there. */
  function ParseFrom(args: seq<string>, i: nat, m: map<string, string>): ArgsOutcome
    decreases |args| - i
  {
    if i >= |args| then ArgsOutcome(m, None)
    else if !IsArgName(args[i]) then ArgsOutcome(m, Some(Message(args[i])))
    else ParseFrom(args, i + 2, m[args[i][1..] := ValueAt(args, i)])
  }

  /** parseArgs(args, map): the loop steps over a name and its value each time round. */
  method ParseArgs(args: seq<string>, m0: map<string, string>) returns (m: map<string, string>, error: Option<string>)
    ensures ArgsOutcome(m, error) == ParseFrom(args, 0, m0)
  {
    m := m0;
    var i := 0;
    while i < |args|
      invariant ParseFrom(args, i, m) == ParseFrom(args, 0, m0)
      invariant i % 2 == 0
      decreases |args| - i
    {
      var argName := args[i];
      i := i + 1;
      var argValue := if i < |args| then args[i] else "";
      if !IsArgName(argName) {
        return m, Some(Message(argName));
      }
      m := m[argName[1..] := argValue];
      i := i + 1;
    }
    error := None;
  }

  /** When every name is valid, parseArgs returns normally and the keys it leaves are the
      caller's keys together with every named key. */
  lemma {:induction false} ParseArgsKeys(args: seq<string>, i: nat, m: map<string, string>, k: string)
    requires i % 2 == 0
    requires forall j :: i <= j && NameAt(args, j) ==> IsArgName(args[j])
    ensures ParseFrom(args, i, m).error == None
    ensures k in ParseFrom(args, i, m).entries <==> k in m || exists j :: i <= j && NamesKey(args, j, k)
    decreases |args| - i
  {
    if i < |args| {
      assert NameAt(args, i);
      var m' := m[args[i][1..] := ValueAt(args, i)];
      ParseArgsKeys(args, i + 2, m', k);
      if k == args[i][1..] {
        assert NamesKey(args, i, k);
      }
      if exists j :: i <= j && NamesKey(args, j, k) {
        var j :| i <= j && NamesKey(args, j, k);
        if j != i {
          assert i + 2 <= j;
        }
      }
    }
  }

  /** A key named by several pairs holds the value of the last of them. */
  lemma {:induction false} ParseArgsLastWins(args: seq<string>, i: nat, m: map<string, string>, k: string, j: int)
    requires i % 2 == 0
    requires forall l :: i <= l && NameAt(args, l) ==> IsArgName(args[l])
    requires i <= j && NamesKey(args, j, k)
    requires forall l :: j < l ==> !NamesKey(args, l, k)
    ensures k in ParseFrom(args, i, m).entries && ParseFrom(args, i, m).entries[k] == ValueAt(args, j)
    decreases |args| - i
  {
    assert NameAt(args, i);
    var m' := m[args[i][1..] := ValueAt(args, i)];
    if j == i {
      ParseArgsUntouched(args, i + 2, m', k);
    } else {
      ParseArgsLastWins(args, i + 2, m', k, j);
    }
  }

  /** A key that no pair names keeps the caller's value, or stays absent. */
  lemma {:induction false} ParseArgsUntouched(args: seq<string>, i: nat, m: map<string, string>, k: string)
    requires i % 2 == 0
    requires forall l :: i <= l && NameAt(args, l) ==> IsArgName(args[l])
    requires forall l :: i <= l ==> !NamesKey(args, l, k)
    ensures k in ParseFrom(args, i, m).entries <==> k in m
    ensures k in m ==> ParseFrom(args, i, m).entries[k] == m[k]
    decreases |args| - i
  {
    if i < |args| {
      assert NameAt(args, i) && !NamesKey(args, i, k);
      ParseArgsUntouched(args, i + 2, m[args[i][1..] := ValueAt(args, i)], k);
    }
  }

  /** parseArgs throws exactly when some name lacks the leading dash; it throws at the first
      such name, with the pairs before it already stored. */
  lemma {:induction false} ParseArgsFailure(args: seq<string>, i: nat, m: map<string, string>, e: nat)
    requires i % 2 == 0 && i <= e
    requires NameAt(args, e) && !IsArgName(args[e])
    requires forall j :: i <= j < e && NameAt(args, j) ==> IsArgName(args[j])
    ensures ParseFrom(args, i, m) == ArgsOutcome(ParseFrom(args[..e], i, m).entries, Some(Message(args[e])))
    decreases e - i
  {
    if i < e {
      assert NameAt(args, i);
      assert ValueAt(args[..e], i) == ValueAt(args, i);
      ParseArgsFailure(args, i + 2, m[args[i][1..] := ValueAt(args, i)], e);
    }
  }

  /** A name without the leading dash anywhere in the names makes parseArgs throw. */
  lemma ParseArgsThrowsIff(args: seq<string>, m: map<string, string>)
    ensures ParseFrom(args, 0, m).error.Some? <==> exists e :: NameAt(args, e) && !IsArgName(args[e])
  {
    if exists e :: NameAt(args, e) && !IsArgName(args[e]) {
      var e := FirstBadName(args);
      ParseArgsFailure(args, 0, m, e);
    } else {
      ParseArgsKeys(args, 0, m, "");
    }
  }

  function FirstBadName(args: seq<string>): (e: nat)
    requires exists e :: NameAt(args, e) && !IsArgName(args[e])
    ensures NameAt(args, e) && !IsArgName(args[e])
    ensures forall j :: 0 <= j < e && NameAt(args, j) ==> IsArgName(args[j])
  {
    FirstBadFrom(args, 0)
  }

  function FirstBadFrom(args: seq<string>, i: nat): (e: nat)
    requires i % 2 == 0
    requires exists e :: i <= e && NameAt(args, e) && !IsArgName(args[e])
    ensures i <= e && NameAt(args, e) && !IsArgName(args[e])
    ensures forall j :: i <= j < e && NameAt(args, j) ==> IsArgName(args[j])
    decreases |args| - i
  {
    if !IsArgName(args[i]) then i
    else
      assert NameAt(args, i);
      FirstBadFrom(args, i + 2)
  }

  /** The six defaults of the command-line entry point keep their values unless named, and
      "--print" sets the key "-print" because only the first character is dropped. */
  lemma MainDefaultsExample()
    ensures var defaults := map["uri" := "https://localhost:8089", "username" := "admin",
                                "password" := "changeme", "earliest_time" := "-24h",
                                "latest_time" := "now", "-print" := "true"];
            ParseFrom(["--print", "false", "-search"], 0, defaults) ==
              ArgsOutcome(defaults["-print" := "false"]["search" := ""], None)
  {
  }

  // ---------------------------------------------------------------------------
  // Search arguments: a LinkedHashMap as a sequence of entries
  // ---------------------------------------------------------------------------

  type Entry = (string, string)

  /** The keys of a map, in iteration order: one per entry, at the entry's position. */
  function Keys(es: seq<Entry>): (ks: seq<string>)
    ensures |ks| == |es| && forall i :: 0 <= i < |es| ==> ks[i] == es[i].0
  {
    if es == [] then [] else [es[0].0] + Keys(es[1..])
  }

  predicate DistinctKeys(es: seq<Entry>)
  {
    forall i, j :: 0 <= i < j < |es| ==> es[i].0 != es[j].0
  }

  /** The position of key k at or after i, or -1. */
  function KeyIndexFrom(es: seq<Entry>, k: string, i: nat): (r: int)
    requires i <= |es|
    ensures r == -1 || i <= r < |es|
    ensures r >= 0 ==> es[r].0 == k && forall j :: i <= j < r ==> es[j].0 != k
    ensures r == -1 ==> forall j :: i <= j < |es| ==> es[j].0 != k
    decreases |es| - i
  {
    if i == |es| then -1
    else if es[i].0 == k then i
    else KeyIndexFrom(es, k, i + 1)
  }

  function KeyIndex(es: seq<Entry>, k: string): int
  {
    KeyIndexFrom(es, k, 0)
  }

  /** Map.get: the value stored under k, if any. */
  function Lookup(es: seq<Entry>, k: string): (r: Option<string>)
    ensures r.None? <==> k !in Keys(es)
    ensures DistinctKeys(es) ==> forall i :: 0 <= i < |es| && es[i].0 == k ==> r == Some(es[i].1)
  {
    var i := KeyIndex(es, k);
    if i < 0 then None else Some(es[i].1)
  }

  /** LinkedHashMap.put: a new key goes at the end; an existing key keeps its place and
      takes the new value. */
  function Put(es: seq<Entry>, k: string, v: string): (r: seq<Entry>)
    ensures Keys(r) == if k in Keys(es) then Keys(es) else Keys(es) + [k]
    ensures DistinctKeys(es) ==> DistinctKeys(r)
  {
    var i := KeyIndex(es, k);
    if i < 0 then es + [(k, v)] else es[i := (k, v)]
  }

  /** After a put, the key holds the new value and every other key its old one. */
  lemma PutLookup(es: seq<Entry>, k: string, v: string, k': string)
    requires DistinctKeys(es)
    ensures Lookup(Put(es, k, v), k') == if k' == k then Some(v) else Lookup(es, k')
  {
  }

  const FixedKeys: seq<string> := ["search", "output_mode", "preview", "check_connection"]

  /** The names of `fixed` that are not among `present`, in order. */
  function Missing(fixed: seq<string>, present: seq<string>): seq<string>
  {
    if fixed == [] then []
    else (if fixed[0] in present then [] else [fixed[0]]) + Missing(fixed[1..], present)
  }

  /** The arguments of the export request: the caller's arguments first, then the search
      string, then output_mode=csv, preview=0 and check_connection=0, each of the last
      four overriding a same-named argument of the caller. */
  method SearchArgs(search: string, otherArgs: Option<seq<Entry>>) returns (args: seq<Entry>)
    requires otherArgs.Some? ==> DistinctKeys(otherArgs.value)
    ensures DistinctKeys(args)
    ensures Lookup(args, "search") == Some(search)
    ensures Lookup(args, "output_mode") == Some("csv")
    ensures Lookup(args, "preview") == Some("0")
    ensures Lookup(args, "check_connection") == Some("0")
    ensures forall k :: k !in FixedKeys ==>
              Lookup(args, k) == if otherArgs.Some? then Lookup(otherArgs.value, k) else None
    ensures var given := if otherArgs.Some? then Keys(otherArgs.value) else [];
            Keys(args) == given + Missing(FixedKeys, given)
  {
    args := [];
    if otherArgs.Some? {
      args := PutAll(otherArgs.value);
    }
    assert (if otherArgs.Some? then Keys(otherArgs.value) else []) == Keys(args);
    args := PutFixedArgs(args, search);
  }

  /** The four puts that follow the caller's arguments. */
  method PutFixedArgs(before: seq<Entry>, search: string) returns (args: seq<Entry>)
    requires DistinctKeys(before)
    ensures DistinctKeys(args)
    ensures forall j :: 0 <= j < |FixedKeys| ==> Lookup(args, FixedKeys[j]) == Some(FixedArgs(search)[j].1)
    ensures forall k :: k !in FixedKeys ==> Lookup(args, k) == Lookup(before, k)
    ensures Keys(args) == Keys(before) + Missing(FixedKeys, Keys(before))
  {
    args := before;
    ghost var given := Keys(before);
    var fixed := FixedArgs(search);
    FixedArgsKeys(search);
    var n := 0;
    while n < |fixed|
      invariant 0 <= n <= |fixed| && DistinctKeys(args)
      invariant Keys(args) == given + Missing(FixedKeys[..n], given)
      invariant forall k :: k !in FixedKeys[..n] ==> Lookup(args, k) == Lookup(before, k)
      invariant forall j :: 0 <= j < n ==> Lookup(args, fixed[j].0) == Some(fixed[j].1)
    {
      PutStepKeys(args, given, n, fixed[n].1);
      PutStepOthers(args, before, n, fixed[n].1);
      PutKeepsEarlier(args, fixed, n);
      args := Put(args, fixed[n].0, fixed[n].1);
      n := n + 1;
    }
    assert FixedKeys[..4] == FixedKeys;
    FixedLookups(args, search);
  }

  /** The four entries SearchArgs puts after the caller's arguments, in order. */
  function FixedArgs(search: string): seq<Entry>
  {
    [("search", search), ("output_mode", "csv"), ("preview", "0"), ("check_connection", "0")]
  }

  /** The four entries carry the four fixed keys, in order. */
  lemma FixedArgsKeys(search: string)
    ensures Keys(FixedArgs(search)) == FixedKeys
    ensures DistinctKeys(FixedArgs(search))
  {
  }

  /** The values found under the keys of the four entries are the values found under FixedKeys. */
  lemma FixedLookups(args: seq<Entry>, search: string)
    requires forall j :: 0 <= j < 4 ==> Lookup(args, FixedArgs(search)[j].0) == Some(FixedArgs(search)[j].1)
    ensures forall j :: 0 <= j < |FixedKeys| ==> Lookup(args, FixedKeys[j]) == Some(FixedArgs(search)[j].1)
  {
    FixedArgsKeys(search);
  }

  /** Putting the entries of a sequence with distinct keys one after another: the n-th put
      keeps the values of the keys put before it. */
  lemma PutKeepsEarlier(args: seq<Entry>, fixed: seq<Entry>, n: nat)
    requires n < |fixed| && DistinctKeys(fixed) && DistinctKeys(args)
    requires forall j :: 0 <= j < n ==> Lookup(args, fixed[j].0) == Some(fixed[j].1)
    ensures forall j :: 0 <= j <= n ==> Lookup(Put(args, fixed[n].0, fixed[n].1), fixed[j].0) == Some(fixed[j].1)
  {
    forall j | 0 <= j <= n
      ensures Lookup(Put(args, fixed[n].0, fixed[n].1), fixed[j].0) == Some(fixed[j].1)
    {
      PutLookup(args, fixed[n].0, fixed[n].1, fixed[j].0);
    }
  }

  /** One of the four puts of SearchArgs: its key goes at the end unless the caller gave it. */
  lemma PutStepKeys(args: seq<Entry>, given: seq<string>, n: nat, v: string)
    requires n < |FixedKeys| && DistinctKeys(args)
    requires Keys(args) == given + Missing(FixedKeys[..n], given)
    ensures DistinctKeys(Put(args, FixedKeys[n], v))
    ensures Keys(Put(args, FixedKeys[n], v)) == given + Missing(FixedKeys[..n + 1], given)
  {
    assert FixedKeys[..n + 1] == FixedKeys[..n] + [FixedKeys[n]];
    assert FixedKeys[n] !in FixedKeys[..n];
    MissingSnoc(FixedKeys[..n], FixedKeys[n], given);
    MissingWithin(FixedKeys[..n], given);
  }

  /** One of the four puts of SearchArgs leaves every key not yet put as it was. */
  lemma PutStepOthers(args: seq<Entry>, before: seq<Entry>, n: nat, v: string)
    requires n < |FixedKeys| && DistinctKeys(args)
    requires forall k :: k !in FixedKeys[..n] ==> Lookup(args, k) == Lookup(before, k)
    ensures forall k :: k !in FixedKeys[..n + 1] ==> Lookup(Put(args, FixedKeys[n], v), k) == Lookup(before, k)
  {
    assert FixedKeys[..n + 1] == FixedKeys[..n] + [FixedKeys[n]];
    forall k | k !in FixedKeys[..n + 1]
      ensures Lookup(Put(args, FixedKeys[n], v), k) == Lookup(before, k)
    {
      PutLookup(args, FixedKeys[n], v, k);
    }
  }

  /** Map.putAll into an empty map: the entries of a map with distinct keys, in their order. */
  method PutAll(other: seq<Entry>) returns (r: seq<Entry>)
    requires DistinctKeys(other)
    ensures r == other
  {
    r := [];
    var i := 0;
    while i < |other|
      invariant 0 <= i <= |other|
      invariant r == other[..i]
    {
      assert other[i].0 !in Keys(other[..i]);
      r := Put(r, other[i].0, other[i].1);
      assert other[..i + 1] == other[..i] + [other[i]];
      i := i + 1;
    }
    assert other[..i] == other;
  }

  lemma {:induction false} MissingSnoc(fixed: seq<string>, f: string, present: seq<string>)
    ensures Missing(fixed + [f], present) == Missing(fixed, present) + (if f in present then [] else [f])
  {
    if fixed == [] {
      assert Missing([f], present) == (if f in present then [] else [f]) + Missing([], present);
    } else {
      assert (fixed + [f])[1..] == fixed[1..] + [f];
      MissingSnoc(fixed[1..], f, present);
    }
  }

  lemma {:induction false} MissingWithin(fixed: seq<string>, present: seq<string>)
    ensures forall x :: x in Missing(fixed, present) ==> x in fixed
  {
    if fixed != [] {
      MissingWithin(fixed[1..], present);
    }
  }
}
