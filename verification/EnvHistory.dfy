/**
 Runs of API_env_set calls, what API_env_get then answers, and why the
 enumeration of an environment built by setenv always ends.
 */
module EnvHistory {
  import opened ApiPublic
  import opened EnvFormat
  import opened EnvScan
  import opened EnvList
  import opened EnvApi
  import opened EnvRun
  import opened EnvSet
  import opened EnvBlock

  /** The value getenv finds: that of the first variable called `name`. */
  function Lookup(vs: seq<Var>, name: string): Option<string> {
    if Defines(vs, name) then Some(vs[IndexOf(vs, name)].value) else None
  }

  /** The C string at i, without its NUL. */
  function CString(mem: string, i: nat): string
    requires i <= |mem|
  {
    mem[i..StrEnd(mem, i)]
  }

  datatype Op = Op(name: string, value: string)

  /** The list after a run of setenv calls. */
  function RunSets(policy: Policy, vs: seq<Var>, ops: seq<Op>, room: nat): seq<Var> {
    if ops == [] then vs
    else
      var before := RunSets(policy, vs, ops[..|ops| - 1], room);
      var op := ops[|ops| - 1];
      SetList(policy, before, op.name, op.value, room)
  }

  // ----- getenv on the bytes is a lookup in the list

  lemma GetOnList(mem: string, size: nat, vs: seq<Var>, s: string)
    requires Stored(mem, size, vs) && Terminated(s, 0)
    ensures var r := GetResult(mem, size, s);
            match Lookup(vs, NameAt(s, 0))
            case None => r == Null
            case Some(value) => r.InEnv? && r.off <= |mem| && CString(mem, r.off) == value
  {
    FindOnList(mem, size, vs, s);
    var at := IndexOf(vs, NameAt(s, 0));
    if at < |vs| {
      assert EntryAt(mem, vs, at);
      ValueInEntry(mem, Offset(vs, at), vs[at]);
    }
  }

  lemma ValueInEntry(mem: string, i: nat, v: Var)
    requires ReadsAs(mem, i, v)
    ensures i + |v.name| + 1 <= |mem| && CString(mem, i + |v.name| + 1) == v.value
  {
    StrEndIs(mem, i + |v.name| + 1, StrEnd(mem, i));
  }

  // ----- What one setenv does to lookups

  lemma IndexOfConcat(a: seq<Var>, b: seq<Var>, name: string)
    ensures IndexOf(a + b, name) ==
            if Defines(a, name) then IndexOf(a, name) else |a| + IndexOf(b, name)
  {
    var k := if Defines(a, name) then IndexOf(a, name) else |a| + IndexOf(b, name);
    assert forall j | 0 <= j < k :: (a + b)[j] == if j < |a| then a[j] else b[j - |a|];
    IndexOfIs(a + b, name, k);
  }

  lemma LookupConcat(a: seq<Var>, b: seq<Var>, name: string)
    ensures Lookup(a + b, name) == if Defines(a, name) then Lookup(a, name) else Lookup(b, name)
  {
    IndexOfConcat(a, b, name);
  }

  lemma LookupRemove(vs: seq<Var>, name: string, other: string)
    requires other != name
    ensures Lookup(Remove(vs, name), other) == Lookup(vs, other)
  {
    var at := IndexOf(vs, name);
    if at < |vs| {
      LookupSkip(vs[..at], vs[at], vs[at + 1..], other);
      assert vs == vs[..at] + ([vs[at]] + vs[at + 1..]);
    }
  }

  lemma LookupSkip(pre: seq<Var>, v: Var, post: seq<Var>, other: string)
    requires v.name != other
    ensures Lookup(pre + ([v] + post), other) == Lookup(pre + post, other)
  {
    LookupConcat(pre, post, other);
    LookupConcat(pre, [v] + post, other);
    LookupConcat([v], post, other);
  }

  /** setenv never changes what any other name means, whatever becomes of the call. */
  lemma SetKeepsOthers(policy: Policy, vs: seq<Var>, name: string, value: string, room: nat, other: string)
    requires other != name
    ensures Lookup(SetList(policy, vs, name, value, room), other) == Lookup(vs, other)
  {
    LookupRemove(vs, name, other);
    LookupConcat(Remove(vs, name), [Var(name, value)], other);
  }

  /**
   A setenv that reports success is seen by the next getenv exactly when the name
   was defined at most once, or its second definition happens to hold the same value.
   */
  lemma SetThenGet(policy: Policy, vs: seq<Var>, name: string, value: string, room: nat)
    requires !Refused(policy, name, value, Defines(vs, name)) && !TooBig(vs, name, value, room)
    ensures var now := Lookup(SetList(policy, vs, name, value, room), name);
            var second := Lookup(Remove(vs, name), name);
            var wanted := if value == "" then None else Some(value);
            now == wanted <==> second == None || second == wanted
  {
    LookupConcat(Remove(vs, name), [Var(name, value)], name);
  }

  /** setenv reports an error, and leaves the environment alone exactly when it refused the call outright or the name was not defined. */
  lemma FailureLeavesListIff(policy: Policy, vs: seq<Var>, name: string, value: string, room: nat)
    requires Refused(policy, name, value, Defines(vs, name)) || TooBig(vs, name, value, room)
    ensures SetList(policy, vs, name, value, room) == vs
       <==> Refused(policy, name, value, Defines(vs, name)) || !Defines(vs, name)
  {
    assert Defines(vs, name) ==> |Remove(vs, name)| + 1 == |vs|;
  }

  /** Six cells hold a=1; setting a to 12345 fails, and a is gone. */
  lemma OverflowLosesA(policy: Policy)
    ensures var vs := [Var("a", "1")];
            && |Image(vs)| <= 6 && !Refused(policy, "a", "12345", Defines(vs, "a")) && TooBig(vs, "a", "12345", 6)
            && SetList(policy, vs, "a", "12345", 6) == []
  {
    var vs := [Var("a", "1")];
    assert IndexOf(vs, "a") == 0 && Remove(vs, "a") == [];
    assert Entries(vs) == Entry(vs[0]) + Entries([]);
  }

  /** After a definition that does not fit, the name means what its second definition says, if it has one. */
  lemma OverflowLosesOldValue(policy: Policy, vs: seq<Var>, name: string, value: string, room: nat)
    requires !Refused(policy, name, value, Defines(vs, name)) && TooBig(vs, name, value, room)
    ensures Lookup(SetList(policy, vs, name, value, room), name) == Lookup(Remove(vs, name), name)
    ensures Distinct(vs) ==> Lookup(SetList(policy, vs, name, value, room), name) == None
  {
    if Distinct(vs) {
      RemoveAll(vs, name);
    }
  }

  /**
   The console variables cannot be deleted, but one is lost exactly when an accepted new
   value does not fit and the name has no second definition.
   */
  lemma ConsoleLostIff(policy: Policy, vs: seq<Var>, name: string, value: string, room: nat)
    requires (name == "stdin" || name == "stdout" || name == "stderr") && Defines(vs, name)
    ensures Lookup(SetList(policy, vs, name, value, room), name) == None
       <==> value != "" && policy.consoleAccepts(name, value) && TooBig(vs, name, value, room)
            && !Defines(Remove(vs, name), name)
  {
    var now := SetList(policy, vs, name, value, room);
    if Refused(policy, name, value, true) {
      assert now == vs;
    } else if TooBig(vs, name, value, room) {
      assert now == Remove(vs, name);
    } else {
      assert now == Remove(vs, name) + [Var(name, value)];
      LookupConcat(Remove(vs, name), [Var(name, value)], name);
    }
  }

  /** Fourteen cells hold stdin=serial; an accepted longer assignment fails, and stdin is gone. */
  lemma StdinLost()
    ensures var policy, vs := Policy((name, value) => true, value => true), [Var("stdin", "serial")];
            && |Image(vs)| <= 14 && policy.consoleAccepts("stdin", "usbkbd,serial") && TooBig(vs, "stdin", "usbkbd,serial", 14)
            && Lookup(vs, "stdin") == Some("serial")
            && Lookup(SetList(policy, vs, "stdin", "usbkbd,serial", 14), "stdin") == None
  {
    var policy, vs := Policy((name, value) => true, value => true), [Var("stdin", "serial")];
    assert IndexOf(vs, "stdin") == 0 && Remove(vs, "stdin") == [];
    assert Entries(vs) == Entry(vs[0]) + Entries([]);
    ConsoleLostIff(policy, vs, "stdin", "usbkbd,serial", 14);
  }

  /** Once defined, the serial number and the Ethernet address keep their value through every run. */
  lemma {:induction false} WriteOnceForever(policy: Policy, vs: seq<Var>, ops: seq<Op>, room: nat, name: string)
    requires (name == "serial#" || name == "ethaddr") && Defines(vs, name)
    ensures Lookup(RunSets(policy, vs, ops, room), name) == Lookup(vs, name)
  {
    if ops == [] {
    } else {
      var before, op := RunSets(policy, vs, ops[..|ops| - 1], room), ops[|ops| - 1];
      WriteOnceForever(policy, vs, ops[..|ops| - 1], room, name);
      if op.name != name {
        SetKeepsOthers(policy, before, op.name, op.value, room, name);
      }
    }
  }

  // ----- Which calls are refused, name by name

  /** In each of these cases the list stays, whatever room there is. */
  lemma KeptByName(policy: Policy, vs: seq<Var>, name: string, value: string, room: nat)
    requires || '=' in name
             || (name in {"stdin", "stdout", "stderr"} && (value == "" || !policy.consoleAccepts(name, value)))
             || (name in {"serial#", "ethaddr"} && Defines(vs, name))
             || (name == "baudrate" && Defines(vs, name) && !policy.baudSupported(value))
    ensures SetList(policy, vs, name, value, room) == vs
  {
    RefusedByName(policy, name, value, Defines(vs, name));
  }

  /**
   Every other call, whatever the name, goes through to the list. Without its old definition, at index `at`, the list
   keeps its order; the new definition, if there is one and its image fits the room, is the last entry.
   */
  lemma OthersGoThrough(policy: Policy, vs: seq<Var>, name: string, value: string, room: nat)
    requires '=' !in name
    requires name in {"stdin", "stdout", "stderr"} ==> value != "" && policy.consoleAccepts(name, value)
    requires name in {"serial#", "ethaddr"} ==> !Defines(vs, name)
    requires name == "baudrate" && Defines(vs, name) ==> policy.baudSupported(value)
    ensures var rest := Without(vs, name);
            SetList(policy, vs, name, value, room)
            == if value == "" || |Image(rest + [Var(name, value)])| > room then rest else rest + [Var(name, value)]
  {
    RefusedByName(policy, name, value, Defines(vs, name));
    EditedByName(vs, name, value, room);
  }

  /** The list less its first entry of that name. */
  function Without(vs: seq<Var>, name: string): seq<Var> {
    if vs == [] then [] else if vs[0].name == name then vs[1..] else [vs[0]] + Without(vs[1..], name)
  }

  lemma {:induction false} RemoveIsWithout(vs: seq<Var>, name: string)
    ensures Remove(vs, name) == Without(vs, name)
  {
    if vs == [] {
    } else if vs[0].name == name {
      assert IndexOf(vs, name) == 0 && vs[..0] + vs[1..] == vs[1..];
    } else {
      RemoveIsWithout(vs[1..], name);
      var at := IndexOf(vs[1..], name);
      assert IndexOf(vs, name) == 1 + at && vs == [vs[0]] + vs[1..];
      if at < |vs| - 1 {
        assert vs[..1 + at] + vs[2 + at..] == [vs[0]] + (vs[1..][..at] + vs[1..][at + 1..]);
      }
    }
  }

  /** The edit itself, and the test for room: the image of the new list. */
  lemma EditedByName(vs: seq<Var>, name: string, value: string, room: nat)
    ensures var rest := Without(vs, name);
            && (TooBig(vs, name, value, room) <==> value != "" && |Image(rest + [Var(name, value)])| > room)
            && Edited(vs, name, value, room)
               == if value == "" || |Image(rest + [Var(name, value)])| > room then rest else rest + [Var(name, value)]
  {
    RemoveIsWithout(vs, name);
    AppendGrows(Remove(vs, name), Var(name, value));
  }

  // ----- Distinct names are kept by every run

  lemma RemoveAll(vs: seq<Var>, name: string)
    requires Distinct(vs)
    ensures !Defines(Remove(vs, name), name)
  {
    var at, rest := IndexOf(vs, name), Remove(vs, name);
    if at < |vs| {
      assert forall j | 0 <= j < |rest| :: rest[j] == if j < at then vs[j] else vs[j + 1];
      forall j | 0 <= j < |rest| ensures rest[j].name != name {
        assert vs[at].name == name && j >= at ==> vs[j + 1].name != vs[at].name;
      }
    }
  }

  lemma RemoveDistinct(vs: seq<Var>, name: string)
    requires Distinct(vs)
    ensures Distinct(Remove(vs, name))
  {
    var at, rest := IndexOf(vs, name), Remove(vs, name);
    if at < |vs| {
      assert forall j | 0 <= j < |rest| :: rest[j] == if j < at then vs[j] else vs[j + 1];
    }
  }

  lemma SetKeepsDistinct(policy: Policy, vs: seq<Var>, name: string, value: string, room: nat)
    requires Distinct(vs)
    ensures Distinct(SetList(policy, vs, name, value, room))
  {
    RemoveDistinct(vs, name);
    RemoveAll(vs, name);
    assert IndexOf(Remove(vs, name), name) == |Remove(vs, name)|;
  }

  lemma {:induction false} RunKeepsDistinct(policy: Policy, vs: seq<Var>, ops: seq<Op>, room: nat)
    requires Distinct(vs)
    ensures Distinct(RunSets(policy, vs, ops, room))
  {
    if ops == [] {
    } else {
      RunKeepsDistinct(policy, vs, ops[..|ops| - 1], room);
      var op := ops[|ops| - 1];
      SetKeepsDistinct(policy, RunSets(policy, vs, ops[..|ops| - 1], room), op.name, op.value, room);
    }
  }

  /**
   Whatever setenv calls were made on an environment with distinct names, the
   enumeration visits every variable once, in order, and then returns NULL;
   only the emptied environment is enumerated for ever.
   */
  lemma HistoryEnumerates(policy: Policy, vs: seq<Var>, ops: seq<Op>, room: nat, mem: string, size: nat)
    requires Distinct(vs)
    requires Holds(mem, RunSets(policy, vs, ops, room))
    requires |Image(RunSets(policy, vs, ops, room))| <= room <= size
    ensures var now := RunSets(policy, vs, ops, room);
            && (ReachesNull(mem, size) <==> now != [])
            && forall k | 0 <= k < |now| :: Iter(mem, size, k) == InEnv(Offset(now, k))
  {
    var now := RunSets(policy, vs, ops, room);
    RunKeepsDistinct(policy, vs, ops, room);
    HoldsIsLaid(mem, now);
    ClosingInMemory(mem, now);
    if now == [] {
      forall k: nat ensures Iter(mem, size, k) != Null {
        EmptyNeverEnds(mem, size, k);
      }
    } else {
      DistinctRun(mem, size, now);
      EndsIff(mem, size, now);
    }
  }
}
