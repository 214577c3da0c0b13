/**
 setenv (common/cmd_nvedit.c), which API_env_set calls: the block is edited in
 place. An existing definition is removed by shifting the rest of the block to
 the front, and the new one is appended before the closing string.
 */
module EnvSet {
  import opened EnvFormat
  import opened EnvScan
  import opened EnvList

  // ----- The effect on the list of variables

  /** `vs` without the first variable called `name`. */
  function Remove(vs: seq<Var>, name: string): seq<Var> {
    var at := IndexOf(vs, name);
    if at == |vs| then vs else vs[..at] + vs[at + 1..]
  }

  /** Would appending name=value to `vs` run past a block of `room` cells? */
  predicate Overflows(vs: seq<Var>, name: string, value: string, room: nat) {
    Offset(vs, |vs|) + |name| + |value| + 3 > room
  }

  // ----- Bytes: taking an entry out

  /** Copy the entries at n.. down to e.., up to the NUL before the closing string. */
  method ShiftDown(mem: array<char>, e: nat, n: nat, ghost t: nat) returns (env: nat)
    requires e < n < t < mem.Length
    requires Closing(mem[..], t) && NoClosingBefore(mem[..], t)
    modifies mem
    ensures env == e + (t - n) - 1
    ensures forall x | 0 <= x < e || e + (t - n) <= x < mem.Length :: mem[x] == old(mem[x])
    ensures forall x | e <= x < e + (t - n) :: mem[x] == old(mem[x + (n - e)])
  {
    ghost var m := mem[..];
    env := e;
    var nxt := n;
    while true
      invariant e <= env && nxt == n + (env - e) && nxt < t
      invariant forall x | 0 <= x < e || env <= x < mem.Length :: mem[x] == m[x]
      invariant forall x | e <= x < env :: mem[x] == m[x + (n - e)]
      decreases t - nxt
    {
      mem[env] := mem[nxt];
      nxt := nxt + 1;
      if mem[env] == NUL && mem[nxt] == NUL {
        assert Closing(m, nxt);
        return;
      }
      env := env + 1;
    }
  }

  /** `now` is `mem` with the cells [e, n) cut out of a block closed at t. */
  ghost predicate CutFrom(now: string, mem: string, e: nat, n: nat, t: nat) {
    && e < n <= t < |mem| == |now|
    && (forall x | 0 <= x < e :: now[x] == mem[x])
    && (forall x | e <= x < e + (t - n) :: now[x] == mem[x + (n - e)])
    && now[e + (t - n)] == NUL
    && (e == 0 && n == t ==> now[1] == NUL)
    && (forall x | e + (t - n) < x < |mem| && !(e == 0 && n == t && x == 1) :: now[x] == mem[x])
  }

  /** Remove the entry whose start is e and whose NUL is at `last`. */
  method DeleteEntry(mem: array<char>, e: nat, last: nat, ghost t: nat)
    requires e < last < t < mem.Length
    requires Closing(mem[..], t) && NoClosingBefore(mem[..], t)
    requires mem[last] == NUL
    modifies mem
    ensures CutFrom(mem[..], old(mem[..]), e, last + 1, t)
    ensures forall x | t < x < mem.Length :: mem[x] == old(mem[x])
  {
    ghost var m := mem[..];
    var env, nxt := e, last + 1;
    if mem[nxt] == NUL {
      assert Closing(m, nxt);
      if env > 0 {
        env := env - 1;
      } else {
        mem[env] := NUL;
      }
    } else {
      env := ShiftDown(mem, e, nxt, t);
    }
    env := env + 1;
    mem[env] := NUL;
  }

  // ----- Bytes: appending an entry

  /** The scan for the double NUL, which leaves `env` on the closing string. */
  method EndOfBlock(mem: array<char>, ghost t: nat) returns (env: nat)
    requires t < mem.Length && Closing(mem[..], t) && NoClosingBefore(mem[..], t)
    requires t == 0 ==> mem.Length > 1 && mem[1] == NUL
    ensures env == t
  {
    ghost var m := mem[..];
    env := 0;
    assert t == 1 ==> Closing(m, 0);
    while mem[env] != NUL || mem[env + 1] != NUL
      invariant m == mem[..] && env + 1 < mem.Length
      invariant t == 0 ==> env == 0
      invariant t > 0 ==> env < t
      decreases mem.Length - env
    {
      env := env + 1;
    }
    assert Closing(m, env + 1);
    if env > 0 {
      env := env + 1;
    }
  }

  /** The C copy loop: `s` and its NUL, from `from` on. */
  method CopyString(mem: array<char>, from: nat, s: string) returns (env: nat)
    requires from + |s| < mem.Length && NUL !in s
    modifies mem
    ensures env == from + |s| && mem[env] == NUL
    ensures forall x | from <= x < env :: mem[x] == s[x - from]
    ensures forall x | 0 <= x < from || env < x < mem.Length :: mem[x] == old(mem[x])
  {
    var text := s + [NUL];
    env := from;
    mem[env] := text[0];
    while mem[env] != NUL
      invariant from <= env <= from + |s| && mem[env] == text[env - from]
      invariant forall x | from <= x < env :: mem[x] == s[x - from]
      invariant forall x | 0 <= x < from || env < x < mem.Length :: mem[x] == old(mem[x])
      decreases mem.Length - env
    {
      env := env + 1;
      mem[env] := text[env - from];
    }
  }

  /** Write name=value at `from` and close the block after it. */
  method AppendEntry(mem: array<char>, from: nat, name: string, value: string)
    requires from + |name| + |value| + 3 <= mem.Length
    requires GoodVar(Var(name, value))
    modifies mem
    ensures EntryIn(mem[..], from, Var(name, value))
    ensures mem[from + |name| + |value| + 2] == NUL
    ensures forall x | 0 <= x < from || from + |name| + |value| + 3 <= x < mem.Length :: mem[x] == old(mem[x])
  {
    var env := CopyString(mem, from, name);
    mem[env] := EQ;
    env := CopyString(mem, env + 1, value);
    env := env + 1;
    mem[env] := NUL;
    ghost var v := Var(name, value);
    assert |Entry(v)| == |name| + |value| + 2;
    assert mem[from..from + |Entry(v)|] == Entry(v);
  }

  // ----- From bytes back to the list

  /** The memory once a block is edited to hold `vs`: behind its image nothing has changed. */
  function Overwritten(mem: string, vs: seq<Var>): string {
    if |Image(vs)| <= |mem| then Image(vs) + mem[|Image(vs)|..] else mem
  }

  /** `now` and `mem` agree behind the image of `vs`. */
  ghost predicate Spared(now: string, mem: string, vs: seq<Var>) {
    |now| == |mem| && forall x | |Image(vs)| <= x < |mem| :: now[x] == mem[x]
  }

  lemma SparedIsOverwritten(now: string, mem: string, vs: seq<Var>)
    requires Holds(now, vs) && Spared(now, mem, vs)
    ensures now == Overwritten(mem, vs)
  {
    var n := |Image(vs)|;
    assert now[n..] == mem[n..];
    assert now == now[..n] + now[n..];
  }

  lemma HeldParts(mem: string, vs: seq<Var>, k: nat)
    requires Holds(mem, vs) && k <= |vs|
    ensures Offset(vs, k) <= Offset(vs, |vs|) < |mem|
    ensures mem[..Offset(vs, k)] == Entries(vs[..k])
    ensures mem[Offset(vs, k)..Offset(vs, |vs|)] == Entries(vs[k..])
  {
    HoldsIsLaid(mem, vs);
    OffsetMonotone(vs, k, |vs|);
    LaidPrefix(mem, vs, k);
    LaidPrefix(mem, vs, |vs|);
    EntriesSplit(vs, k);
    assert vs[..|vs|] == vs;
    assert mem[..Offset(vs, |vs|)] == mem[..Offset(vs, k)] + mem[Offset(vs, k)..Offset(vs, |vs|)];
  }

  lemma ImageHeld(now: string, vs: seq<Var>)
    requires GoodList(vs) && |Entries(vs)| < |now|
    requires now[..|Entries(vs)|] == Entries(vs) && now[|Entries(vs)|] == NUL
    requires vs == [] ==> |now| > 1 && now[1] == NUL
    ensures Holds(now, vs)
  {
    assert now[..|Entries(vs)| + 1] == now[..|Entries(vs)|] + [NUL];
  }

  lemma Joined(now: string, a: string, b: string)
    requires |a| + |b| <= |now|
    requires now[..|a|] == a && now[|a|..|a| + |b|] == b
    ensures now[..|a| + |b|] == a + b
  {
    assert now[..|a| + |b|] == now[..|a|] + now[|a|..|a| + |b|];
  }

  lemma CutStrings(now: string, mem: string, e: nat, n: nat, t: nat)
    requires CutFrom(now, mem, e, n, t)
    ensures now[..e] == mem[..e] && |mem[..e]| == e
    ensures now[e..e + (t - n)] == mem[n..t] && |mem[n..t]| == t - n
  {
  }

  lemma CutParts(now: string, mem: string, vs: seq<Var>, at: nat, e: nat, n: nat, t: nat)
    requires Holds(mem, vs) && at < |vs|
    requires e == Offset(vs, at) && n == Offset(vs, at + 1) && t == Offset(vs, |vs|)
    requires CutFrom(now, mem, e, n, t)
    ensures IsParts(now, vs, Entries(vs[..at]), Entries(vs[at + 1..]))
  {
    HeldParts(mem, vs, at);
    HeldParts(mem, vs, at + 1);
    PartsOfCut(now, mem, vs, Entries(vs[..at]), Entries(vs[at + 1..]), e, n, t);
  }

  lemma PartsOfCut(now: string, mem: string, vs: seq<Var>, a: string, b: string, e: nat, n: nat, t: nat)
    requires GoodList(vs) && CutFrom(now, mem, e, n, t)
    requires mem[..e] == a && mem[n..t] == b
    ensures IsParts(now, vs, a, b)
  {
    CutStrings(now, mem, e, n, t);
    assert |a| == e && |b| == t - n;
  }

  ghost predicate IsParts(now: string, vs: seq<Var>, a: string, b: string) {
    && GoodList(vs)
    && |a| + |b| < |now| && now[..|a|] == a && now[|a|..|a| + |b|] == b
    && now[|a| + |b|] == NUL
    && (|a| == 0 && |b| == 0 ==> |now| > 1 && now[1] == NUL)
  }

  /** Cutting entry `at` out of the bytes takes it out of the list. */
  lemma CutHolds(now: string, mem: string, vs: seq<Var>, at: nat, e: nat, n: nat, t: nat)
    requires Holds(mem, vs) && at < |vs|
    requires e == Offset(vs, at) && n == Offset(vs, at + 1) && t == Offset(vs, |vs|)
    requires CutFrom(now, mem, e, n, t)
    ensures Holds(now, vs[..at] + vs[at + 1..])
  {
    CutParts(now, mem, vs, at, e, n, t);
    TwoParts(now, vs, at);
  }

  lemma TwoParts(now: string, vs: seq<Var>, at: nat)
    requires at < |vs| && IsParts(now, vs, Entries(vs[..at]), Entries(vs[at + 1..]))
    ensures Holds(now, vs[..at] + vs[at + 1..])
  {
    Joined(now, Entries(vs[..at]), Entries(vs[at + 1..]));
    EntriesConcat(vs[..at], vs[at + 1..]);
    GoodParts(vs, at);
    ImageHeld(now, vs[..at] + vs[at + 1..]);
  }

  lemma GoodParts(vs: seq<Var>, at: nat)
    requires GoodList(vs) && at < |vs|
    ensures GoodList(vs[..at] + vs[at + 1..])
    ensures vs[..at] + vs[at + 1..] == [] ==> at == 0 && |vs| == 1
  {
    var rest := vs[..at] + vs[at + 1..];
    forall k | 0 <= k < |rest| ensures GoodAt(rest, k) {
      assert GoodAt(vs, if k < at then k else k + 1);
    }
  }

  lemma GoodMore(vs: seq<Var>, v: Var)
    requires GoodList(vs) && GoodVar(v)
    ensures GoodList(vs + [v])
  {
    forall k | 0 <= k < |vs + [v]| ensures GoodAt(vs + [v], k) {
      assert k < |vs| ==> GoodAt(vs, k);
    }
  }

  lemma OffsetTotal(vs: seq<Var>)
    ensures Offset(vs, |vs|) == |Entries(vs)|
  {
    OffsetIs(vs, |vs|);
    assert vs[..|vs|] == vs;
  }

  lemma SamePrefix(now: string, mem: string, a: string)
    requires |a| <= |mem| == |now| && mem[..|a|] == a
    requires forall x | 0 <= x < |a| :: now[x] == mem[x]
    ensures now[..|a|] == a
  {
    assert now[..|a|] == mem[..|a|];
  }

  lemma PrefixAndEntry(now: string, vs: seq<Var>, v: Var, t: nat)
    requires GoodList(vs) && GoodVar(v)
    requires t == |Entries(vs)| && t + |Entry(v)| < |now| && now[..t] == Entries(vs)
    requires EntryIn(now, t, v) && now[t + |Entry(v)|] == NUL
    ensures Holds(now, vs + [v])
  {
    Joined(now, Entries(vs), Entry(v));
    EntriesLast(vs, v);
    GoodMore(vs, v);
    ImageHeld(now, vs + [v]);
  }

  lemma AppendHolds(now: string, mem: string, vs: seq<Var>, v: Var, t: nat)
    requires Holds(mem, vs) && GoodVar(v) && |now| == |mem|
    requires t == Offset(vs, |vs|) && t + |Entry(v)| < |now|
    requires forall x | 0 <= x < t :: now[x] == mem[x]
    requires EntryIn(now, t, v) && now[t + |Entry(v)|] == NUL
    ensures Holds(now, vs + [v])
  {
    KeptPrefix(now, mem, vs, t);
    PrefixAndEntry(now, vs, v, t);
  }

  lemma KeptPrefix(now: string, mem: string, vs: seq<Var>, t: nat)
    requires Holds(mem, vs) && |now| == |mem| && t == Offset(vs, |vs|) && t <= |mem|
    requires forall x | 0 <= x < t :: now[x] == mem[x]
    ensures GoodList(vs) && t == |Entries(vs)| && now[..t] == Entries(vs)
  {
    AllEntries(mem, vs);
    SamePrefix(now, mem, Entries(vs));
  }

  lemma AllEntries(mem: string, vs: seq<Var>)
    requires Holds(mem, vs)
    ensures Offset(vs, |vs|) == |Entries(vs)| < |mem| && mem[..|Entries(vs)|] == Entries(vs)
  {
    HeldParts(mem, vs, |vs|);
    OffsetTotal(vs);
    assert vs[..|vs|] == vs;
  }

  lemma EntriesLast(vs: seq<Var>, v: Var)
    ensures Entries(vs + [v]) == Entries(vs) + Entry(v)
  {
    EntriesConcat(vs, [v]);
    assert Entries([v]) == Entry(v) + Entries([]);
  }

  // ----- Facts the editing methods start from and end with

  lemma Closed(mem: string, vs: seq<Var>)
    requires Holds(mem, vs)
    ensures Offset(vs, |vs|) < |mem| && Closing(mem, Offset(vs, |vs|)) && NoClosingBefore(mem, Offset(vs, |vs|))
    ensures Offset(vs, |vs|) == 0 ==> |mem| > 1 && mem[1] == NUL
    ensures Offset(vs, |vs|) < |Image(vs)|
  {
    HoldsIsLaid(mem, vs);
    BeforeClosing(mem, vs);
    NoClosingInside(mem, vs, |vs|);
    ClosingInMemory(mem, vs);
    assert vs == [] ==> mem[..2][1] == NUL;
  }

  lemma NameAlone(name: string)
    requires NUL !in name && EQ !in name
    ensures Terminated(name + [NUL], 0) && NameAt(name + [NUL], 0) == name
  {
    NameEndIs(name + [NUL], 0, |name|);
  }

  lemma Prepared(mem: string, vs: seq<Var>, name: string)
    requires Holds(mem, vs) && NUL !in name && EQ !in name
    ensures Readable(mem, |mem|) && Reached(mem, |mem|, name + [NUL], 0)
    ensures Find(mem, |mem|, name + [NUL], 0) == ListFind(vs, name)
  {
    HoldsIsLaid(mem, vs);
    StoredIsReadable(mem, |mem|, vs);
    NameAlone(name);
    FindOnList(mem, |mem|, vs, name + [NUL]);
  }

  lemma NotLost(vs: seq<Var>, name: string)
    ensures !ListFind(vs, name).Lost?
  {
  }

  lemma HitIs(vs: seq<Var>, name: string)
    requires ListFind(vs, name).Hit?
    ensures var at, f := IndexOf(vs, name), ListFind(vs, name);
            at < |vs| && f.start == Offset(vs, at) && f.end + 1 == Offset(vs, at + 1)
  {
  }

  lemma EntryBounds(mem: string, vs: seq<Var>, at: nat)
    requires Laid(mem, vs) && at < |vs|
    ensures Offset(vs, at) + 1 < Offset(vs, at + 1) <= Offset(vs, |vs|) < |mem|
    ensures mem[Offset(vs, at + 1) - 1] == NUL
  {
    OffsetMonotone(vs, at + 1, |vs|);
    assert EntryAt(mem, vs, at);
  }

  /** What the removal needs to know about the entry that was found; t is the closing string. */
  lemma ReadyToDelete(mem: string, vs: seq<Var>, at: nat, e: nat, last: nat) returns (t: nat)
    requires Holds(mem, vs) && at < |vs| && e == Offset(vs, at) && last + 1 == Offset(vs, at + 1)
    ensures e < last < t < |mem| && mem[last] == NUL
    ensures Closing(mem, t) && NoClosingBefore(mem, t)
    ensures t == Offset(vs, |vs|) < |Image(vs)|
  {
    t := Offset(vs, |vs|);
    HoldsIsLaid(mem, vs);
    EntryBounds(mem, vs, at);
    Closed(mem, vs);
  }

  /** Where the cut ends is where the image of the shorter list ends. */
  lemma CutSpares(now: string, mem: string, vs: seq<Var>, at: nat, e: nat, n: nat, t: nat)
    requires Holds(mem, vs) && at < |vs|
    requires e == Offset(vs, at) && n == Offset(vs, at + 1) && t == Offset(vs, |vs|)
    requires CutFrom(now, mem, e, n, t)
    ensures Spared(now, mem, vs[..at] + vs[at + 1..])
  {
    var rest := vs[..at] + vs[at + 1..];
    OffsetIs(vs, at);
    OffsetIs(vs, at + 1);
    OffsetTotal(vs);
    EntriesConcat(vs[..at], vs[at + 1..]);
    EntriesSplit(vs, at + 1);
    assert |Entries(rest)| == e + (t - n);
    assert rest == [] ==> e == 0 && n == t;
  }

  lemma CutShrinks(vs: seq<Var>, at: nat)
    requires at < |vs|
    ensures |Image(vs[..at] + vs[at + 1..])| <= |Image(vs)|
  {
    EntriesConcat(vs[..at], vs[at + 1..]);
    EntriesSplit(vs, at + 1);
    EntriesSnoc(vs, at);
  }

  /** The entry the search found, ready to be removed. */
  lemma ReadyToRemove(mem: string, vs: seq<Var>, name: string, e: nat, last: nat) returns (at: nat, t: nat)
    requires Holds(mem, vs) && ListFind(vs, name).Hit?
    requires e == ListFind(vs, name).start && last == ListFind(vs, name).end
    ensures at < |vs| && e == Offset(vs, at) && last + 1 == Offset(vs, at + 1)
    ensures Remove(vs, name) == vs[..at] + vs[at + 1..]
    ensures e < last < t < |mem| && mem[last] == NUL
    ensures Closing(mem, t) && NoClosingBefore(mem, t)
    ensures t == Offset(vs, |vs|) < |Image(vs)|
  {
    HitIs(vs, name);
    at := IndexOf(vs, name);
    t := ReadyToDelete(mem, vs, at, e, last);
  }

  lemma CutIsRemoved(now: string, mem: string, vs: seq<Var>, rest: seq<Var>, at: nat, e: nat, last: nat, t: nat)
    requires Holds(mem, vs) && at < |vs| && rest == vs[..at] + vs[at + 1..]
    requires e == Offset(vs, at) && last + 1 == Offset(vs, at + 1) && t == Offset(vs, |vs|)
    requires CutFrom(now, mem, e, last + 1, t)
    ensures Holds(now, rest) && |Image(rest)| <= |Image(vs)| && Spared(now, mem, rest)
  {
    CutSpares(now, mem, vs, at, e, last + 1, t);
    CutHolds(now, mem, vs, at, e, last + 1, t);
    CutShrinks(vs, at);
  }

  /** Taking out the old entry and then appending the new one spares what lies behind the longer image. */
  lemma SparedTwice(last: string, mid: string, first: string, rest: seq<Var>, v: Var)
    requires Spared(mid, first, rest) && Spared(last, mid, rest + [v])
    ensures Spared(last, first, rest + [v])
  {
    OffsetTotal(rest);
    AppendGrows(rest, v);
  }

  lemma AppendGrows(vs: seq<Var>, v: Var)
    ensures |Image(vs + [v])| == Offset(vs, |vs|) + |v.name| + |v.value| + 3
  {
    OffsetTotal(vs);
    EntriesLast(vs, v);
  }
}
