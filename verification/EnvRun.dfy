/**
 Whole enumerations: the caller starts with NULL and feeds each result of
 API_env_enum back as `last`.
 */
module EnvRun {
  import opened EnvFormat
  import opened EnvScan
  import opened EnvList
  import opened EnvApi

  /** Call number k (counting from 0) of a caller that starts with NULL and feeds back what f returns. */
  function Calls(f: Ptr -> Ptr, k: nat): Ptr {
    f(if k == 0 then Null else Calls(f, k - 1))
  }

  function Enum(mem: string, size: nat): Ptr -> Ptr {
    p => EnumResult(mem, size, p)
  }

  /** The result of call number k of API_env_enum. */
  function Iter(mem: string, size: nat, k: nat): Ptr {
    Calls(Enum(mem, size), k)
  }

  ghost predicate ReachesNull(mem: string, size: nat) {
    exists k: nat :: Iter(mem, size, k) == Null
  }

  lemma {:induction false} NameEndSuffix(mem: string, i: nat, j: nat)
    requires i + j <= |mem|
    ensures NameEnd(mem[i..], j) + i == NameEnd(mem, i + j)
    decreases |mem| - i - j
  {
    if i + j == |mem| {
    } else {
      assert mem[i..][j] == mem[i + j];
      NameEndSuffix(mem, i, j + 1);
    }
  }

  lemma SuffixNamed(mem: string, i: nat, v: Var)
    requires ReadsAs(mem, i, v)
    ensures Terminated(mem[i..], 0) && NameAt(mem[i..], 0) == v.name
  {
    NameEndSuffix(mem, i, 0);
    assert mem[i..][..|v.name|] == mem[i..i + |v.name|];
  }

  lemma EntryText(mem: string, vs: seq<Var>, k: nat)
    requires Laid(mem, vs) && k < |vs|
    ensures Offset(vs, k) < |mem|
    ensures Terminated(Text(mem, InEnv(Offset(vs, k))), 0)
    ensures NameAt(Text(mem, InEnv(Offset(vs, k))), 0) == vs[k].name
  {
    assert EntryAt(mem, vs, k);
    SuffixNamed(mem, Offset(vs, k), vs[k]);
  }

  /** Feeding back the address of entry k. */
  lemma StepOnList(mem: string, size: nat, vs: seq<Var>, k: nat)
    requires Stored(mem, size, vs) && k < |vs|
    ensures var at := IndexOf(vs, vs[k].name);
            EnumResult(mem, size, InEnv(Offset(vs, k))) ==
            if at == |vs| - 1 then Null else InEnv(Offset(vs, at + 1))
  {
    EntryText(mem, vs, k);
    NextOnList(mem, size, vs, Text(mem, InEnv(Offset(vs, k))));
    assert IndexOf(vs, vs[k].name) <= k;
  }

  // ----- Distinct names: every entry once, in order, then NULL

  /** Feeding back each of the first n entries yields the next one. */
  ghost predicate Advances(f: Ptr -> Ptr, vs: seq<Var>, n: nat) {
    && n <= |vs| && f(Null) == InEnv(0)
    && forall k | 0 <= k < n :: FeedsNext(f, vs, k)
  }

  predicate FeedsNext(f: Ptr -> Ptr, vs: seq<Var>, k: nat)
    requires k < |vs|
  {
    FeedsTo(f, vs, k, k + 1)
  }

  predicate FeedsTo(f: Ptr -> Ptr, vs: seq<Var>, k: nat, next: nat)
    requires k <= |vs| && next <= |vs|
  {
    f(InEnv(Offset(vs, k))) == InEnv(Offset(vs, next))
  }

  lemma {:induction false} AdvancingRun(f: Ptr -> Ptr, vs: seq<Var>, n: nat, k: nat)
    requires Advances(f, vs, n) && k <= n
    ensures Calls(f, k) == InEnv(Offset(vs, k))
  {
    if k == 0 {
    } else {
      AdvancingRun(f, vs, n, k - 1);
      assert FeedsNext(f, vs, k - 1);
    }
  }

  lemma DistinctAdvances(mem: string, size: nat, vs: seq<Var>, n: nat)
    requires Stored(mem, size, vs) && n < |vs| && Distinct(vs[..n])
    ensures Advances(Enum(mem, size), vs, n)
  {
    forall k | 0 <= k < n ensures FeedsNext(Enum(mem, size), vs, k) {
      PrefixIndex(vs, n, k);
      StepOnList(mem, size, vs, k);
    }
  }

  lemma PrefixIndex(vs: seq<Var>, j: nat, k: nat)
    requires k < j <= |vs| && Distinct(vs[..j])
    ensures IndexOf(vs, vs[k].name) == k
  {
    var at := IndexOf(vs, vs[k].name);
    assert at <= k;
    assert vs[..j][at] == vs[at] && vs[..j][k] == vs[k];
  }

  /** With distinct names the run visits entries 0, 1, 2, ..., and call number |vs| returns NULL. */
  lemma DistinctRun(mem: string, size: nat, vs: seq<Var>)
    requires Stored(mem, size, vs) && vs != [] && Distinct(vs)
    ensures forall k | 0 <= k < |vs| :: Iter(mem, size, k) == InEnv(Offset(vs, k))
    ensures Iter(mem, size, |vs|) == Null
  {
    var n := |vs| - 1;
    DistinctPrefix(vs, n);
    DistinctAdvances(mem, size, vs, n);
    forall k | 0 <= k < |vs|
      ensures Iter(mem, size, k) == InEnv(Offset(vs, k))
    {
      AdvancingRun(Enum(mem, size), vs, n, k);
    }
    FinalCall(mem, size, vs, n);
  }

  lemma DistinctPrefix(vs: seq<Var>, k: nat)
    requires Distinct(vs) && k <= |vs|
    ensures Distinct(vs[..k])
  {
  }

  lemma FinalCall(mem: string, size: nat, vs: seq<Var>, k: nat)
    requires Stored(mem, size, vs) && Distinct(vs) && k + 1 == |vs|
    requires Iter(mem, size, k) == InEnv(Offset(vs, k))
    ensures Iter(mem, size, k + 1) == Null
  {
    StepOnList(mem, size, vs, k);
    IndexOfDistinct(vs, k);
  }

  /**
   Round trip: write a list of distinctly named variables as an image, enumerate from
   NULL, and read the string at each returned address: the list comes back, in order,
   and the call after that returns NULL.
   */
  lemma RoundTrip(mem: string, size: nat, vs: seq<Var>)
    requires Holds(mem, vs) && Offset(vs, |vs|) <= size + 1 && Distinct(vs) && vs != []
    ensures forall k | 0 <= k < |vs| ::
              var p := Iter(mem, size, k); p.InEnv? && p.off < |mem| && VarAt(mem, p.off) == vs[k]
    ensures Iter(mem, size, |vs|) == Null
  {
    HoldsIsLaid(mem, vs);
    DistinctRun(mem, size, vs);
    forall k | 0 <= k < |vs|
      ensures var p := Iter(mem, size, k); p.InEnv? && p.off < |mem| && VarAt(mem, p.off) == vs[k]
    {
      assert EntryAt(mem, vs, k);
    }
  }

  /** Where the enumeration of a list with distinct names stands at call k. */
  function Place(vs: seq<Var>, k: nat): Ptr {
    if k < |vs| then InEnv(Offset(vs, k)) else Null
  }

  lemma NextPlace(mem: string, size: nat, vs: seq<Var>, room: nat, k: nat)
    requires Holds(mem, vs) && |Image(vs)| <= room <= size
    requires Distinct(vs) && k < |vs|
    ensures Offset(vs, k) < |mem| && VarAt(mem, Offset(vs, k)) == vs[k]
    ensures EnumResult(mem, size, Place(vs, k)) == Place(vs, k + 1)
  {
    FittingIsStored(mem, size, vs, room);
    EntryText(mem, vs, k);
    assert EntryAt(mem, vs, k);
    StepOnList(mem, size, vs, k);
    IndexOfDistinct(vs, k);
  }

  // ----- A repeated name: the run is caught in a cycle

  /** j is the first entry whose name occurred before, at i. */
  ghost predicate FirstRepeat(vs: seq<Var>, i: nat, j: nat) {
    i < j < |vs| && Distinct(vs[..j]) && vs[i].name == vs[j].name
  }

  lemma {:induction false} RepeatExists(vs: seq<Var>, n: nat) returns (i: nat, j: nat)
    requires n <= |vs| && !Distinct(vs[..n])
    ensures FirstRepeat(vs, i, j)
  {
    if Distinct(vs[..n - 1]) {
      j := n - 1;
      i := IndexOf(vs, vs[j].name);
      var a, b :| 0 <= a < b < n && vs[..n][a].name == vs[..n][b].name;
      assert vs[..n - 1][a] == vs[a];
      assert vs[..n - 1] == vs[..j];
    } else {
      i, j := RepeatExists(vs, n - 1);
    }
  }

  /** Where the run stands at call k when the first repeat is (i, j): past j, positions recur with period j - i. */
  function CyclePos(i: nat, j: nat, k: nat): (pos: nat)
    requires i < j
    ensures pos <= j && (k > i ==> pos > i)
  {
    if k <= j then k else CyclePos(i, j, k - (j - i))
  }

  function NextPos(i: nat, j: nat, pos: nat): nat {
    if pos == j then i + 1 else pos + 1
  }

  lemma {:induction false} CycleNext(i: nat, j: nat, k: nat)
    requires i < j && k > 0
    ensures CyclePos(i, j, k) == NextPos(i, j, CyclePos(i, j, k - 1))
  {
    if k - 1 <= j {
    } else {
      CycleNext(i, j, k - (j - i));
    }
  }

  /** Feeding back entry pos <= j yields entry pos + 1, and feeding back entry j yields entry i + 1. */
  ghost predicate Cycles(f: Ptr -> Ptr, vs: seq<Var>, i: nat, j: nat) {
    && i < j < |vs| && f(Null) == InEnv(0)
    && forall pos | 0 <= pos <= j :: FeedsTo(f, vs, pos, NextPos(i, j, pos))
  }

  lemma RepeatCycles(mem: string, size: nat, vs: seq<Var>, i: nat, j: nat)
    requires Stored(mem, size, vs) && FirstRepeat(vs, i, j)
    ensures Cycles(Enum(mem, size), vs, i, j)
  {
    forall pos | 0 <= pos <= j ensures FeedsTo(Enum(mem, size), vs, pos, NextPos(i, j, pos)) {
      StepOnList(mem, size, vs, pos);
      PrefixIndex(vs, j, if pos < j then pos else i);
    }
  }

  lemma {:induction false} CyclingRun(f: Ptr -> Ptr, vs: seq<Var>, i: nat, j: nat, k: nat) returns (pos: nat)
    requires Cycles(f, vs, i, j)
    ensures pos == CyclePos(i, j, k) && Calls(f, k) == InEnv(Offset(vs, pos))
  {
    if k == 0 {
      pos := 0;
    } else {
      var before := CyclingRun(f, vs, i, j, k - 1);
      CycleNext(i, j, k);
      pos := NextPos(i, j, before);
      assert FeedsTo(f, vs, before, pos);
    }
  }

  /** The run passes entries 0..j once and then goes round entries i+1..j for ever. */
  lemma CycleRun(mem: string, size: nat, vs: seq<Var>, i: nat, j: nat, k: nat)
    requires Stored(mem, size, vs) && FirstRepeat(vs, i, j)
    ensures Iter(mem, size, k) == InEnv(Offset(vs, CyclePos(i, j, k)))
  {
    RepeatCycles(mem, size, vs, i, j);
    var pos := CyclingRun(Enum(mem, size), vs, i, j, k);
  }

  // ----- A block that closes too late for the scan

  lemma {:induction false} HitInside(mem: string, size: nat, s: string, i: nat)
    requires i <= |mem|
    ensures var f := Find(mem, size, s, i); f.Hit? ==> f.end <= size && f.end < |mem| && mem[f.end] == NUL
    decreases |mem| - i
  {
    if i < |mem| && mem[i] != NUL && StrEnd(mem, i) < |mem| {
      HitInside(mem, size, s, StrEnd(mem, i) + 1);
    }
  }

  lemma NoMoreNeedsClosing(mem: string, size: nat, s: string, t: nat)
    requires NoClosingBefore(mem, t) && t > size + 1
    ensures Next(mem, size, s) != NoMore
  {
    HitInside(mem, size, s, 0);
    var f := Find(mem, size, s, 0);
    assert f.Hit? && f.end + 1 < |mem| ==> !Closing(mem, f.end + 1);
  }

  /** When the closing string lies beyond the scan, no call finds it. */
  lemma NeverNoMore(mem: string, size: nat, vs: seq<Var>, s: string)
    requires Laid(mem, vs) && Offset(vs, |vs|) > size + 1
    ensures Next(mem, size, s) != NoMore
  {
    NoClosingInside(mem, vs, |vs|);
    NoMoreNeedsClosing(mem, size, s, Offset(vs, |vs|));
  }

  lemma CutOffRun(mem: string, size: nat, vs: seq<Var>, k: nat)
    requires Laid(mem, vs) && Offset(vs, |vs|) > size + 1
    ensures Iter(mem, size, k) != Null
  {
    var last := if k == 0 then Null else Calls(Enum(mem, size), k - 1);
    assert Iter(mem, size, k) == EnumResult(mem, size, last);
    NeverNoMore(mem, size, vs, Text(mem, last));
  }

  /**
   The enumeration of a non-empty block ends exactly when all names are distinct and
   the closing string is no further than one cell past CONFIG_ENV_SIZE.
   */
  lemma EndsIff(mem: string, size: nat, vs: seq<Var>)
    requires Holds(mem, vs) && vs != []
    ensures ReachesNull(mem, size) <==> Distinct(vs) && Offset(vs, |vs|) <= size + 1
  {
    HoldsIsLaid(mem, vs);
    if Offset(vs, |vs|) > size + 1 {
      forall k: nat ensures Iter(mem, size, k) != Null {
        CutOffRun(mem, size, vs, k);
      }
    } else if Distinct(vs) {
      DistinctRun(mem, size, vs);
    } else {
      assert vs[..|vs|] == vs;
      var i, j := RepeatExists(vs, |vs|);
      forall k: nat ensures Iter(mem, size, k) != Null {
        CycleRun(mem, size, vs, i, j, k);
      }
    }
  }

  /** An empty block: every call returns the same empty string, and NULL never comes. */
  lemma {:induction false} EmptyNeverEnds(mem: string, size: nat, k: nat)
    requires Stored(mem, size, [])
    ensures Iter(mem, size, k) == InEnv(0)
  {
    if k == 0 {
    } else {
      EmptyNeverEnds(mem, size, k - 1);
    }
  }
}
