/**
 The byte scan refines a search in the list of variables: when the block holds
 `vs` and closes in time, getenv finds the first variable of that name and
 API_env_enum yields the entry after it.
 */
module EnvList {
  import opened EnvFormat
  import opened Slices
  import opened EnvScan

  /** Memory at i reads as the variable v: name, '=', value, NUL. */
  ghost predicate ReadsAs(mem: string, i: nat, v: Var) {
    && i + |v.name| + |v.value| + 1 < |mem|
    && NameEnd(mem, i) == i + |v.name|
    && mem[i + |v.name|] == EQ
    && StrEnd(mem, i) == i + |v.name| + |v.value| + 1
    && VarAt(mem, i) == v
  }

  ghost predicate EntryAt(mem: string, vs: seq<Var>, k: nat)
    requires k < |vs|
  {
    ReadsAs(mem, Offset(vs, k), vs[k])
  }

  /** The block reads as the list `vs`, entry by entry, and then closes. */
  ghost predicate Laid(mem: string, vs: seq<Var>) {
    && (forall k | 0 <= k < |vs| :: EntryAt(mem, vs, k))
    && Offset(vs, |vs|) < |mem| && mem[Offset(vs, |vs|)] == NUL
  }

  /** The block holds `vs` and its closing string lies where the scan still looks. */
  ghost predicate Stored(mem: string, size: nat, vs: seq<Var>) {
    Laid(mem, vs) && Offset(vs, |vs|) <= size + 1
  }

  // ----- Writing the image and reading it entry by entry agree

  lemma {:induction false} StrEndIs(mem: string, i: nat, n: nat)
    requires i <= n < |mem| && mem[n] == NUL && forall k | i <= k < n :: mem[k] != NUL
    ensures StrEnd(mem, i) == n
    decreases n - i
  {
    if i == n {
    } else {
      StrEndIs(mem, i + 1, n);
    }
  }

  lemma {:induction false} NameEndIs(mem: string, i: nat, n: nat)
    requires i <= n < |mem| && (mem[n] == NUL || mem[n] == EQ)
    requires forall k | i <= k < n :: mem[k] != NUL && mem[k] != EQ
    ensures NameEnd(mem, i) == n
    decreases n - i
  {
    if i == n {
    } else {
      NameEndIs(mem, i + 1, n);
    }
  }

  /** An entry in memory, cell by cell. */
  lemma EntryCells(mem: string, i: nat, v: Var)
    requires EntryIn(mem, i, v)
    ensures |Entry(v)| == |v.name| + |v.value| + 2
    ensures mem[i..i + |v.name|] == v.name
    ensures mem[i + |v.name|] == EQ
    ensures mem[i + |v.name| + 1..i + |v.name| + 1 + |v.value|] == v.value
    ensures mem[i + |v.name| + 1 + |v.value|] == NUL
  {
    var e, a, b := Entry(v), |v.name|, |v.name| + 1 + |v.value|;
    assert |e| == b + 1;
    assert mem[i..i + |e|][a] == mem[i + a] && mem[i..i + |e|][b] == mem[i + b];
    SubSlice(mem, i, |e|, 0, a);
    SubSlice(mem, i, |e|, a + 1, b);
    assert e[0..a] == v.name && e[a + 1..b] == v.value;
  }

  lemma EntryReads(mem: string, i: nat, v: Var)
    requires EntryIn(mem, i, v) && GoodVar(v)
    ensures ReadsAs(mem, i, v)
  {
    EntryCells(mem, i, v);
    var name, value := mem[i..i + |v.name|], mem[i + |v.name| + 1..i + |v.name| + 1 + |v.value|];
    assert forall x | i <= x < i + |v.name| :: mem[x] == name[x - i];
    assert forall x | i + |v.name| + 1 <= x < i + |v.name| + 1 + |v.value| ::
        mem[x] == value[x - (i + |v.name| + 1)];
    StrEndIs(mem, i, i + |v.name| + |v.value| + 1);
    NameEndIs(mem, i, i + |v.name|);
  }

  lemma ReadsEntry(mem: string, i: nat, v: Var)
    requires ReadsAs(mem, i, v)
    ensures EntryIn(mem, i, v) && GoodVar(v)
  {
    var n, e := i + |v.name|, i + |v.name| + |v.value| + 1;
    assert v.name == mem[i..n] && v.value == mem[n + 1..e];
    assert mem[i..e + 1] == mem[i..n] + [mem[n]] + mem[n + 1..e] + [mem[e]];
  }

  /** Memory that holds the image of a list reads as that list. */
  lemma HoldsIsLaid(mem: string, vs: seq<Var>)
    requires Holds(mem, vs)
    ensures Laid(mem, vs)
  {
    forall k | 0 <= k < |vs|
      ensures EntryAt(mem, vs, k)
    {
      assert GoodAt(vs, k);
      EntryInMemory(mem, vs, k);
      EntryReads(mem, Offset(vs, k), vs[k]);
    }
    ClosingInMemory(mem, vs);
  }

  lemma {:induction false} LaidPrefix(mem: string, vs: seq<Var>, k: nat)
    requires Laid(mem, vs) && k <= |vs|
    ensures Offset(vs, k) <= |mem| && mem[..Offset(vs, k)] == Entries(vs[..k])
  {
    if k == 0 {
    } else {
      LaidPrefix(mem, vs, k - 1);
      EntriesSnoc(vs, k - 1);
      assert EntryAt(mem, vs, k - 1);
      PrefixGrows(mem, Offset(vs, k - 1), vs[k - 1], Entries(vs[..k - 1]));
    }
  }

  lemma PrefixGrows(mem: string, i: nat, v: Var, before: string)
    requires ReadsAs(mem, i, v) && mem[..i] == before
    ensures i + |v.name| + |v.value| + 2 <= |mem|
    ensures mem[..i + |v.name| + |v.value| + 2] == before + Entry(v)
  {
    ReadsEntry(mem, i, v);
    assert |Entry(v)| == |v.name| + |v.value| + 2;
    SplitPrefix(mem, i, i + |Entry(v)|);
  }

  /** And conversely: reading back a list means that its image is stored. */
  lemma LaidIsHeld(mem: string, vs: seq<Var>)
    requires Laid(mem, vs) && (vs == [] ==> |mem| > 1 && mem[1] == NUL)
    ensures Holds(mem, vs)
  {
    forall k | 0 <= k < |vs| ensures GoodAt(vs, k) {
      assert EntryAt(mem, vs, k);
      ReadsEntry(mem, Offset(vs, k), vs[k]);
    }
    LaidPrefix(mem, vs, |vs|);
    assert vs[..|vs|] == vs;
    OffsetIs(vs, |vs|);
    var t := Offset(vs, |vs|);
    assert mem[..t + 1] == mem[..t] + [NUL];
  }

  // ----- The scan on a list

  lemma EndBound(mem: string, size: nat, vs: seq<Var>, k: nat)
    requires Stored(mem, size, vs) && k <= |vs|
    ensures Offset(vs, k) <= size + 1 && Offset(vs, k) < |mem|
    ensures mem[Offset(vs, k)] == NUL <==> k == |vs|
  {
    OffsetMonotone(vs, k, |vs|);
    if k < |vs| {
      assert EntryAt(mem, vs, k);
    }
  }

  lemma FindStep(mem: string, size: nat, s: string, i: nat, v: Var)
    requires ReadsAs(mem, i, v) && Terminated(s, 0)
    requires i + |v.name| + |v.value| + 1 <= size
    ensures Find(mem, size, s, i) ==
            if v.name == NameAt(s, 0)
            then Hit(i, i + |v.name| + |v.value| + 1, i + |v.name| + 1)
            else Find(mem, size, s, i + |v.name| + |v.value| + 2)
  {
    CompareMeaning(s, mem, i);
  }

  /** Entry k as an answer of the scan: its start, its NUL, and its value. */
  function EntryHit(vs: seq<Var>, k: nat): Found
    requires k < |vs|
  {
    var i := Offset(vs, k);
    Hit(i, i + |vs[k].name| + |vs[k].value| + 1, i + |vs[k].name| + 1)
  }

  function ListFind(vs: seq<Var>, name: string): Found {
    var at := IndexOf(vs, name);
    if at == |vs| then Miss else EntryHit(vs, at)
  }

  lemma FindHere(mem: string, size: nat, vs: seq<Var>, s: string, k: nat)
    requires Stored(mem, size, vs) && Terminated(s, 0) && k < |vs|
    ensures Offset(vs, k) < |mem| && Offset(vs, k + 1) < |mem|
    ensures Find(mem, size, s, Offset(vs, k)) ==
            if vs[k].name == NameAt(s, 0) then EntryHit(vs, k) else Find(mem, size, s, Offset(vs, k + 1))
  {
    EndBound(mem, size, vs, k);
    EndBound(mem, size, vs, k + 1);
    assert EntryAt(mem, vs, k);
    FindStep(mem, size, s, Offset(vs, k), vs[k]);
  }

  lemma {:induction false} FindOnListFrom(mem: string, size: nat, vs: seq<Var>, s: string, k: nat)
    requires Stored(mem, size, vs) && Terminated(s, 0)
    requires k <= |vs| && forall j | 0 <= j < k :: vs[j].name != NameAt(s, 0)
    ensures Offset(vs, k) < |mem|
    ensures Find(mem, size, s, Offset(vs, k)) == ListFind(vs, NameAt(s, 0))
    decreases |vs| - k
  {
    EndBound(mem, size, vs, k);
    if k == |vs| {
      IndexOfIs(vs, NameAt(s, 0), k);
    } else {
      FindHere(mem, size, vs, s, k);
      if vs[k].name == NameAt(s, 0) {
        IndexOfIs(vs, NameAt(s, 0), k);
      } else {
        FindOnListFrom(mem, size, vs, s, k + 1);
      }
    }
  }

  /** The search ends at the first variable of that name, or misses. */
  lemma FindOnList(mem: string, size: nat, vs: seq<Var>, s: string)
    requires Stored(mem, size, vs) && Terminated(s, 0)
    ensures Find(mem, size, s, 0) == ListFind(vs, NameAt(s, 0))
  {
    FindOnListFrom(mem, size, vs, s, 0);
  }

  lemma NextAfterHit(mem: string, size: nat, s: string, next: nat)
    requires var f := Find(mem, size, s, 0); f.Hit? && f.end + 1 == next < |mem|
    ensures Next(mem, size, s) == if mem[next] == NUL then NoMore else At(next)
  {
  }

  lemma HitEnd(vs: seq<Var>, at: nat)
    requires at < |vs|
    ensures EntryHit(vs, at).Hit? && EntryHit(vs, at).end + 1 == Offset(vs, at + 1)
  {
  }

  /** One step of the enumeration, seen on the list. */
  lemma NextOnList(mem: string, size: nat, vs: seq<Var>, s: string)
    requires Stored(mem, size, vs) && Terminated(s, 0)
    ensures var at := IndexOf(vs, NameAt(s, 0));
            Next(mem, size, s) ==
            if at == |vs| then Same
            else if at == |vs| - 1 then NoMore
            else At(Offset(vs, at + 1))
  {
    FindOnList(mem, size, vs, s);
    var at := IndexOf(vs, NameAt(s, 0));
    if at < |vs| {
      EndBound(mem, size, vs, at + 1);
      HitEnd(vs, at);
      NextAfterHit(mem, size, s, Offset(vs, at + 1));
    }
  }

  lemma ClosingAfter(mem: string, i: nat, v: Var, t: nat)
    requires ReadsAs(mem, i, v) && t == i + |v.name| + |v.value| + 2
    requires t < |mem| && mem[t] == NUL
    ensures Closing(mem, t)
  {
  }

  lemma BeforeClosing(mem: string, vs: seq<Var>)
    requires Laid(mem, vs)
    ensures Closing(mem, Offset(vs, |vs|))
  {
    if vs != [] {
      var k := |vs| - 1;
      assert EntryAt(mem, vs, k);
      ClosingAfter(mem, Offset(vs, k), vs[k], Offset(vs, k + 1));
    }
  }

  /** A block that holds a list is readable, and closes at the end of the list. */
  lemma StoredIsReadable(mem: string, size: nat, vs: seq<Var>)
    requires Stored(mem, size, vs)
    ensures ClosedBy(mem, size, Offset(vs, |vs|)) && Readable(mem, size)
  {
    BeforeClosing(mem, vs);
    var t := Offset(vs, |vs|);
    assert ClosedBy(mem, size, t);
  }

  ghost predicate NoClosingBefore(mem: string, t: nat) {
    forall j | 0 <= j < t && j < |mem| :: !Closing(mem, j)
  }

  lemma {:induction false} NoClosingInside(mem: string, vs: seq<Var>, k: nat)
    requires Laid(mem, vs) && k <= |vs|
    ensures Offset(vs, k) <= |mem| && NoClosingBefore(mem, Offset(vs, k))
  {
    if k == 0 {
    } else {
      NoClosingInside(mem, vs, k - 1);
      assert EntryAt(mem, vs, k - 1);
      var i := Offset(vs, k - 1);
      assert StrEnd(mem, i) + 1 == Offset(vs, k);
    }
  }

  /** A block whose image fits its room is stored for any larger scan size. */
  lemma FittingIsStored(mem: string, size: nat, vs: seq<Var>, room: nat)
    requires Holds(mem, vs) && |Image(vs)| <= room <= size
    ensures Stored(mem, size, vs) && Readable(mem, size)
  {
    HoldsIsLaid(mem, vs);
    ClosingInMemory(mem, vs);
    StoredIsReadable(mem, size, vs);
  }
}
