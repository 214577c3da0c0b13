/**
 What an edit of the block does to a client that stands in the middle of it: the
 address it was given may no longer be the start of the entry it named.
 */
module EnvShift {
  import opened EnvFormat
  import opened EnvScan
  import opened EnvList
  import opened EnvApi
  import opened EnvRun
  import opened EnvSet
  import opened EnvBlock
  import opened EnvHistory

  /** setenv leaves everything in front of the variable it is about. */
  lemma SetKeepsPrefix(policy: Policy, vs: seq<Var>, name: string, value: string, room: nat, n: nat)
    requires n <= IndexOf(vs, name)
    ensures var now := SetList(policy, vs, name, value, room); n <= |now| && now[..n] == vs[..n]
  {
    EditedPrefix(vs, name, value, room, n);
  }

  lemma {:induction false} OffsetOfPrefix(a: seq<Var>, b: seq<Var>, n: nat, k: nat)
    requires k <= n <= |a| && n <= |b| && a[..n] == b[..n]
    ensures Offset(a, k) == Offset(b, k)
  {
    if k == 0 {
    } else {
      OffsetOfPrefix(a, b, n, k - 1);
      assert a[k - 1] == a[..n][k - 1] == b[..n][k - 1] == b[k - 1];
    }
  }

  lemma OffsetStrict(vs: seq<Var>, a: nat, b: nat)
    requires a < b <= |vs|
    ensures Offset(vs, a) < Offset(vs, b)
  {
    OffsetMonotone(vs, a + 1, b);
  }

  /** A client at entry k has seen the entries up to k; where the first unseen one is after an edit of entry a. */
  function Unseen(a: nat, k: nat): nat {
    if a > k then k + 1 else k
  }

  /** Some string ends at or behind t. */
  ghost predicate EndsFrom(mem: string, t: nat) {
    exists x :: t <= x < |mem| && mem[x] == NUL
  }

  /** Then text at any earlier address can be read. */
  lemma ReadsToEnd(mem: string, p: nat, t: nat)
    requires p <= t && EndsFrom(mem, t)
    ensures p <= |mem| && Terminated(mem[p..], 0)
  {
    var x :| t <= x < |mem| && mem[x] == NUL;
    NameEndSuffix(mem, p, 0);
    assert NameEnd(mem, p) <= x;
  }

  /** An edit leaves the string that ends there, or writes an image that ends behind it. */
  lemma EditEndsFrom(mem: string, now: seq<Var>, t: nat)
    requires EndsFrom(mem, t)
    ensures EndsFrom(Overwritten(mem, now), t)
  {
    var x :| t <= x < |mem| && mem[x] == NUL;
    var after, n := Overwritten(mem, now), |Image(now)|;
    if n <= |mem| {
      assert Image(now)[n - 1] == NUL;
      assert after[if x < n then n - 1 else x] == NUL;
    }
  }

  lemma OldEnd(mem: string, vs: seq<Var>, k: nat)
    requires Holds(mem, vs) && k <= |vs|
    ensures Offset(vs, k) <= Offset(vs, |vs|) && EndsFrom(mem, Offset(vs, |vs|))
  {
    OffsetMonotone(vs, k, |vs|);
    ClosingInMemory(mem, vs);
  }

  /** Where the step from an address p leads, by the name that is read there. */
  lemma StepFrom(mem: string, size: nat, vs: seq<Var>, p: nat, s: nat)
    requires Stored(mem, size, vs) && Distinct(vs) && s <= |vs|
    requires p <= |mem| && Terminated(mem[p..], 0)
    ensures GoesOn(mem, size, p, vs, s) <==> s > 0 && NameAt(mem[p..], 0) == vs[s - 1].name
  {
    var name := NameAt(mem[p..], 0);
    var j := IndexOf(vs, name);
    NextOnList(mem, size, vs, mem[p..]);
    if s > 0 && name == vs[s - 1].name {
      IndexOfDistinct(vs, s - 1);
    } else if j == |vs| {
      if s < |vs| && p == Offset(vs, s) {
        EntryText(mem, vs, s);
      }
    } else if j + 1 < |vs| && s < |vs| {
      assert j + 1 != s;
      if j + 1 < s {
        OffsetStrict(vs, j + 1, s);
      } else {
        OffsetStrict(vs, s, j + 1);
      }
    }
  }

  /**
   The client stands at entry k when setenv edits the variable at index a (|vs| if it is
   new) and the block becomes `now`. Its next call, with the old address, goes on to the
   first entry it has not seen exactly when the text now at that address spells the name
   of the entry before that one, which for a != k is still entry k of the old list. That
   is so if a > k; it is not if a == k, unless that entry was the last and is gone.
   */
  lemma EditUndisturbedIff(after: string, size: nat, vs: seq<Var>, name: string, value: string, room: nat, k: nat)
    requires Distinct(vs) && k < |vs| && EndsFrom(after, Offset(vs, |vs|))
    requires var now := Edited(vs, name, value, room); Holds(after, now) && |Image(now)| <= room <= size
    ensures Disturbance(after, size, vs, Edited(vs, name, value, room), IndexOf(vs, name), k)
  {
    var a, now := IndexOf(vs, name), Edited(vs, name, value, room);
    EditedDistinct(vs, name, value, room);
    EditedLength(vs, name, value, room);
    FittingIsStored(after, size, now, room);
    if a != k {
      EditedEntry(vs, name, value, room, k);
    }
    if a >= k {
      EditedPrefix(vs, name, value, room, k);
    }
    DisturbanceOf(after, size, vs, now, a, k);
  }

  lemma DisturbanceOf(after: string, size: nat, vs: seq<Var>, now: seq<Var>, a: nat, k: nat)
    requires Stored(after, size, now) && Distinct(now) && k < |vs| && Unseen(a, k) <= |now|
    requires EndsFrom(after, Offset(vs, |vs|))
    requires a != k ==> Unseen(a, k) > 0 && now[Unseen(a, k) - 1] == vs[k]
    requires a >= k ==> k <= |now| && now[..k] == vs[..k]
    ensures Disturbance(after, size, vs, now, a, k)
  {
    OffsetMonotone(vs, k, |vs|);
    ReadsToEnd(after, Offset(vs, k), Offset(vs, |vs|));
    StepFrom(after, size, now, Offset(vs, k), Unseen(a, k));
    if a >= k && k < |now| {
      TextInPlace(after, now, vs, k);
    }
  }

  /** When an edit at index a leaves a client at entry k undisturbed. */
  ghost predicate Disturbance(after: string, size: nat, vs: seq<Var>, now: seq<Var>, a: nat, k: nat) {
    k <= |vs|
    && var p, s := Offset(vs, k), Unseen(a, k);
    && s <= |now| && p <= |after|
    && (a != k ==> 0 < s && k < |vs| && now[s - 1] == vs[k])
    && (GoesOn(after, size, p, now, s) <==> s > 0 && NameAt(after[p..], 0) == now[s - 1].name)
    && (a > k ==> GoesOn(after, size, p, now, s))
    && (a == k < |now| ==> !GoesOn(after, size, p, now, s))
  }

  /** A call with the address p yields entry s, or NULL at the end. */
  ghost predicate GoesOn(mem: string, size: nat, p: nat, vs: seq<Var>, s: nat) {
    EnumResult(mem, size, InEnv(p)) == Place(vs, s)
  }

  lemma TextInPlace(mem: string, now: seq<Var>, vs: seq<Var>, k: nat)
    requires Laid(mem, now) && k < |now| && k <= |vs| && now[..k] == vs[..k]
    ensures Offset(vs, k) <= |mem| && NameAt(mem[Offset(vs, k)..], 0) == now[k].name
  {
    OffsetOfPrefix(now, vs, k, k);
    EntryText(mem, now, k);
  }

  lemma EditedEntry(vs: seq<Var>, name: string, value: string, room: nat, k: nat)
    requires k < |vs| && k != IndexOf(vs, name)
    ensures var now, s := Edited(vs, name, value, room), Unseen(IndexOf(vs, name), k); 0 < s <= |now| && now[s - 1] == vs[k]
  {
  }

  lemma EditedDistinct(vs: seq<Var>, name: string, value: string, room: nat)
    requires Distinct(vs)
    ensures Distinct(Edited(vs, name, value, room))
  {
    RemoveDistinct(vs, name);
    RemoveAll(vs, name);
    assert IndexOf(Remove(vs, name), name) == |Remove(vs, name)|;
  }

  lemma EditedLength(vs: seq<Var>, name: string, value: string, room: nat)
    ensures |Edited(vs, name, value, room)| >= if Defines(vs, name) then |vs| - 1 else |vs|
  {
  }

  lemma EditedPrefix(vs: seq<Var>, name: string, value: string, room: nat, n: nat)
    requires n <= IndexOf(vs, name)
    ensures var now := Edited(vs, name, value, room); n <= |now| && now[..n] == vs[..n]
  {
  }
}
