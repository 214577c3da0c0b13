/**
 The memory-region table: platform_set_mr (api/api.c), the bank loop of
 platform_sys_info (api/api_platform-arm.c), API_get_sys_info around it, and the
 cleared table the consumer passes in (examples/api/glue.c).
 */
module Regions {
  import opened ApiPublic

  const UB_MAX_MR := 5

  datatype Region = Region(start: nat, size: nat, flags: int)
  datatype Bank = Bank(start: nat, size: nat)

  class SysInfo {
    var mr: array?<Region>
    var mrNo: int

    constructor (mr: array?<Region>, mrNo: int)
      ensures this.mr == mr && this.mrNo == mrNo
    {
      this.mr, this.mrNo := mr, mrNo;
    }
  }

  /** The first unused slot below n, or n when there is none. */
  function FirstFree(t: seq<Region>, n: int): (k: int)
    requires n <= |t|
    ensures 0 <= k && (0 <= n ==> k <= n)
    ensures forall i | 0 <= i < k && i < n :: t[i].flags != 0
    ensures k < n ==> t[k].flags == 0
  {
    if n <= 0 then 0
    else
      var k := FirstFree(t, n - 1);
      if k < n - 1 || t[n - 1].flags == 0 then k else n
  }

  function SetMr(t: seq<Region>, n: int, r: Region): (u: seq<Region>)
    requires n <= |t|
    ensures |u| == |t|
  {
    if r.size == 0 || r.flags == 0 then t
    else
      var k := FirstFree(t, n);
      if k < n then t[k := r] else t
  }

  /**
   A region with a size and flags goes into the first slot below n that is free; without
   one, or with no size or no flags, the table stays.
   */
  lemma SetMrPlaces(t: seq<Region>, n: int, r: Region)
    requires n <= |t|
    ensures r.size == 0 || r.flags == 0 || (forall i | 0 <= i < n :: t[i].flags != 0) ==> SetMr(t, n, r) == t
    ensures forall k | 0 <= k < n && t[k].flags == 0 && (forall i | 0 <= i < k :: t[i].flags != 0) ::
              r.size != 0 && r.flags != 0 ==> SetMr(t, n, r) == t[k := r]
  {
  }

  /** The table after one pass over the banks. */
  function Fill(t: seq<Region>, n: int, banks: seq<Bank>): (u: seq<Region>)
    requires n <= |t|
    ensures |u| == |t|
  {
    if banks == [] then t
    else
      var b := banks[|banks| - 1];
      SetMr(Fill(t, n, banks[..|banks| - 1]), n, Region(b.start, b.size, MR_ATTR_DRAM))
  }

  method PlatformSetMr(si: SysInfo, start: nat, size: nat, flags: int)
    requires si.mr != null ==> si.mrNo <= si.mr.Length
    modifies si.mr
    ensures si.mr != null ==> si.mr[..] == SetMr(old(si.mr[..]), si.mrNo, Region(start, size, flags))
  {
    if si.mr == null || size == 0 || flags == 0 {
      return;
    }
    var mr := si.mr;
    var i := 0;
    while i < si.mrNo
      invariant 0 <= i
      invariant i < si.mrNo ==> forall j | 0 <= j < i :: mr[j].flags != 0
      invariant si.mrNo >= 0 ==> i <= si.mrNo && forall j | 0 <= j < i :: mr[j].flags != 0
      invariant mr[..] == old(si.mr[..])
    {
      if mr[i].flags == 0 {
        mr[i] := Region(start, size, flags);
        return;
      }
      i := i + 1;
    }
  }

  method PlatformSysInfo(si: SysInfo, banks: seq<Bank>) returns (ok: int)
    requires si.mr != null ==> si.mrNo <= si.mr.Length
    modifies si.mr
    ensures ok == 1
    ensures si.mr != null ==> si.mr[..] == Fill(old(si.mr[..]), si.mrNo, banks)
  {
    for i := 0 to |banks|
      invariant si.mr == old(si.mr) && si.mrNo == old(si.mrNo)
      invariant si.mr != null ==> si.mr[..] == Fill(old(si.mr[..]), si.mrNo, banks[..i])
    {
      PlatformSetMr(si, banks[i].start, banks[i].size, MR_ATTR_DRAM);
      assert banks[..i + 1][..i] == banks[..i];
    }
    assert banks[..|banks|] == banks;
    return 1;
  }

  method ApiGetSysInfo(si: SysInfo?, banks: seq<Bank>) returns (rc: int)
    requires si != null && si.mr != null ==> si.mrNo <= si.mr.Length
    modifies if si == null then {} else {si.mr}
    ensures rc == if si == null then API_ENOMEM else 0
    ensures si != null && si.mr != null ==> si.mr[..] == Fill(old(si.mr[..]), si.mrNo, banks)
  {
    if si == null {
      return API_ENOMEM;
    }
    var ok := PlatformSysInfo(si, banks);
    return if ok != 0 then 0 else API_ENODEV;
  }

  // ----- The free slots, in order

  function Free(t: seq<Region>, n: int): (f: seq<nat>)
    requires n <= |t|
    ensures forall j | 0 <= j < |f| :: f[j] < n
  {
    if n <= 0 then []
    else Free(t, n - 1) + if t[n - 1].flags == 0 then [n - 1] else []
  }

  /** `Free` lists exactly the unused slots below n, in ascending order. */
  lemma {:induction false} FreeLists(t: seq<Region>, n: int)
    requires n <= |t|
    ensures forall j | 0 <= j < |Free(t, n)| :: Free(t, n)[j] < n && t[Free(t, n)[j]].flags == 0
    ensures forall i: nat | i < n :: t[i].flags == 0 <==> i in Free(t, n)
    ensures forall a, b | 0 <= a < b < |Free(t, n)| :: Free(t, n)[a] < Free(t, n)[b]
    ensures 0 <= n ==> |Free(t, n)| <= n
  {
    if n <= 0 {
    } else {
      FreeLists(t, n - 1);
    }
  }

  function NonEmpty(banks: seq<Bank>): seq<Bank> {
    if banks == [] then []
    else
      var b := banks[|banks| - 1];
      var rest := NonEmpty(banks[..|banks| - 1]);
      if b.size == 0 then rest else rest + [b]
  }

  lemma {:induction false} FirstFreeIsHead(t: seq<Region>, n: int)
    requires n <= |t|
    ensures FirstFree(t, n) < n <==> Free(t, n) != []
    ensures Free(t, n) != [] ==> FirstFree(t, n) == Free(t, n)[0]
  {
    if n <= 0 {
    } else {
      FirstFreeIsHead(t, n - 1);
    }
  }

  lemma {:induction false} FreeUnchanged(t: seq<Region>, u: seq<Region>, n: int)
    requires n <= |t| == |u|
    requires forall i | 0 <= i < n :: u[i] == t[i]
    ensures Free(u, n) == Free(t, n)
  {
    if n <= 0 {
    } else {
      FreeUnchanged(t, u, n - 1);
    }
  }

  lemma {:induction false} FreeAfterUse(t: seq<Region>, n: int, r: Region)
    requires 0 <= n <= |t| && FirstFree(t, n) < n && r.flags != 0
    ensures Free(t, n) != []
    ensures Free(t[FirstFree(t, n) := r], n) == Free(t, n)[1..]
  {
    var k := FirstFree(t, n);
    FirstFreeIsHead(t, n);
    if k < n - 1 {
      FreeAfterUse(t, n - 1, r);
      TailOfConcat(Free(t, n - 1), if t[n - 1].flags == 0 then [n - 1] else []);
    } else {
      FirstFreeIsHead(t, n - 1);
      FreeUnchanged(t, t[k := r], n - 1);
    }
  }

  lemma TailOfConcat(a: seq<nat>, b: seq<nat>)
    requires a != []
    ensures (a + b)[1..] == a[1..] + b
  {
  }

  function Min(a: int, b: int): int {
    if a < b then a else b
  }

  /** `u` is `t` with the banks `b` in its first free slots, as far as they go. */
  ghost predicate Placed(t: seq<Region>, u: seq<Region>, n: int, b: seq<Bank>)
    requires n <= |t|
  {
    var f := Free(t, n);
    var m := Min(|f|, |b|);
    && |u| == |t|
    && (forall j | 0 <= j < m :: u[f[j]] == Region(b[j].start, b[j].size, MR_ATTR_DRAM))
    && (forall i | 0 <= i < |t| && i !in f[..m] :: u[i] == t[i])
    && Free(u, n) == f[m..]
  }

  /**
   Exact placement: the j-th non-empty bank sits in the j-th slot that was free,
   and every other slot, used or beyond the table's count, is unchanged.
   */
  lemma {:induction false} FillPlaces(t: seq<Region>, n: int, banks: seq<Bank>)
    requires n <= |t|
    ensures Placed(t, Fill(t, n, banks), n, NonEmpty(banks))
  {
    if banks == [] {
    } else {
      var b := banks[|banks| - 1];
      FillPlaces(t, n, banks[..|banks| - 1]);
      PlaceOne(t, Fill(t, n, banks[..|banks| - 1]), n, NonEmpty(banks[..|banks| - 1]), b);
    }
  }

  lemma PlaceOne(t: seq<Region>, u: seq<Region>, n: int, placed: seq<Bank>, b: Bank)
    requires n <= |t| && Placed(t, u, n, placed)
    ensures Placed(t, SetMr(u, n, Region(b.start, b.size, MR_ATTR_DRAM)), n,
                   if b.size == 0 then placed else placed + [b])
  {
    if b.size != 0 {
      FirstFreeIsHead(u, n);
      FreeLists(t, n);
      if |placed| < |Free(t, n)| {
        FreeAfterUse(u, n, Region(b.start, b.size, MR_ATTR_DRAM));
        PlaceNext(t, u, n, placed, b);
      } else {
        PlaceNone(t, u, n, placed, b);
      }
    }
  }

  lemma PlaceNext(t: seq<Region>, u: seq<Region>, n: int, placed: seq<Bank>, b: Bank)
    requires n <= |t| && Placed(t, u, n, placed) && |placed| < |Free(t, n)|
    requires forall j | 0 <= j < |Free(t, n)| :: Free(t, n)[j] < |t|
    requires forall x, y | 0 <= x < y < |Free(t, n)| :: Free(t, n)[x] < Free(t, n)[y]
    requires Free(u[Free(t, n)[|placed|] := Region(b.start, b.size, MR_ATTR_DRAM)], n) == Free(u, n)[1..]
    ensures Placed(t, u[Free(t, n)[|placed|] := Region(b.start, b.size, MR_ATTR_DRAM)], n, placed + [b])
  {
    var f, m := Free(t, n), |placed|;
    assert f[m..][1..] == f[m + 1..];
    assert f[..m + 1] == f[..m] + [f[m]];
    assert (placed + [b])[..m] == placed;
  }

  lemma PlaceNone(t: seq<Region>, u: seq<Region>, n: int, placed: seq<Bank>, b: Bank)
    requires n <= |t| && Placed(t, u, n, placed) && |placed| >= |Free(t, n)|
    ensures Free(u, n) == []
    ensures Placed(t, u, n, placed + [b])
  {
    var f := Free(t, n);
    assert f[|f|..] == [];
  }

  /** The number of slots in use among the first n. */
  function Used(t: seq<Region>, n: nat): int
    requires n <= |t|
  {
    n - |Free(t, n)|
  }

  /** The table after `times` passes over the same banks. */
  function FillTimes(t: seq<Region>, n: int, banks: seq<Bank>, times: nat): (u: seq<Region>)
    requires n <= |t|
    ensures |u| == |t|
  {
    if times == 0 then t else Fill(FillTimes(t, n, banks, times - 1), n, banks)
  }

  /** Repeated calls do not refresh the table: they use it up, up to its size. */
  lemma {:induction false} UsedAfter(t: seq<Region>, n: nat, banks: seq<Bank>, times: nat)
    requires n <= |t|
    ensures Used(FillTimes(t, n, banks, times), n) == Min(n, Used(t, n) + times * |NonEmpty(banks)|)
  {
    if times == 0 {
    } else {
      var u := FillTimes(t, n, banks, times - 1);
      UsedAfter(t, n, banks, times - 1);
      FillPlaces(u, n, banks);
      assert times * |NonEmpty(banks)| == (times - 1) * |NonEmpty(banks)| + |NonEmpty(banks)|;
    }
  }

  // ----- Conservation of memory

  /** The memory described by the used slots below n. */
  function Total(t: seq<Region>, n: int): nat
    requires n <= |t|
  {
    if n <= 0 then 0
    else Total(t, n - 1) + if t[n - 1].flags == 0 then 0 else t[n - 1].size
  }

  function BankTotal(b: seq<Bank>): nat {
    if b == [] then 0 else BankTotal(b[..|b| - 1]) + b[|b| - 1].size
  }

  lemma {:induction false} TotalAfterSet(t: seq<Region>, n: int, k: nat, r: Region)
    requires n <= |t| && k < |t| && t[k].flags == 0 && r.flags != 0
    ensures Total(t[k := r], n) == Total(t, n) + if k < n then r.size else 0
  {
    if n <= 0 {
    } else {
      TotalAfterSet(t, n - 1, k, r);
    }
  }

  lemma BankTotalOne(b: seq<Bank>, one: Bank)
    ensures BankTotal(b + [one]) == BankTotal(b) + one.size
  {
    assert (b + [one])[..|b|] == b;
  }

  /** A pass adds exactly the memory of the non-empty banks that found a slot. */
  lemma {:induction false} TotalAfterFill(t: seq<Region>, n: int, banks: seq<Bank>)
    requires n <= |t|
    ensures Total(Fill(t, n, banks), n) ==
            Total(t, n) + BankTotal(NonEmpty(banks)[..Min(|Free(t, n)|, |NonEmpty(banks)|)])
  {
    if banks == [] {
    } else {
      var rest, b := banks[..|banks| - 1], banks[|banks| - 1];
      TotalAfterFill(t, n, rest);
      FillPlaces(t, n, rest);
      if b.size != 0 {
        TotalOneMore(t, Fill(t, n, rest), n, NonEmpty(rest), b);
      }
    }
  }

  lemma TotalOneMore(t: seq<Region>, u: seq<Region>, n: int, placed: seq<Bank>, b: Bank)
    requires n <= |t| && Placed(t, u, n, placed) && b.size != 0
    requires Total(u, n) == Total(t, n) + BankTotal(placed[..Min(|Free(t, n)|, |placed|)])
    ensures Total(SetMr(u, n, Region(b.start, b.size, MR_ATTR_DRAM)), n) ==
            Total(t, n) + BankTotal((placed + [b])[..Min(|Free(t, n)|, |placed| + 1)])
  {
    FirstFreeIsHead(u, n);
    if |placed| < |Free(t, n)| {
      TotalAfterSet(u, n, FirstFree(u, n), Region(b.start, b.size, MR_ATTR_DRAM));
      BankTotalOne(placed, b);
      assert placed[..|placed|] == placed && (placed + [b])[..|placed| + 1] == placed + [b];
    } else {
      assert (placed + [b])[..|Free(t, n)|] == placed[..|Free(t, n)|];
    }
  }

  lemma {:induction false} PositiveBanks(banks: seq<Bank>)
    ensures forall b | b in NonEmpty(banks) :: b.size > 0
    ensures BankTotal(NonEmpty(banks)) == BankTotal(banks)
  {
    if banks == [] {
    } else {
      PositiveBanks(banks[..|banks| - 1]);
      BankTotalOne(NonEmpty(banks[..|banks| - 1]), banks[|banks| - 1]);
    }
  }

  lemma {:induction false} PrefixIsLess(b: seq<Bank>, m: nat)
    requires m <= |b| && forall x | x in b :: x.size > 0
    ensures BankTotal(b[..m]) <= BankTotal(b)
    ensures BankTotal(b[..m]) == BankTotal(b) <==> m == |b|
  {
    if m == |b| {
      assert b[..m] == b;
    } else {
      var c := b[..|b| - 1];
      assert c[..m] == b[..m] && b[|b| - 1] in b;
      PrefixIsLess(c, m);
    }
  }

  /** One call reports all of the memory exactly when there are enough free slots. */
  lemma AllMemoryIffRoom(t: seq<Region>, n: int, banks: seq<Bank>)
    requires n <= |t|
    ensures Total(Fill(t, n, banks), n) == Total(t, n) + BankTotal(banks)
       <==> |NonEmpty(banks)| <= |Free(t, n)|
  {
    TotalAfterFill(t, n, banks);
    PositiveBanks(banks);
    PrefixIsLess(NonEmpty(banks), Min(|Free(t, n)|, |NonEmpty(banks)|));
  }

  // ----- The consumer's cleared table

  const EMPTY := Region(0, 0, 0)

  lemma {:induction false} FreeOfCleared(t: seq<Region>, n: nat)
    requires n <= |t| && forall i | 0 <= i < |t| :: t[i] == EMPTY
    ensures Free(t, n) == seq(n, i => i)
  {
    if n <= 0 {
    } else {
      FreeOfCleared(t, n - 1);
    }
  }

  /** The j-th slot of a cleared table of n slots gets the j-th non-empty bank. */
  lemma ClearedFill(t: seq<Region>, n: nat, banks: seq<Bank>)
    requires n == |t| && forall i | 0 <= i < |t| :: t[i] == EMPTY
    ensures var b := NonEmpty(banks);
            forall j | 0 <= j < n ::
              Fill(t, n, banks)[j] == if j < |b| then Region(b[j].start, b[j].size, MR_ATTR_DRAM) else EMPTY
  {
    var b, u := NonEmpty(banks), Fill(t, n, banks);
    FreeOfCleared(t, n);
    FillPlaces(t, n, banks);
    var f := Free(t, n);
    forall j | 0 <= j < n
      ensures u[j] == if j < |b| then Region(b[j].start, b[j].size, MR_ATTR_DRAM) else EMPTY
    {
      assert f[j] == j;
      assert j >= |b| ==> j !in f[..Min(|f|, |b|)];
    }
  }

  /**
   ub_get_sys_info: NULL exactly when the API is not up and the system call is not serviced;
   else the first five non-empty banks in order, the rest zero.
   */
  method UbGetSysInfo(ready: bool, banks: seq<Bank>) returns (r: Option<seq<Region>>)
    ensures r.Some? <==> ready
    ensures r.Some? ==>
              var table, b := r.value, NonEmpty(banks);
              |table| == 5
              && forall j | 0 <= j < 5 ::
                table[j] == if j < |b| then Region(b[j].start, b[j].size, MR_ATTR_DRAM) else EMPTY
  {
    var n := UB_MAX_MR;
    var mr := new Region[n](_ => EMPTY);
    var si := new SysInfo(mr, n);
    ghost var t := mr[..];
    if !ready {
      return None;
    }
    var rc := ApiGetSysInfo(si, banks);
    ClearedFill(t, n, banks);
    return if rc != 0 then None else Some(mr[..]);
  }
}
