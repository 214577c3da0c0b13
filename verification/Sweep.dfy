/**
 API_dev_enum (api/api.c) with dev_enum_net (api/api_net.c), and whole sweeps: the
 caller starts from a NULL cookie and passes each cookie back (examples/api/glue.c).
 */
module Sweep {
  import opened ApiPublic
  import opened Storage

  const UB_MAX_DEV := 6

  /** dev_enum_net: the descriptor becomes a net one even when there is no interface. */
  method DevEnumNet(cur: nat, di: DeviceInfo) returns (found: bool)
    modifies di
    ensures found <==> cur != 0
    ensures di.Value() == old(di.Value()).(typ := DEV_TYP_NET, cookie := cur)
  {
    di.typ := DEV_TYP_NET;
    di.cookie := cur;
    return di.cookie != 0;
  }

  method ApiDevEnum(stor: Backend, cur: nat, di: DeviceInfo?) returns (rc: int)
    requires stor.Valid()
    modifies stor, di
    ensures stor.Valid()
    ensures di == null ==> rc == API_EINVAL && stor.Now() == old(stor.Now())
    ensures di != null ==>
              var r := DevEnum(stor.groups, cur, old(stor.Now()), old(di.Value()));
              rc == 0 && di.Value() == r.d && stor.Now() == r.fl
  {
    if di == null {
      return API_EINVAL;
    }
    if di.cookie == 0 {
      stor.DevEnumReset();
      var net := DevEnumNet(cur, di);
      if net {
        return 0;
      }
    }
    var found := stor.DevEnumStorage(di);
    if !found {
      di.cookie := 0;
    }
    return 0;
  }

  // ----- What a sweep yields

  /** No storage cookie of group g occurs in group h. */
  ghost predicate ApartAt(groups: Groups, g: nat, h: nat) {
    forall i, j :: g < ENUM_MAX && h < ENUM_MAX && 0 <= i < |groups[g]| && 0 <= j < |groups[h]| && groups[g][i].cookie != 0
                   ==> groups[g][i].cookie != groups[h][j].cookie
  }

  /** A cookie names one device: no storage cookie occurs in two groups. */
  ghost predicate Apart(groups: Groups) {
    forall g: nat, h: nat | g != h :: ApartAt(groups, g, h)
  }

  predicate Known(groups: Groups, cookie: nat, from: nat) {
    exists g, i :: from <= g < ENUM_MAX && 0 <= i < |groups[g]| && groups[g][i].cookie == cookie
  }

  /** The first device of the group is there and known. */
  predicate Leads(disks: seq<Disk>) {
    disks != [] && disks[0].cookie != 0 && disks[0].active
  }

  /** The groups from `from` on whose first device is enumerated, as cookies. */
  function Leaders(groups: Groups, from: nat): (c: seq<nat>)
    requires from <= ENUM_MAX
    ensures |c| <= ENUM_MAX - from
    ensures forall k | 0 <= k < |c| :: c[k] != 0
    decreases ENUM_MAX - from
  {
    if from == ENUM_MAX then []
    else (if Leads(groups[from]) then [groups[from][0].cookie] else []) + Leaders(groups, from + 1)
  }

  /** Everything one sweep enumerates, in order. */
  function Expected(groups: Groups, cur: nat): seq<nat> {
    (if cur != 0 then [cur] else []) + Leaders(groups, ENUM_IDE)
  }

  /** Groups below g are done, groups from g on are untouched. */
  ghost predicate DoneUpTo(fl: Flags, g: nat) {
    && GoodFlags(fl) && g <= ENUM_MAX
    && (forall h | 0 <= h < g :: fl.ended[h])
    && (forall h | g <= h < ENUM_MAX :: !fl.started[h] && !fl.ended[h])
  }

  /** One group that has not been touched: its first device or nothing, and the group is done. */
  lemma OneGroup(groups: Groups, g: nat, fl: Flags, d: Desc)
    requires g < ENUM_MAX && DoneUpTo(fl, g) && Apart(groups)
    requires d.cookie == 0 || !Known(groups, d.cookie, g)
    ensures var r := EnumStor(groups, g, fl, d);
            && DoneUpTo(r.fl, g + 1)
            && (r.found <==> Leads(groups[g]))
            && (r.found ==> r.d == Desc(SpecType(g), groups[g][0].cookie, d.state))
            && (r.d.cookie == 0 || !Known(groups, r.d.cookie, g + 1))
  {
    var disks := groups[g];
    if d.cookie != 0 {
      assert SlotOf(disks, d.cookie) == |disks|;
    }
    if GetDev(disks, 0) != 0 {
      HeadApart(groups, g);
    }
  }

  lemma HeadApart(groups: Groups, g: nat)
    requires g < ENUM_MAX && Apart(groups) && groups[g] != [] && groups[g][0].cookie != 0
    ensures !Known(groups, groups[g][0].cookie, g + 1)
  {
    ElsewhereNot(groups, g, 0);
  }

  /** A storage cookie is not known behind its own group, nor in any other group. */
  lemma ElsewhereNot(groups: Groups, g: nat, i: nat)
    requires g < ENUM_MAX && Apart(groups) && i < |groups[g]| && groups[g][i].cookie != 0
    ensures !Known(groups, groups[g][i].cookie, g + 1)
    ensures forall h | 0 <= h < ENUM_MAX && h != g :: SlotOf(groups[h], groups[g][i].cookie) == |groups[h]|
  {
    forall h | 0 <= h < ENUM_MAX && h != g
      ensures SlotOf(groups[h], groups[g][i].cookie) == |groups[h]|
      ensures forall j | 0 <= j < |groups[h]| :: groups[h][j].cookie != groups[g][i].cookie
    {
      assert ApartAt(groups, g, h);
    }
  }

  /** The walk over untouched groups finds the next leader, or leaves all groups done. */
  lemma {:induction false} Walk(groups: Groups, g: nat, fl: Flags, d: Desc) returns (at: nat)
    requires g <= ENUM_MAX && DoneUpTo(fl, g) && Apart(groups)
    requires d.cookie == 0 || !Known(groups, d.cookie, g)
    ensures g <= at <= ENUM_MAX
    ensures var r, c := EnumStorage(groups, g, fl, d), Leaders(groups, g);
            && (r.found <==> c != [])
            && (c == [] ==> at == ENUM_MAX)
            && (c != [] ==> at < ENUM_MAX && Leads(groups[at])
                            && r.d == Desc(SpecType(at), groups[at][0].cookie, d.state)
                            && c == [groups[at][0].cookie] + Leaders(groups, at + 1)
                            && DoneUpTo(r.fl, at + 1))
            && (c == [] ==> DoneUpTo(r.fl, ENUM_MAX))
    decreases ENUM_MAX - g
  {
    if g == ENUM_MAX {
      at := g;
    } else {
      OneGroup(groups, g, fl, d);
      var r := EnumStor(groups, g, fl, d);
      if r.found {
        at := g;
      } else {
        at := Walk(groups, g + 1, r.fl, r.d);
        assert Leaders(groups, g) == [] + Leaders(groups, g + 1) == Leaders(groups, g + 1);
      }
    }
  }

  /** Groups that are done are passed over, whatever the cookie. */
  lemma {:induction false} PassDone(groups: Groups, from: nat, g: nat, fl: Flags, d: Desc)
    requires from <= g && DoneUpTo(fl, g) && d.cookie != 0
    ensures EnumStorage(groups, from, fl, d) == EnumStorage(groups, g, fl, d)
    decreases g - from
  {
    if from == g {
    } else {
      assert EnumStor(groups, from, fl, d) == Enumed(false, fl, d);
      PassDone(groups, from + 1, g, fl, d);
    }
  }

  /** Ended groups are passed over by any cookie. */
  lemma {:induction false} PassEnded(groups: Groups, from: nat, to: nat, fl: Flags, d: Desc)
    requires from <= to <= ENUM_MAX && GoodFlags(fl) && d.cookie != 0
    requires forall y | from <= y < to :: fl.ended[y]
    ensures EnumStorage(groups, from, fl, d) == EnumStorage(groups, to, fl, d)
    decreases ENUM_MAX - from
  {
    if from == to {
    } else {
      assert EnumStor(groups, from, fl, d) == Enumed(false, fl, d);
      PassEnded(groups, from + 1, to, fl, d);
    }
  }

  /** In the middle of a sweep: `rest` is what is still to come after `cookie`. */
  ghost predicate Mid(groups: Groups, fl: Flags, cookie: nat, rest: seq<nat>) {
    exists g: nat :: DoneUpTo(fl, g) && !Known(groups, cookie, g) && rest == Leaders(groups, g)
  }

  /** A sweep that is to yield `e` has just yielded e[k], or NULL when k == |e|. */
  ghost predicate Yielded(groups: Groups, r: Enumed, e: seq<nat>, k: nat) {
    && GoodFlags(r.fl) && k <= |e|
    && r.d.cookie == (if k == |e| then 0 else e[k])
    && (k == |e| ==> DoneUpTo(r.fl, ENUM_MAX))
    && (k < |e| ==> e[k] != 0 && Mid(groups, r.fl, e[k], e[k + 1..]))
  }

  /** A call with the cookie of the previous device; the current interface plays no part in it. */
  lemma NextCall(groups: Groups, cur: nat, fl: Flags, d: Desc, e: seq<nat>, k: nat)
    requires Apart(groups) && GoodFlags(fl) && k < |e| && d.cookie == e[k] != 0
    requires Mid(groups, fl, e[k], e[k + 1..])
    ensures Yielded(groups, DevEnum(groups, cur, fl, d), e, k + 1)
  {
    var rest := e[k + 1..];
    var g: nat :| DoneUpTo(fl, g) && !Known(groups, e[k], g) && rest == Leaders(groups, g);
    PassDone(groups, ENUM_IDE, g, fl, d);
    var at := Walk(groups, g, fl, d);
    if rest != [] {
      assert rest[0] == e[k + 1] && rest[1..] == e[k + 2..];
      HeadApart(groups, at);
    }
  }

  ghost predicate FreshInterface(groups: Groups, cur: nat) {
    cur == 0 || !Known(groups, cur, 0)
  }

  /** The first call of a sweep, from a NULL cookie and whatever an earlier sweep left behind. */
  lemma FirstCall(groups: Groups, cur: nat, fl: Flags, d: Desc)
    requires Apart(groups) && FreshInterface(groups, cur) && d.cookie == 0 && GoodFlags(fl)
    ensures Yielded(groups, DevEnum(groups, cur, fl, d), Expected(groups, cur), 0)
  {
    var reset := ResetFlags();
    assert DoneUpTo(reset, 0);
    if cur == 0 {
      var at := Walk(groups, ENUM_IDE, reset, d.(typ := DEV_TYP_NET));
      assert Expected(groups, cur) == Leaders(groups, ENUM_IDE);
      if Leaders(groups, ENUM_IDE) != [] {
        HeadApart(groups, at);
      }
    } else {
      assert Expected(groups, cur)[1..] == Leaders(groups, ENUM_IDE);
    }
  }

  /** Call k of a run in which each call passes the descriptor back; curs(k) is the interface at call k. */
  function SweepRun(groups: Groups, curs: nat -> nat, fl: Flags, d: Desc, k: nat): (r: Enumed)
    requires GoodFlags(fl)
    ensures GoodFlags(r.fl) && r.d.state == d.state
  {
    if k == 0 then DevEnum(groups, curs(0), fl, d)
    else
      var before := SweepRun(groups, curs, fl, d, k - 1);
      DevEnum(groups, curs(k), before.fl, before.d)
  }

  lemma {:induction false} SweepFrom(groups: Groups, curs: nat -> nat, fl: Flags, d: Desc, e: seq<nat>, k: nat)
    requires Apart(groups) && GoodFlags(fl) && k <= |e|
    requires Yielded(groups, SweepRun(groups, curs, fl, d, 0), e, 0)
    ensures Yielded(groups, SweepRun(groups, curs, fl, d, k), e, k)
  {
    if k == 0 {
    } else {
      SweepFrom(groups, curs, fl, d, e, k - 1);
      var before := SweepRun(groups, curs, fl, d, k - 1);
      NextCall(groups, curs(k), before.fl, before.d, e, k - 1);
    }
  }

  lemma SweepMid(groups: Groups, curs: nat -> nat, fl: Flags, d: Desc, k: nat)
    requires Apart(groups) && FreshInterface(groups, curs(0)) && d.cookie == 0 && GoodFlags(fl)
    requires k <= |Expected(groups, curs(0))|
    ensures Yielded(groups, SweepRun(groups, curs, fl, d, k), Expected(groups, curs(0)), k)
  {
    FirstCall(groups, curs(0), fl, d);
    SweepFrom(groups, curs, fl, d, Expected(groups, curs(0)), k);
  }

  /**
   A full sweep: the interface that was current at the first call, then the first
   device of each group that has one, each once and in group order, then NULL. What
   happens to the current interface after the first call changes nothing.
   */
  lemma FullSweep(groups: Groups, curs: nat -> nat, fl: Flags, d: Desc)
    requires Apart(groups) && FreshInterface(groups, curs(0)) && d.cookie == 0 && GoodFlags(fl)
    ensures var e := Expected(groups, curs(0));
            && (forall k | 0 <= k < |e| :: SweepRun(groups, curs, fl, d, k).d.cookie == e[k])
            && SweepRun(groups, curs, fl, d, |e|).d.cookie == 0
  {
    var e := Expected(groups, curs(0));
    forall k: nat | k <= |e|
      ensures SweepRun(groups, curs, fl, d, k).d.cookie == if k == |e| then 0 else e[k]
    {
      SweepMid(groups, curs, fl, d, k);
    }
  }

  /** Called on after NULL, the descriptor goes through the same sweep again, if the interface is then the same. */
  lemma SweepRepeats(groups: Groups, curs: nat -> nat, again: nat -> nat, fl: Flags, d: Desc, k: nat)
    requires Apart(groups) && FreshInterface(groups, curs(0)) && d.cookie == 0 && GoodFlags(fl)
    requires k <= |Expected(groups, curs(0))| && again(0) == curs(0)
    ensures var end := SweepRun(groups, curs, fl, d, |Expected(groups, curs(0))|);
            SweepRun(groups, again, end.fl, end.d, k).d.cookie == SweepRun(groups, curs, fl, d, k).d.cookie
  {
    var n := |Expected(groups, curs(0))|;
    var end := SweepRun(groups, curs, fl, d, n);
    SweepMid(groups, curs, fl, d, n);
    SweepMid(groups, curs, fl, d, k);
    SweepMid(groups, again, end.fl, end.d, k);
  }

  // ----- The type that goes with a cookie

  ghost predicate Present(groups: Groups, g: nat, i: nat) {
    g < ENUM_MAX && i < |groups[g]| && groups[g][i].cookie != 0 && groups[g][i].active
  }

  /** DEV_TYP_STOR with the bit of the group: ide, usb, scsi, mmc, sata. */
  predicate GroupType(g: nat, typ: bv32) {
    && (g == 0 ==> typ == 0x0012) && (g == 1 ==> typ == 0x0042) && (g == 2 ==> typ == 0x0022)
    && (g == 3 ==> typ == 0x0082) && (g == 4 ==> typ == 0x0102)
  }

  /** The descriptor names a device that is there, with the type of its group. */
  ghost predicate NamesDisk(groups: Groups, d: Desc) {
    exists g: nat, i: nat :: Present(groups, g, i) && groups[g][i].cookie == d.cookie && GroupType(g, d.typ)
  }

  lemma FoundInGroup(groups: Groups, g: nat, fl: Flags, d: Desc)
    requires g < ENUM_MAX && GoodFlags(fl)
    ensures var r := EnumStor(groups, g, fl, d); r.found ==> r.d.cookie == 0 || NamesDisk(groups, r.d)
  {
    var r := EnumStor(groups, g, fl, d);
    GroupTypes(g);
    if r.found && r.d.cookie != 0 {
      var mine := StorType(groups, d.cookie, ENUM_IDE) == g;
      var i := if d.cookie == 0 || !mine then 0 else SlotOf(groups[g], d.cookie) + 1;
      assert Present(groups, g, i) && groups[g][i].cookie == r.d.cookie && GroupType(g, r.d.typ);
    }
  }

  lemma GroupTypes(g: nat)
    requires g < ENUM_MAX
    ensures GroupType(g, SpecType(g))
  {
  }

  lemma {:induction false} FoundOnWalk(groups: Groups, from: nat, fl: Flags, d: Desc)
    requires from <= ENUM_MAX && GoodFlags(fl)
    ensures var r := EnumStorage(groups, from, fl, d); r.found ==> r.d.cookie == 0 || NamesDisk(groups, r.d)
    decreases ENUM_MAX - from
  {
    if from == ENUM_MAX {
    } else {
      FoundInGroup(groups, from, fl, d);
      var r := EnumStor(groups, from, fl, d);
      if !r.found {
        FoundOnWalk(groups, from + 1, r.fl, r.d);
      }
    }
  }

  /**
   Whatever the flags and the descriptor are, a call that hands out a device hands out the
   current interface with the type of a network device, or a device that is present with the
   type of its group.
   */
  lemma EnumeratedType(groups: Groups, cur: nat, fl: Flags, d: Desc)
    requires GoodFlags(fl)
    ensures var now := DevEnum(groups, cur, fl, d).d;
            now.cookie != 0 ==> (d.cookie == 0 && now.cookie == cur && now.typ == 0x0001) || NamesDisk(groups, now)
  {
    if d.cookie != 0 || cur == 0 {
      FoundOnWalk(groups, ENUM_IDE, if d.cookie == 0 then ResetFlags() else fl,
                  if d.cookie == 0 then d.(typ := DEV_TYP_NET) else d);
    }
  }

  /** A cookie fixes the type that an enumerated descriptor carries with it. */
  ghost predicate RightType(groups: Groups, d: Desc) {
    && (forall g: nat | g < ENUM_MAX && SlotOf(groups[g], d.cookie) < |groups[g]| :: GroupType(g, d.typ))
    && (!Known(groups, d.cookie, 0) ==> d.typ == 0x0001)
  }

  lemma EnumeratedRight(groups: Groups, cur: nat, fl: Flags, d: Desc)
    requires Apart(groups) && FreshInterface(groups, cur) && GoodFlags(fl)
    ensures var now := DevEnum(groups, cur, fl, d).d; now.cookie != 0 ==> RightType(groups, now)
  {
    var now := DevEnum(groups, cur, fl, d).d;
    EnumeratedType(groups, cur, fl, d);
    if now.cookie != 0 {
      if NamesDisk(groups, now) {
        var g: nat, i: nat :| Present(groups, g, i) && groups[g][i].cookie == now.cookie && GroupType(g, now.typ);
        ElsewhereNot(groups, g, i);
      } else {
        assert forall g: nat | g < ENUM_MAX :: SlotOf(groups[g], now.cookie) == |groups[g]|;
      }
    }
  }

  // ----- A sweep group by group

  /** The groups below g whose first device is present. */
  ghost function LeadingBelow(groups: Groups, g: nat): set<nat> {
    set h: nat | h < g && Present(groups, h, 0)
  }

  /** How many they are. */
  ghost function LeadBelow(groups: Groups, g: nat): nat {
    |LeadingBelow(groups, g)|
  }

  lemma LeadBelowStep(groups: Groups, g: nat)
    ensures LeadBelow(groups, g + 1) == LeadBelow(groups, g) + if Present(groups, g, 0) then 1 else 0
    ensures LeadBelow(groups, 0) == 0
  {
    var s, t := LeadingBelow(groups, g), LeadingBelow(groups, g + 1);
    assert t == if Present(groups, g, 0) then s + {g} else s;
    assert LeadingBelow(groups, 0) == {};
  }

  lemma {:induction false} LeadersByGroup(groups: Groups, g: nat)
    requires g <= ENUM_MAX
    ensures var k := LeadBelow(groups, g);
            k <= |Leaders(groups, 0)| && Leaders(groups, 0)[k..] == Leaders(groups, g)
  {
    if g == 0 {
      LeadBelowStep(groups, 0);
    } else {
      var k := LeadBelow(groups, g - 1);
      LeadersByGroup(groups, g - 1);
      LeadBelowStep(groups, g - 1);
      var head := if Leads(groups[g - 1]) then [groups[g - 1][0].cookie] else [];
      SkipHead(Leaders(groups, 0), k, head, Leaders(groups, g));
    }
  }

  lemma SkipHead(c: seq<nat>, k: nat, head: seq<nat>, rest: seq<nat>)
    requires k <= |c| && c[k..] == head + rest
    ensures k + |head| <= |c| && c[k + |head|..] == rest
  {
    assert c[k..][|head|..] == rest;
  }

  /**
   A sweep, call by call: the interface if there is one; then, for each group whose first
   device is present, that device, at the call that counts such groups before it, with the
   type of its group; then NULL.
   */
  lemma SweepByGroup(groups: Groups, curs: nat -> nat, fl: Flags, d: Desc)
    requires Apart(groups) && FreshInterface(groups, curs(0)) && d.cookie == 0 && GoodFlags(fl)
    ensures var net := if curs(0) != 0 then 1 else 0;
            && (net == 1 ==> SweepRun(groups, curs, fl, d, 0).d == Desc(0x0001, curs(0), d.state))
            && (forall g: nat | Present(groups, g, 0) ::
                  var now := SweepRun(groups, curs, fl, d, net + LeadBelow(groups, g)).d;
                  now.cookie == groups[g][0].cookie && GroupType(g, now.typ) && now.state == d.state)
            && SweepRun(groups, curs, fl, d, net + LeadBelow(groups, ENUM_MAX)).d.cookie == 0
  {
    if curs(0) != 0 {
      FirstIsNet(groups, curs, fl, d);
    }
    forall g: nat | Present(groups, g, 0)
      ensures var now := SweepRun(groups, curs, fl, d, (if curs(0) != 0 then 1 else 0) + LeadBelow(groups, g)).d;
              now.cookie == groups[g][0].cookie && GroupType(g, now.typ) && now.state == d.state
    {
      GroupCall(groups, curs, fl, d, g);
    }
    LastCall(groups, curs, fl, d);
  }

  lemma FirstIsNet(groups: Groups, curs: nat -> nat, fl: Flags, d: Desc)
    requires GoodFlags(fl) && d.cookie == 0 && curs(0) != 0
    ensures SweepRun(groups, curs, fl, d, 0).d == Desc(0x0001, curs(0), d.state)
  {
  }

  /** Where group g stands in the sweep. */
  lemma PlaceOfGroup(groups: Groups, cur: nat, g: nat)
    requires g <= ENUM_MAX
    ensures var e, k := Expected(groups, cur), (if cur != 0 then 1 else 0) + LeadBelow(groups, g);
            && k <= |e| && (g == ENUM_MAX ==> k == |e|)
            && (g < ENUM_MAX && Leads(groups[g]) ==> k < |e| && e[k] == groups[g][0].cookie)
  {
    var c, n := Leaders(groups, 0), LeadBelow(groups, g);
    LeadersByGroup(groups, g);
    if g < ENUM_MAX && Leads(groups[g]) {
      assert c[n..][0] == c[n];
    }
    assert cur == 0 ==> Expected(groups, cur) == c;
  }

  lemma GroupCall(groups: Groups, curs: nat -> nat, fl: Flags, d: Desc, g: nat)
    requires Apart(groups) && FreshInterface(groups, curs(0)) && d.cookie == 0 && GoodFlags(fl) && Present(groups, g, 0)
    ensures var now := SweepRun(groups, curs, fl, d, (if curs(0) != 0 then 1 else 0) + LeadBelow(groups, g)).d;
            now.cookie == groups[g][0].cookie && GroupType(g, now.typ) && now.state == d.state
  {
    var k := (if curs(0) != 0 then 1 else 0) + LeadBelow(groups, g);
    PlaceOfGroup(groups, curs(0), g);
    SweepMid(groups, curs, fl, d, k);
    SweepType(groups, curs, fl, d, k);
    assert SlotOf(groups[g], groups[g][0].cookie) < |groups[g]|;
  }

  lemma LastCall(groups: Groups, curs: nat -> nat, fl: Flags, d: Desc)
    requires Apart(groups) && FreshInterface(groups, curs(0)) && d.cookie == 0 && GoodFlags(fl)
    ensures SweepRun(groups, curs, fl, d, (if curs(0) != 0 then 1 else 0) + LeadBelow(groups, ENUM_MAX)).d.cookie == 0
  {
    PlaceOfGroup(groups, curs(0), ENUM_MAX);
    SweepEnds(groups, curs, fl, d, (if curs(0) != 0 then 1 else 0) + LeadBelow(groups, ENUM_MAX));
  }

  lemma SweepEnds(groups: Groups, curs: nat -> nat, fl: Flags, d: Desc, k: nat)
    requires Apart(groups) && FreshInterface(groups, curs(0)) && d.cookie == 0 && GoodFlags(fl)
    requires k == |Expected(groups, curs(0))|
    ensures SweepRun(groups, curs, fl, d, k).d.cookie == 0
  {
    SweepMid(groups, curs, fl, d, k);
  }

  /** Every call of a sweep but the first hands out storage, and its type fits the cookie. */
  lemma SweepType(groups: Groups, curs: nat -> nat, fl: Flags, d: Desc, k: nat)
    requires Apart(groups) && FreshInterface(groups, curs(0)) && d.cookie == 0 && GoodFlags(fl)
    requires k < |Expected(groups, curs(0))|
    ensures RightType(groups, SweepRun(groups, curs, fl, d, k).d)
    ensures curs(0) == 0 || k > 0 ==> NamesDisk(groups, SweepRun(groups, curs, fl, d, k).d)
  {
    SweepMid(groups, curs, fl, d, k);
    if k == 0 {
      EnumeratedRight(groups, curs(0), fl, d);
      EnumeratedType(groups, curs(0), fl, d);
    } else {
      SweepMid(groups, curs, fl, d, k - 1);
      var before := SweepRun(groups, curs, fl, d, k - 1);
      MidCallType(groups, curs(k), before.fl, before.d);
    }
  }

  /** A call with a cookie does not look at the interface. */
  lemma MidCallType(groups: Groups, cur: nat, fl: Flags, d: Desc)
    requires Apart(groups) && GoodFlags(fl) && d.cookie != 0
    ensures var now := DevEnum(groups, cur, fl, d).d; now.cookie != 0 ==> RightType(groups, now) && NamesDisk(groups, now)
  {
    assert DevEnum(groups, cur, fl, d) == DevEnum(groups, 0, fl, d);
    EnumeratedRight(groups, 0, fl, d);
    EnumeratedType(groups, 0, fl, d);
  }

  // ----- What a sweep leaves out

  lemma {:induction false} InLeaders(groups: Groups, from: nat, cookie: nat)
    requires from <= ENUM_MAX
    ensures cookie in Leaders(groups, from) <==>
            exists g :: from <= g < ENUM_MAX && Leads(groups[g]) && groups[g][0].cookie == cookie
    decreases ENUM_MAX - from
  {
    if from == ENUM_MAX {
    } else {
      InLeaders(groups, from + 1, cookie);
    }
  }

  /** No cookie occurs twice in group g. */
  ghost predicate OnceIn(groups: Groups, g: nat) {
    forall i, j :: g < ENUM_MAX && 0 <= i < j < |groups[g]| && groups[g][i].cookie != 0
                   ==> groups[g][i].cookie != groups[g][j].cookie
  }

  ghost predicate OncePerGroup(groups: Groups) {
    forall g: nat :: OnceIn(groups, g)
  }

  lemma LeadersOf(groups: Groups, g: nat, i: nat)
    requires Apart(groups) && OncePerGroup(groups) && Present(groups, g, i)
    ensures groups[g][i].cookie in Leaders(groups, ENUM_IDE) <==> i == 0
  {
    InLeaders(groups, ENUM_IDE, groups[g][i].cookie);
    ElsewhereNot(groups, g, i);
    assert OnceIn(groups, g);
    forall h | 0 <= h < ENUM_MAX && h != g ensures !(Leads(groups[h]) && groups[h][0].cookie == groups[g][i].cookie) {
      assert SlotOf(groups[h], groups[g][i].cookie) == |groups[h]|;
    }
  }

  /**
   A present storage device comes out of a sweep exactly when it sits at index 0 of
   its group: once a group's first device is taken, its enumeration counts as ended.
   */
  lemma ComesOutIff(groups: Groups, curs: nat -> nat, fl: Flags, d: Desc, g: nat, i: nat)
    requires Apart(groups) && OncePerGroup(groups) && Present(groups, g, i)
    requires FreshInterface(groups, curs(0)) && d.cookie == 0 && GoodFlags(fl)
    ensures ComesOut(groups, curs, fl, d, groups[g][i].cookie) <==> i == 0
  {
    var e, cookie := Expected(groups, curs(0)), groups[g][i].cookie;
    FullSweep(groups, curs, fl, d);
    LeadersOf(groups, g, i);
    assert Known(groups, cookie, 0);
    assert cookie in e <==> cookie in Leaders(groups, ENUM_IDE);
    if cookie in e {
      var k :| 0 <= k < |e| && e[k] == cookie;
      assert SweepRun(groups, curs, fl, d, k).d.cookie == cookie;
    }
  }

  /** Some call of the sweep before its NULL returns this cookie. */
  ghost predicate ComesOut(groups: Groups, curs: nat -> nat, fl: Flags, d: Desc, cookie: nat)
    requires GoodFlags(fl)
  {
    exists k: nat :: k < |Expected(groups, curs(0))| && SweepRun(groups, curs, fl, d, k).d.cookie == cookie
  }

  /**
   The API promises to enumerate all devices: a sweep does return every present storage
   device exactly when none sits behind index 0 of its group.
   */
  lemma AllListedIff(groups: Groups, curs: nat -> nat, fl: Flags, d: Desc)
    requires Apart(groups) && OncePerGroup(groups)
    requires FreshInterface(groups, curs(0)) && d.cookie == 0 && GoodFlags(fl)
    ensures (forall g: nat, i: nat | Present(groups, g, i) :: ComesOut(groups, curs, fl, d, groups[g][i].cookie))
       <==> (forall g: nat, i: nat | Present(groups, g, i) :: i == 0)
  {
    forall g: nat, i: nat | Present(groups, g, i)
      ensures ComesOut(groups, curs, fl, d, groups[g][i].cookie) <==> i == 0
    {
      ComesOutIff(groups, curs, fl, d, g, i);
    }
  }

  /** Two IDE disks: the second one is never returned. */
  lemma SecondDiskMissing(curs: nat -> nat, fl: Flags, d: Desc)
    requires curs(0) != 5 && curs(0) != 6 && d.cookie == 0 && GoodFlags(fl)
    ensures var groups: Groups := [[Disk(5, true), Disk(6, true)], [], [], [], []];
            && ComesOut(groups, curs, fl, d, 5)
            && !ComesOut(groups, curs, fl, d, 6)
  {
    var groups: Groups := [[Disk(5, true), Disk(6, true)], [], [], [], []];
    ComesOutIff(groups, curs, fl, d, 0, 0);
    ComesOutIff(groups, curs, fl, d, 0, 1);
  }

  /**
   Further devices of a group do come out while the group does not count as ended: the call
   with the cookie at index i returns the one behind it, and the group ends with its last one.
   */
  lemma SlotAfter(groups: Groups, cur: nat, fl: Flags, g: nat, i: nat, d: Desc)
    requires Apart(groups) && OncePerGroup(groups) && GoodFlags(fl) && g < ENUM_MAX
    requires (forall h | 0 <= h < g :: fl.ended[h]) && !fl.ended[g]
    requires i < |groups[g]| && d.cookie == groups[g][i].cookie != 0 && Present(groups, g, i + 1)
    ensures var r := DevEnum(groups, cur, fl, d);
            && r.d.cookie == groups[g][i + 1].cookie && GroupType(g, r.d.typ) && r.d.state == d.state
            && (r.fl.ended[g] <==> i + 2 == |groups[g]|)
  {
    PassEnded(groups, ENUM_IDE, g, fl, d);
    SlotInGroup(groups, g, i);
    GroupTypes(g);
  }

  lemma SlotInGroup(groups: Groups, g: nat, i: nat)
    requires Apart(groups) && OncePerGroup(groups) && g < ENUM_MAX && i < |groups[g]| && groups[g][i].cookie != 0
    ensures SlotOf(groups[g], groups[g][i].cookie) == i && StorType(groups, groups[g][i].cookie, ENUM_IDE) == g
  {
    ElsewhereNot(groups, g, i);
    assert OnceIn(groups, g);
    SlotIs(groups[g], groups[g][i].cookie, i);
  }

  /** A group that has been started counts as ended, at every call of every sweep. */
  ghost predicate StartedMeansEnded(fl: Flags) {
    GoodFlags(fl) && forall g | 0 <= g < ENUM_MAX :: fl.started[g] ==> fl.ended[g]
  }

  lemma {:induction false} WalkKeepsEnded(groups: Groups, from: nat, fl: Flags, d: Desc)
    requires from <= ENUM_MAX && StartedMeansEnded(fl)
    ensures StartedMeansEnded(EnumStorage(groups, from, fl, d).fl)
    decreases ENUM_MAX - from
  {
    if from == ENUM_MAX {
    } else {
      StepKeepsEnded(groups, from, fl, d);
      var r := EnumStor(groups, from, fl, d);
      if !r.found {
        WalkKeepsEnded(groups, from + 1, r.fl, r.d);
      }
    }
  }

  lemma StepKeepsEnded(groups: Groups, g: nat, fl: Flags, d: Desc)
    requires g < ENUM_MAX && StartedMeansEnded(fl)
    ensures StartedMeansEnded(EnumStor(groups, g, fl, d).fl)
  {
  }

  /** So the branch for a group that is started and not ended is never taken: any call keeps this. */
  lemma CallKeepsEnded(groups: Groups, cur: nat, fl: Flags, d: Desc)
    requires StartedMeansEnded(fl)
    ensures StartedMeansEnded(DevEnum(groups, cur, fl, d).fl) && StartedMeansEnded(ResetFlags())
  {
    WalkKeepsEnded(groups, ENUM_IDE, fl, d);
    WalkKeepsEnded(groups, ENUM_IDE, ResetFlags(), d.(typ := DEV_TYP_NET));
  }

  /** That branch in itself: groups that are started are not enumerated anew for a foreign cookie, and count as ended from then on. */
  lemma {:induction false} StartedPassed(groups: Groups, from: nat, fl: Flags, d: Desc)
    requires from <= ENUM_MAX && GoodFlags(fl) && d.cookie != 0 && !Known(groups, d.cookie, 0)
    requires forall g | from <= g < ENUM_MAX :: fl.started[g]
    ensures var r := EnumStorage(groups, from, fl, d);
            && !r.found && r.d == d
            && (forall g | from <= g < ENUM_MAX :: r.fl.ended[g])
            && (forall g | 0 <= g < from :: r.fl.ended[g] == fl.ended[g])
    decreases ENUM_MAX - from
  {
    if from == ENUM_MAX {
    } else {
      assert forall g | 0 <= g < ENUM_MAX :: SlotOf(groups[g], d.cookie) == |groups[g]|;
      var r := EnumStor(groups, from, fl, d);
      assert !r.found && r.d == d && r.fl.started == fl.started && r.fl.ended == fl.ended[from := true];
      StartedPassed(groups, from + 1, r.fl, r.d);
    }
  }

  // ----- Two callers

  /** A sweep stopped after any of its calls has dealt with the groups below some g. */
  lemma StoppedSweep(groups: Groups, curs: nat -> nat, fl: Flags, d: Desc, k: nat) returns (g: nat)
    requires Apart(groups) && FreshInterface(groups, curs(0)) && d.cookie == 0 && GoodFlags(fl)
    requires k <= |Expected(groups, curs(0))|
    ensures DoneUpTo(SweepRun(groups, curs, fl, d, k).fl, g)
    ensures var e := Expected(groups, curs(0)); if k == |e| then g == ENUM_MAX else Leaders(groups, g) == e[k + 1..]
  {
    var e := Expected(groups, curs(0));
    var r := SweepRun(groups, curs, fl, d, k);
    SweepMid(groups, curs, fl, d, k);
    if k == |e| {
      g := ENUM_MAX;
    } else {
      g :| DoneUpTo(r.fl, g) && !Known(groups, e[k], g) && e[k + 1..] == Leaders(groups, g);
    }
  }

  /** What a sweep that has dealt with the groups below g returns next. */
  function Head(groups: Groups, g: nat): nat
    requires g <= ENUM_MAX
  {
    var c := Leaders(groups, g);
    if c == [] then 0 else c[0]
  }

  predicate NoLeaderIn(groups: Groups, lo: nat, hi: nat) {
    forall k | lo <= k < hi && k < ENUM_MAX :: !Leads(groups[k])
  }

  /** The next call, when the cookie's groups are all behind: the head of what is untouched. */
  lemma CallPast(groups: Groups, cur: nat, fl: Flags, g: nat, d: Desc)
    requires Apart(groups) && DoneUpTo(fl, g) && d.cookie != 0 && !Known(groups, d.cookie, g)
    ensures DevEnum(groups, cur, fl, d).d.cookie == Head(groups, g)
  {
    PassDone(groups, ENUM_IDE, g, fl, d);
    var at := Walk(groups, g, fl, d);
  }

  lemma {:induction false} HeadOfLeader(groups: Groups, g: nat)
    requires g <= ENUM_MAX
    ensures Head(groups, g) != 0 ==>
              exists k :: g <= k < ENUM_MAX && Leads(groups[k]) && Head(groups, g) == groups[k][0].cookie
                          && NoLeaderIn(groups, g, k)
    ensures Head(groups, g) == 0 ==> NoLeaderIn(groups, g, ENUM_MAX)
    decreases ENUM_MAX - g
  {
    if g == ENUM_MAX {
    } else {
      HeadOfLeader(groups, g + 1);
      if !Leads(groups[g]) {
        assert Leaders(groups, g) == [] + Leaders(groups, g + 1) == Leaders(groups, g + 1);
        if Head(groups, g) != 0 {
          var k :| g + 1 <= k < ENUM_MAX && Leads(groups[k]) && Head(groups, g) == groups[k][0].cookie
                   && NoLeaderIn(groups, g + 1, k);
          assert NoLeaderIn(groups, g, k);
        }
      } else {
        assert Head(groups, g) == groups[g][0].cookie && NoLeaderIn(groups, g, g);
      }
    }
  }

  /** Starting later finds the same next device exactly when no leader lies between. */
  lemma SameHeadIff(groups: Groups, lo: nat, hi: nat)
    requires Apart(groups) && lo <= hi <= ENUM_MAX
    ensures Head(groups, hi) == Head(groups, lo) <==> NoLeaderIn(groups, lo, hi)
  {
    HeadOfLeader(groups, lo);
    HeadOfLeader(groups, hi);
    if Head(groups, lo) != 0 {
      var k :| lo <= k < ENUM_MAX && Leads(groups[k]) && Head(groups, lo) == groups[k][0].cookie
               && NoLeaderIn(groups, lo, k);
      if Head(groups, hi) != 0 {
        var x :| hi <= x < ENUM_MAX && Leads(groups[x]) && Head(groups, hi) == groups[x][0].cookie
                 && NoLeaderIn(groups, hi, x);
        assert k != x ==> ApartAt(groups, k, x);
        assert k < hi || k == x;
      }
    }
  }

  /** The next call when the foreign sweep stands before my group: some group up to mine is enumerated again. */
  lemma CallBefore(groups: Groups, cur: nat, fl: Flags, g: nat, h: nat, d: Desc)
    requires Apart(groups) && DoneUpTo(fl, g) && g < h < ENUM_MAX
    requires Leads(groups[h]) && d.cookie == groups[h][0].cookie
    ensures DevEnum(groups, cur, fl, d).d.cookie != Head(groups, h + 1)
  {
    PassDone(groups, ENUM_IDE, g, fl, d);
    var at := WalkTo(groups, g, h, fl, d);
    HeadOfLeader(groups, h + 1);
    if Head(groups, h + 1) != 0 {
      var k :| h + 1 <= k < ENUM_MAX && Leads(groups[k]) && Head(groups, h + 1) == groups[k][0].cookie
               && NoLeaderIn(groups, h + 1, k);
      assert ApartAt(groups, at, k);
    }
  }

  /** The walk over untouched groups from below h, with a cookie of group h or one that is not known from g on, stops by h. */
  lemma {:induction false} WalkTo(groups: Groups, g: nat, h: nat, fl: Flags, d: Desc) returns (at: nat)
    requires g <= h < ENUM_MAX && DoneUpTo(fl, g) && Apart(groups) && Leads(groups[h])
    requires d.cookie == 0 || !Known(groups, d.cookie, g) || (g < h && d.cookie == groups[h][0].cookie)
    ensures g <= at <= h && Leads(groups[at])
    ensures var r := EnumStorage(groups, g, fl, d); r.found && r.d.cookie == groups[at][0].cookie
    decreases h - g
  {
    OneGroupApart(groups, g, fl, d);
    if Leads(groups[g]) {
      at := g;
    } else {
      var r := EnumStor(groups, g, fl, d);
      at := WalkTo(groups, g + 1, h, r.fl, r.d);
    }
  }

  /** `OneGroup` for a cookie that is merely not of this group. */
  lemma OneGroupApart(groups: Groups, g: nat, fl: Flags, d: Desc)
    requires g < ENUM_MAX && DoneUpTo(fl, g) && Apart(groups)
    requires d.cookie == 0 || !Known(groups, d.cookie, g)
             || exists h :: g < h < ENUM_MAX && groups[h] != [] && d.cookie == groups[h][0].cookie
    ensures var r := EnumStor(groups, g, fl, d);
            && DoneUpTo(r.fl, g + 1)
            && (r.found <==> Leads(groups[g]))
            && (r.found ==> r.d.cookie == groups[g][0].cookie)
            && (!r.found ==> r.d.cookie == 0 || !Known(groups, r.d.cookie, g + 1))
  {
    var disks := groups[g];
    if h :| g < h < ENUM_MAX && groups[h] != [] && d.cookie == groups[h][0].cookie != 0 {
      ElsewhereNot(groups, h, 0);
    }
    if d.cookie != 0 {
      assert SlotOf(disks, d.cookie) == |disks|;
    }
    if GetDev(disks, 0) != 0 {
      HeadApart(groups, g);
    }
  }

  /** The next call when the foreign sweep stands exactly before my group: the device after mine in the group, if any. */
  lemma CallAt(groups: Groups, cur: nat, fl: Flags, h: nat, d: Desc)
    requires Apart(groups) && OncePerGroup(groups) && h < ENUM_MAX && DoneUpTo(fl, h)
    requires Leads(groups[h]) && d.cookie == groups[h][0].cookie
    ensures DevEnum(groups, cur, fl, d).d.cookie ==
            if Present(groups, h, 1) then groups[h][1].cookie else Head(groups, h + 1)
  {
    PassDone(groups, ENUM_IDE, h, fl, d);
    MineAgain(groups, fl, h, d);
    var r := EnumStor(groups, h, fl, d);
    if !Present(groups, h, 1) {
      var at := WalkLoose(groups, h + 1, r.fl, r.d);
    }
  }

  /** Untouched from g on; what lies before does not matter to a walk from g. */
  ghost predicate UntouchedFrom(fl: Flags, g: nat) {
    GoodFlags(fl) && forall h | g <= h < ENUM_MAX :: !fl.started[h] && !fl.ended[h]
  }

  lemma MineAgain(groups: Groups, fl: Flags, h: nat, d: Desc)
    requires Apart(groups) && OncePerGroup(groups) && h < ENUM_MAX && DoneUpTo(fl, h)
    requires Leads(groups[h]) && d.cookie == groups[h][0].cookie
    ensures var r := EnumStor(groups, h, fl, d);
            && (r.found <==> Present(groups, h, 1))
            && (r.found ==> r.d.cookie == groups[h][1].cookie)
            && UntouchedFrom(r.fl, h + 1)
            && (!r.found ==> r.d.cookie == 0 || !Known(groups, r.d.cookie, h + 1))
  {
    OwnGroup(groups, h);
    if GetDev(groups[h], 1) != 0 {
      ElsewhereNot(groups, h, 1);
    }
  }

  /** The leader of a group is found in that group, at index 0. */
  lemma OwnGroup(groups: Groups, h: nat)
    requires Apart(groups) && h < ENUM_MAX && Leads(groups[h])
    ensures SlotOf(groups[h], groups[h][0].cookie) == 0
    ensures StorType(groups, groups[h][0].cookie, ENUM_IDE) == h
  {
    ElsewhereNot(groups, h, 0);
  }

  /** `Walk` with the flags of earlier groups left open. */
  lemma {:induction false} WalkLoose(groups: Groups, g: nat, fl: Flags, d: Desc) returns (at: nat)
    requires g <= ENUM_MAX && UntouchedFrom(fl, g) && Apart(groups)
    requires d.cookie == 0 || !Known(groups, d.cookie, g)
    ensures var r, c := EnumStorage(groups, g, fl, d), Leaders(groups, g);
            && (r.found <==> c != [])
            && (r.found ==> r.d.cookie == c[0])
    decreases ENUM_MAX - g
  {
    if g == ENUM_MAX {
      at := g;
    } else {
      LooseGroup(groups, g, fl, d);
      var r := EnumStor(groups, g, fl, d);
      if r.found {
        at := g;
      } else {
        at := WalkLoose(groups, g + 1, r.fl, r.d);
        assert Leaders(groups, g) == [] + Leaders(groups, g + 1) == Leaders(groups, g + 1);
      }
    }
  }

  lemma LooseGroup(groups: Groups, g: nat, fl: Flags, d: Desc)
    requires g < ENUM_MAX && UntouchedFrom(fl, g) && Apart(groups)
    requires d.cookie == 0 || !Known(groups, d.cookie, g)
    ensures var r := EnumStor(groups, g, fl, d);
            && UntouchedFrom(r.fl, g + 1)
            && (r.found <==> Leads(groups[g]))
            && (r.found ==> r.d.cookie == groups[g][0].cookie)
            && (!r.found ==> r.d.cookie == 0 || !Known(groups, r.d.cookie, g + 1))
  {
    var disks := groups[g];
    if d.cookie != 0 {
      assert SlotOf(disks, d.cookie) == |disks|;
    }
    if GetDev(disks, 0) != 0 {
      HeadApart(groups, g);
    }
  }

  /**
   The flags of the groups are shared, though the API is meant to keep no state. I have
   just been given the leader of group h; meanwhile another caller's sweep, stopped after
   any of its calls, has left the flags done up to group g. My next call returns what it
   would have returned undisturbed exactly when the other sweep stands before group h with
   nothing at index 1 of it, or past h with no leader between.
   */
  lemma ForeignSweepHarmlessIff(groups: Groups, cur: nat, mine: Flags, h: nat, foreign: Flags, g: nat, d: Desc)
    requires Apart(groups) && OncePerGroup(groups)
    requires h < ENUM_MAX && Leads(groups[h]) && d.cookie == groups[h][0].cookie
    requires DoneUpTo(mine, h + 1) && DoneUpTo(foreign, g)
    ensures DevEnum(groups, cur, foreign, d).d.cookie == DevEnum(groups, cur, mine, d).d.cookie
       <==> (g == h && !Present(groups, h, 1)) || (g > h && NoLeaderIn(groups, h + 1, g))
  {
    HeadApart(groups, h);
    CallPast(groups, cur, mine, h + 1, d);
    if g > h {
      CallPast(groups, cur, foreign, g, d);
      SameHeadIff(groups, h + 1, g);
    } else if g == h {
      CallAt(groups, cur, foreign, h, d);
      SecondIsNotHead(groups, h);
    } else {
      CallBefore(groups, cur, foreign, g, h, d);
    }
  }

  lemma SecondIsNotHead(groups: Groups, h: nat)
    requires Apart(groups) && h < ENUM_MAX
    ensures Present(groups, h, 1) ==> groups[h][1].cookie != Head(groups, h + 1)
  {
    HeadOfLeader(groups, h + 1);
    if Present(groups, h, 1) && Head(groups, h + 1) != 0 {
      var k :| h + 1 <= k < ENUM_MAX && Leads(groups[k]) && Head(groups, h + 1) == groups[k][0].cookie
               && NoLeaderIn(groups, h + 1, k);
      assert ApartAt(groups, h, k);
    }
  }

  /** The same after the network interface: the other sweep must not have passed a leader. */
  lemma ForeignSweepAfterNet(groups: Groups, cur: nat, mine: Flags, foreign: Flags, g: nat, d: Desc)
    requires Apart(groups) && d.cookie != 0 && !Known(groups, d.cookie, 0)
    requires DoneUpTo(mine, 0) && DoneUpTo(foreign, g)
    ensures DevEnum(groups, cur, foreign, d).d.cookie == DevEnum(groups, cur, mine, d).d.cookie
       <==> NoLeaderIn(groups, 0, g)
  {
    CallPast(groups, cur, mine, 0, d);
    assert !Known(groups, d.cookie, g);
    CallPast(groups, cur, foreign, g, d);
    SameHeadIff(groups, 0, g);
  }

  /** The same, with the other caller's calls spelled out: its sweep has been stopped after call k. */
  lemma ForeignRunHarmlessIff(groups: Groups, curs: nat -> nat, fl: Flags, theirs: Desc, k: nat,
                              cur: nat, mine: Flags, h: nat, d: Desc) returns (g: nat)
    requires Apart(groups) && OncePerGroup(groups) && FreshInterface(groups, curs(0)) && GoodFlags(fl)
    requires theirs.cookie == 0 && k <= |Expected(groups, curs(0))|
    requires h < ENUM_MAX && Leads(groups[h]) && d.cookie == groups[h][0].cookie && DoneUpTo(mine, h + 1)
    ensures var e := Expected(groups, curs(0));
            g <= ENUM_MAX && if k == |e| then g == ENUM_MAX else Leaders(groups, g) == e[k + 1..]
    ensures DevEnum(groups, cur, SweepRun(groups, curs, fl, theirs, k).fl, d).d.cookie
         == DevEnum(groups, cur, mine, d).d.cookie
       <==> (g == h && !Present(groups, h, 1)) || (g > h && NoLeaderIn(groups, h + 1, g))
  {
    g := StoppedSweep(groups, curs, fl, theirs, k);
    ForeignSweepHarmlessIff(groups, cur, mine, h, SweepRun(groups, curs, fl, theirs, k).fl, g, d);
  }

  /** Once the other sweep is finished, my next call returns NULL, whatever I was given last. */
  lemma ForeignSweepEndsMine(groups: Groups, curs: nat -> nat, fl: Flags, theirs: Desc, mine: Desc)
    requires Apart(groups) && FreshInterface(groups, curs(0)) && GoodFlags(fl)
    requires theirs.cookie == 0 && mine.cookie != 0
    ensures var n := |Expected(groups, curs(0))|;
            var after := SweepRun(groups, curs, fl, theirs, n);
            DevEnum(groups, curs(n + 1), after.fl, mine).d.cookie == 0
  {
    var n := |Expected(groups, curs(0))|;
    SweepMid(groups, curs, fl, theirs, n);
    var after := SweepRun(groups, curs, fl, theirs, n);
    PassDone(groups, ENUM_IDE, ENUM_MAX, after.fl, mine);
  }

  /** One first call of another caller, who is given the interface, turns my sweep back into group 0. */
  lemma StartTurnsBack(groups: Groups, cur: nat, before: Flags, theirs: Desc, mine: Desc)
    requires Apart(groups) && OncePerGroup(groups) && cur != 0
    requires Leads(groups[0]) && Present(groups, 0, 1) && Leads(groups[1])
    requires DoneUpTo(before, 1) && theirs.cookie == 0 && mine.cookie == groups[0][0].cookie
    ensures DevEnum(groups, cur, before, mine).d.cookie == groups[1][0].cookie
    ensures DevEnum(groups, cur, DevEnum(groups, cur, before, theirs).fl, mine).d.cookie == groups[0][1].cookie
  {
    NetResets(groups, cur, before, theirs);
    HeadApart(groups, 0);
    CallPast(groups, cur, before, 1, mine);
    CallAt(groups, cur, ResetFlags(), 0, mine);
  }

  lemma NetResets(groups: Groups, cur: nat, fl: Flags, d: Desc)
    requires GoodFlags(fl) && d.cookie == 0 && cur != 0
    ensures DevEnum(groups, cur, fl, d).fl == ResetFlags() && DoneUpTo(ResetFlags(), 0)
  {
  }

  /** A concrete case: with interface 9, my sweep goes from disk 5 to disk 6 instead of 7. */
  lemma ForeignStartDisturbs(groups: Groups, before: Flags, theirs: Desc, mine: Desc)
    requires groups == [[Disk(5, true), Disk(6, true)], [Disk(7, true)], [], [], []]
    requires DoneUpTo(before, 1) && theirs.cookie == 0 && mine.cookie == 5
    ensures DevEnum(groups, 9, before, mine).d.cookie == 7
    ensures DevEnum(groups, 9, DevEnum(groups, 9, before, theirs).fl, mine).d.cookie == 6
  {
    assert groups[0][0].cookie == 5 && groups[0][1] == Disk(6, true) && groups[1][0] == Disk(7, true);
    StartTurnsBack(groups, 9, before, theirs, mine);
  }

  // ----- ub_dev_enum

  ghost predicate Separate(devices: seq<DeviceInfo>) {
    |devices| == 6 && forall i, j | 0 <= i < j < |devices| :: devices[i] != devices[j]
  }

  method ClearAll(devices: seq<DeviceInfo>)
    requires Separate(devices)
    modifies set x | x in devices
    ensures forall j | 0 <= j < |devices| :: devices[j].Value() == Desc(0, 0, DEV_STA_CLOSED)
  {
    for i := 0 to |devices|
      invariant forall j | 0 <= j < i :: devices[j].Value() == Desc(0, 0, DEV_STA_CLOSED)
    {
      devices[i].typ, devices[i].cookie, devices[i].state := 0, 0, DEV_STA_CLOSED;
    }
  }

  /** One more descriptor: it is given the previous cookie and enumerated. */
  method PassOn(stor: Backend, cur: nat, prev: DeviceInfo, di: DeviceInfo, ghost e: seq<nat>, ghost k: nat)
    requires stor.Valid() && prev != di && Apart(stor.groups)
    requires k < |e| && Yielded(stor.groups, Enumed(true, stor.Now(), prev.Value()), e, k)
    modifies stor, di
    ensures stor.Valid() && di.state == old(di.state)
    ensures Yielded(stor.groups, Enumed(true, stor.Now(), di.Value()), e, k + 1)
    ensures Typed(stor.groups, di)
  {
    di.cookie := prev.cookie;
    ghost var fl, d := stor.Now(), di.Value();
    ghost var r := DevEnum(stor.groups, cur, fl, d);
    assert Yielded(stor.groups, r, e, k + 1) by {
      NextCall(stor.groups, cur, fl, d, e, k);
    }
    MidCallType(stor.groups, cur, fl, d);
    var rc := ApiDevEnum(stor, cur, di);
    assert stor.Now() == r.fl && di.Value() == r.d;
  }

  method StartOff(stor: Backend, cur: nat, di: DeviceInfo)
    requires stor.Valid() && di.cookie == 0
    requires Apart(stor.groups) && FreshInterface(stor.groups, cur)
    modifies stor, di
    ensures stor.Valid() && di.state == old(di.state)
    ensures Yielded(stor.groups, Enumed(true, stor.Now(), di.Value()), Expected(stor.groups, cur), 0)
    ensures Typed(stor.groups, di)
  {
    ghost var r := DevEnum(stor.groups, cur, stor.Now(), di.Value());
    EnumeratedRight(stor.groups, cur, stor.Now(), di.Value());
    FirstCall(stor.groups, cur, stor.Now(), di.Value());
    var rc := ApiDevEnum(stor, cur, di);
    assert stor.Now() == r.fl && di.Value() == r.d;
  }

  /** A descriptor with a cookie carries the type that goes with it. */
  ghost predicate Typed(groups: Groups, di: DeviceInfo)
    reads di
  {
    di.cookie != 0 ==> RightType(groups, di.Value())
  }

  /** The descriptors below n hold e[..n] with the types that go with it, the ones above n are cleared, and all are closed. */
  ghost predicate Filled(groups: Groups, devices: seq<DeviceInfo>, e: seq<nat>, n: nat)
    reads devices
  {
    && n <= |e|
    && (forall i | 0 <= i < n && i < |devices| :: devices[i].cookie == e[i])
    && (forall i | 0 <= i < |devices| :: Typed(groups, devices[i]))
    && (forall i | n < i < |devices| :: devices[i].cookie == 0)
    && (forall i | 0 <= i < |devices| :: devices[i].state == DEV_STA_CLOSED)
  }

  method OneMore(stor: Backend, cur: nat, devices: seq<DeviceInfo>, n: nat, ghost e: seq<nat>)
    requires stor.Valid() && Separate(devices) && Apart(stor.groups)
    requires 0 < n < |devices| && Filled(stor.groups, devices, e, n - 1)
    requires n - 1 < |e| && Yielded(stor.groups, Enumed(true, stor.Now(), devices[n - 1].Value()), e, n - 1)
    modifies stor, set x | x in devices
    ensures stor.Valid() && Filled(stor.groups, devices, e, n)
    ensures Yielded(stor.groups, Enumed(true, stor.Now(), devices[n].Value()), e, n)
  {
    PassOn(stor, cur, devices[n - 1], devices[n], e, n - 1);
  }

  lemma ExpectedFits(groups: Groups, cur: nat)
    ensures |Expected(groups, cur)| <= UB_MAX_DEV
  {
  }

  /** A descriptor that has been given a device is the next one filled. */
  lemma TakesHandle(groups: Groups, fl: Flags, devices: seq<DeviceInfo>, e: seq<nat>, n: nat)
    requires |devices| == 6 && n < 6 && Filled(groups, devices, e, n) && devices[n].cookie != 0
    requires Yielded(groups, Enumed(true, fl, devices[n].Value()), e, n)
    ensures n < |e| && (n == 5 ==> Filled(groups, devices, e, 6))
  {
  }

  /** The loop of ub_dev_enum, once the first descriptor has been enumerated. */
  method EnumRest(stor: Backend, curs: nat -> nat, devices: seq<DeviceInfo>, ghost e: seq<nat>) returns (n: nat)
    requires stor.Valid() && Separate(devices) && Apart(stor.groups) && |e| <= UB_MAX_DEV
    requires Filled(stor.groups, devices, e, 0) && Yielded(stor.groups, Enumed(true, stor.Now(), devices[0].Value()), e, 0)
    modifies stor, set x | x in devices
    ensures stor.Valid()
    ensures n == |e| && Filled(stor.groups, devices, e, n)
    ensures n < UB_MAX_DEV ==> devices[n].cookie == 0
  {
    n := 0;
    while devices[n].cookie != 0
      invariant n < UB_MAX_DEV && stor.Valid() && Filled(stor.groups, devices, e, n)
      invariant Yielded(stor.groups, Enumed(true, stor.Now(), devices[n].Value()), e, n)
      decreases UB_MAX_DEV - n
    {
      TakesHandle(stor.groups, stor.Now(), devices, e, n);
      n := n + 1;
      if n >= UB_MAX_DEV {
        break;
      }
      OneMore(stor, curs(n), devices, n, e);
    }
  }

  /**
   The consumer's sweep, which uses a fresh descriptor for every device. It is
   complete: the handles 0..n-1 hold exactly what a sweep yields, all closed. `ready` says
   that the API is up, so that the system calls are serviced; it never goes down again.
   */
  method UbDevEnum(ready: bool, stor: Backend, curs: nat -> nat, devices: seq<DeviceInfo>) returns (n: nat)
    requires stor.Valid() && Separate(devices)
    requires Apart(stor.groups) && FreshInterface(stor.groups, curs(0))
    modifies stor, set x | x in devices
    ensures stor.Valid()
    ensures ready ==>
              var e := Expected(stor.groups, curs(0));
              n == |e| <= 6 && Filled(stor.groups, devices, e, n) && (n < 6 ==> devices[n].cookie == 0)
    ensures !ready ==>
              && n == 0 && stor.Now() == old(stor.Now())
              && forall j | 0 <= j < |devices| :: devices[j].Value() == Desc(0, 0, DEV_STA_CLOSED)
  {
    ghost var e := Expected(stor.groups, curs(0));
    ClearAll(devices);
    if !ready {
      return 0;
    }
    StartOff(stor, curs(0), devices[0]);
    ExpectedFits(stor.groups, curs(0));
    n := EnumRest(stor, curs, devices, e);
  }
}
