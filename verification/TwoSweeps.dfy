/**
 Two callers sweep over the devices at the same time, each with a descriptor of its
 own; only the flags of the storage groups are shared. Which interleavings give both of
 them everything a sweep gives when nobody else enumerates?
 */
module TwoSweeps {
  import opened ApiPublic
  import opened Storage
  import opened Sweep

  /** The shared flags, and the descriptors of the two callers; the first one is `true` below. */
  datatype Pair = Pair(fl: Flags, a: Desc, b: Desc)

  /**
   who[i] makes call i, at which the interface is curs(i); `call` is API_dev_enum at call i.
   The first caller makes s calls, then the other one makes calls up to t, where the first
   calls again, if it does. ea and eb are what their sweeps yield when nobody else enumerates.
   */
  datatype Play = Play(groups: Groups, curs: nat -> nat, call: (nat, Flags, Desc) -> Enumed,
                       who: seq<bool>, start: Pair, s: nat, t: nat, ea: seq<nat>, eb: seq<nat>)

  ghost predicate SameCall(z: Play, i: nat, fl: Flags, d: Desc) {
    GoodFlags(fl) ==> z.call(i, fl, d) == DevEnum(z.groups, z.curs(i), fl, d)
  }

  ghost predicate CallsDevEnum(z: Play) {
    forall i, fl, d :: SameCall(z, i, fl, d)
  }

  function Of(p: Pair, x: bool): Desc {
    if x then p.a else p.b
  }

  function Due(z: Play, x: bool): seq<nat> {
    if x then z.ea else z.eb
  }

  function CallBy(z: Play, i: nat, x: bool, p: Pair): Pair {
    var r := z.call(i, p.fl, Of(p, x));
    if x then Pair(r.fl, r.d, p.b) else Pair(r.fl, p.a, r.d)
  }

  /** After the first k calls. */
  function Both(z: Play, k: nat): Pair
    requires k <= |z.who|
  {
    if k == 0 then z.start else CallBy(z, k - 1, z.who[k - 1], Both(z, k - 1))
  }

  /** How many of the first k calls are made by x. */
  function Made(who: seq<bool>, x: bool, k: nat): nat
    requires k <= |who|
  {
    if k == 0 then 0 else Made(who, x, k - 1) + if who[k - 1] == x then 1 else 0
  }

  /** What call number i of a sweep that yields e returns. */
  function Item(e: seq<nat>, i: nat): nat {
    if i < |e| then e[i] else 0
  }

  /** Call k returns what the caller's own sweep would. */
  ghost predicate Right(z: Play, k: nat)
    requires k < |z.who|
  {
    var x := z.who[k];
    Of(Both(z, k + 1), x).cookie == Item(Due(z, x), Made(z.who, x, k))
  }

  ghost predicate RightUpTo(z: Play, n: nat)
    requires n <= |z.who|
  {
    forall k | 0 <= k < n :: Right(z, k)
  }

  /** Both sweeps come out whole. */
  ghost predicate BothWhole(z: Play)
  {
    RightUpTo(z, |z.who|)
  }

  /** The caller that begins at call lo is due what a sweep yields with the interface at that call. */
  ghost predicate DueFrom(z: Play, lo: nat) {
    lo == 0 || lo == z.s ==>
      FreshInterface(z.groups, z.curs(lo)) && Due(z, lo == 0) == Expected(z.groups, z.curs(lo))
  }

  /** Each makes one call for each of its devices and the one that returns NULL. */
  ghost predicate Fair(z: Play) {
    && CallsDevEnum(z) && Apart(z.groups) && OncePerGroup(z.groups)
    && GoodFlags(z.start.fl) && z.start.a.cookie == 0 && z.start.b.cookie == 0
    && (forall lo: nat :: DueFrom(z, lo))
    && 0 < z.s < z.t <= |z.who|
    && (forall k | 0 <= k < z.s :: z.who[k])
    && (forall k | z.s <= k < z.t :: !z.who[k])
    && (z.t < |z.who| ==> z.who[z.t])
    && Made(z.who, true, |z.who|) == |z.ea| + 1
    && Made(z.who, false, |z.who|) == |z.eb| + 1
  }

  /** Nothing to enumerate, and both get NULL at once. */
  ghost const NOTHING: Play :=
    var groups: Groups := seq(ENUM_MAX, _ => []);
    Play(groups, _ => 0, (i: nat, fl: Flags, d: Desc) => if GoodFlags(fl) then DevEnum(groups, 0, fl, d) else Enumed(false, fl, d),
         [true, false], Pair(ResetFlags(), Desc(0, 0, 0), Desc(0, 0, 0)), 1, 2, [], [])

  type FairPlay = z: Play | Fair(z) ghost witness NOTHING

  // ----- Where a caller stands

  /**
   After k calls of a sweep that is to yield e, and that nobody disturbs, the groups below
   g are done with. `net` says that e begins with the network interface.
   */
  ghost predicate Stand(groups: Groups, e: seq<nat>, net: bool, k: nat, g: nat) {
    && g <= ENUM_MAX && 1 <= k <= |e| + 1
    && (k == |e| + 1 ==> g == ENUM_MAX)
    && (k <= |e| ==> Left(groups, g, e, k) && Before(groups, e, net, k, g))
  }

  /** The k-th device of the sweep is that of the group before g, or the interface if g is the first group. */
  ghost predicate Before(groups: Groups, e: seq<nat>, net: bool, k: nat, g: nat) {
    && g <= ENUM_MAX && 1 <= k <= |e|
    && if k == 1 && net then g == 0 else g > 0 && Leads(groups[g - 1]) && e[k - 1] == groups[g - 1][0].cookie
  }

  /** Item i of what the groups from g on still yield is item k + i of the sweep. */
  ghost predicate ItemLeft(groups: Groups, g: nat, e: seq<nat>, k: nat, i: nat) {
    && g <= ENUM_MAX && |Leaders(groups, g)| + k == |e|
    && (k + i < |e| ==> Leaders(groups, g)[i] == e[k + i])
  }

  ghost predicate Left(groups: Groups, g: nat, e: seq<nat>, k: nat) {
    forall i: nat :: ItemLeft(groups, g, e, k, i)
  }

  lemma LeftIs(groups: Groups, g: nat, e: seq<nat>, k: nat)
    requires g <= ENUM_MAX && k <= |e|
    ensures Left(groups, g, e, k) <==> Leaders(groups, g) == e[k..]
  {
    if Left(groups, g, e, k) {
      assert ItemLeft(groups, g, e, k, 0);
      forall i: nat | i < |e| - k ensures Leaders(groups, g)[i] == e[k..][i] {
        assert ItemLeft(groups, g, e, k, i);
      }
    }
    if Leaders(groups, g) == e[k..] {
      forall i: nat ensures ItemLeft(groups, g, e, k, i) {
        assert k + i < |e| ==> e[k..][i] == e[k + i];
      }
    }
  }

  /** The network interface is not taken for a storage device. */
  ghost predicate NetFresh(groups: Groups, e: seq<nat>, net: bool) {
    net ==> e != [] && e[0] != 0 && !Known(groups, e[0], 0)
  }

  /** r is what a walk from g on leaves of the flags fl, when it stops at group `at`, or finds nothing. */
  ghost predicate WalkedTo(groups: Groups, g: nat, fl: Flags, r: Enumed, at: nat) {
    && g <= at <= ENUM_MAX && NoLeaderIn(groups, g, at) && Swept(fl, r.fl, g, at)
    && (r.found <==> at < ENUM_MAX) && (at < ENUM_MAX ==> Leads(groups[at]) && r.d.cookie == groups[at][0].cookie)
  }

  /** The sweep from g on, when the first group that leads is `at`, if any. */
  lemma {:induction false} LeadersAt(groups: Groups, g: nat, at: nat)
    requires g <= at <= ENUM_MAX && NoLeaderIn(groups, g, at) && (at < ENUM_MAX ==> Leads(groups[at]))
    ensures Leaders(groups, g) == if at == ENUM_MAX then [] else [groups[at][0].cookie] + Leaders(groups, at + 1)
    decreases at - g
  {
    if g == at {
      if at < ENUM_MAX {
        LeadersStep(groups, g);
      }
    } else {
      LeadersStep(groups, g);
      LeadersAt(groups, g + 1, at);
    }
  }

  /** The walk over untouched groups, with the flags it leaves. */
  lemma {:induction false} WalkFlags(groups: Groups, g: nat, fl: Flags, d: Desc) returns (at: nat)
    requires g <= ENUM_MAX && UntouchedFrom(fl, g) && Apart(groups)
    requires d.cookie == 0 || !Known(groups, d.cookie, g)
    ensures WalkedTo(groups, g, fl, EnumStorage(groups, g, fl, d), at)
    decreases ENUM_MAX - g
  {
    if g == ENUM_MAX {
      at := g;
    } else {
      if Leads(groups[g]) {
        at := g;
        FoundHere(groups, g, fl, d);
      } else {
        var mid, d' := NotHere(groups, g, fl, d);
        at := WalkFlags(groups, g + 1, mid, d');
        WalkBack(groups, g, fl, mid, EnumStorage(groups, g + 1, mid, d'), at);
      }
    }
  }

  lemma WalkBack(groups: Groups, g: nat, fl: Flags, mid: Flags, r: Enumed, at: nat)
    requires g < ENUM_MAX && !Leads(groups[g]) && Swept(fl, mid, g, g) && WalkedTo(groups, g + 1, mid, r, at)
    ensures WalkedTo(groups, g, fl, r, at)
  {
    SweptOn(fl, mid, r.fl, g, at);
  }

  /** The groups from g to `at` are ended, and all others as they were. */
  ghost predicate Swept(fl: Flags, now: Flags, g: nat, at: nat) {
    && GoodFlags(fl) && GoodFlags(now)
    && (forall y | g <= y <= at && y < ENUM_MAX :: now.ended[y])
    && (forall y | 0 <= y < ENUM_MAX && (y < g || y > at) :: now.ended[y] == fl.ended[y] && now.started[y] == fl.started[y])
  }

  lemma FoundHere(groups: Groups, g: nat, fl: Flags, d: Desc)
    requires g < ENUM_MAX && UntouchedFrom(fl, g) && Apart(groups) && Leads(groups[g])
    requires d.cookie == 0 || !Known(groups, d.cookie, g)
    ensures var r := EnumStorage(groups, g, fl, d);
            r.found && r.d.cookie == groups[g][0].cookie && Swept(fl, r.fl, g, g)
  {
    LooseGroupFlags(groups, g, fl, d);
  }

  lemma NotHere(groups: Groups, g: nat, fl: Flags, d: Desc) returns (mid: Flags, d': Desc)
    requires g < ENUM_MAX && UntouchedFrom(fl, g) && Apart(groups) && !Leads(groups[g])
    requires d.cookie == 0 || !Known(groups, d.cookie, g)
    ensures UntouchedFrom(mid, g + 1) && Swept(fl, mid, g, g)
    ensures d'.cookie == 0 || !Known(groups, d'.cookie, g + 1)
    ensures EnumStorage(groups, g, fl, d) == EnumStorage(groups, g + 1, mid, d')
  {
    LooseGroupFlags(groups, g, fl, d);
    var r := EnumStor(groups, g, fl, d);
    mid, d' := r.fl, r.d;
  }

  lemma LeadersStep(groups: Groups, g: nat)
    requires g < ENUM_MAX
    ensures Leaders(groups, g) ==
            if Leads(groups[g]) then [groups[g][0].cookie] + Leaders(groups, g + 1) else Leaders(groups, g + 1)
  {
    assert [] + Leaders(groups, g + 1) == Leaders(groups, g + 1);
  }

  lemma SweptOn(fl: Flags, mid: Flags, now: Flags, g: nat, at: nat)
    requires g < at && Swept(fl, mid, g, g) && Swept(mid, now, g + 1, at)
    ensures Swept(fl, now, g, at)
  {
  }

  lemma LooseGroupFlags(groups: Groups, g: nat, fl: Flags, d: Desc)
    requires g < ENUM_MAX && UntouchedFrom(fl, g) && Apart(groups)
    requires d.cookie == 0 || !Known(groups, d.cookie, g)
    ensures var r := EnumStor(groups, g, fl, d);
            && UntouchedFrom(r.fl, g + 1) && Swept(fl, r.fl, g, g)
            && (r.found <==> Leads(groups[g]))
            && (r.found ==> r.d.cookie == groups[g][0].cookie)
            && (!r.found ==> r.d.cookie == 0 || !Known(groups, r.d.cookie, g + 1))
  {
    LooseGroup(groups, g, fl, d);
    if d.cookie != 0 {
      assert SlotOf(groups[g], d.cookie) == |groups[g]|;
    }
  }

  /** A call whose cookie lies behind: the head of what is untouched, and the groups up to it are done. */
  lemma CallBehind(groups: Groups, cur: nat, fl: Flags, g: nat, d: Desc) returns (at: nat)
    requires Apart(groups) && DoneUpTo(fl, g) && d.cookie != 0 && !Known(groups, d.cookie, g)
    ensures g <= at <= ENUM_MAX
    ensures var r, c := DevEnum(groups, cur, fl, d), Leaders(groups, g);
            && (c == [] <==> at == ENUM_MAX)
            && (c == [] ==> r.d.cookie == 0 && DoneUpTo(r.fl, ENUM_MAX))
            && (c != [] ==> Leads(groups[at]) && r.d.cookie == groups[at][0].cookie
                            && c == [groups[at][0].cookie] + Leaders(groups, at + 1) && DoneUpTo(r.fl, at + 1))
  {
    PassEnded(groups, ENUM_IDE, g, fl, d);
    at := WalkFlags(groups, g, fl, d);
    LeadersAt(groups, g, at);
  }

  lemma StandUnknown(groups: Groups, e: seq<nat>, net: bool, k: nat, g: nat, g': nat)
    requires Apart(groups) && NetFresh(groups, e, net) && Stand(groups, e, net, k, g)
    requires k <= |e| && g <= g'
    ensures !Known(groups, e[k - 1], g') && e[k - 1] != 0
  {
    if k == 1 && net {
    } else {
      HeadApart(groups, g - 1);
    }
  }

  /** The first call, on whatever flags. */
  lemma SoloFirst(groups: Groups, cur: nat, fl: Flags, d: Desc) returns (g: nat)
    requires Apart(groups) && FreshInterface(groups, cur) && GoodFlags(fl) && d.cookie == 0
    ensures var r, e := DevEnum(groups, cur, fl, d), Expected(groups, cur);
            && r.d.cookie == Item(e, 0) && DoneUpTo(r.fl, g)
            && Stand(groups, e, cur != 0, 1, g) && NetFresh(groups, e, cur != 0)
  {
    ExpectedIs(groups, cur);
    if cur != 0 {
      g := 0;
      NetResets(groups, cur, fl, d);
      NetStands(groups, cur);
    } else {
      g := FirstOfStorage(groups, fl, d);
    }
  }

  lemma ExpectedIs(groups: Groups, cur: nat)
    ensures Expected(groups, cur) == if cur == 0 then Leaders(groups, 0) else [cur] + Leaders(groups, 0)
  {
    assert [] + Leaders(groups, 0) == Leaders(groups, 0);
  }

  lemma NetStands(groups: Groups, cur: nat)
    requires cur != 0 && !Known(groups, cur, 0)
    ensures var e := [cur] + Leaders(groups, 0); Stand(groups, e, true, 1, 0) && NetFresh(groups, e, true)
  {
    var e := [cur] + Leaders(groups, 0);
    assert e[0] == cur && e[1..] == Leaders(groups, 0);
    LeftIs(groups, 0, e, 1);
  }

  lemma FirstOfStorage(groups: Groups, fl: Flags, d: Desc) returns (g: nat)
    requires Apart(groups) && GoodFlags(fl) && d.cookie == 0
    ensures var r, e := DevEnum(groups, 0, fl, d), Leaders(groups, 0);
            r.d.cookie == Item(e, 0) && DoneUpTo(r.fl, g) && Stand(groups, e, false, 1, g)
  {
    var e := Leaders(groups, 0);
    var at := FirstWalk(groups, fl, d);
    g := if e == [] then ENUM_MAX else at + 1;
    if e != [] {
      assert e[1..] == Leaders(groups, at + 1);
      LeftIs(groups, g, e, 1);
    }
  }

  lemma FirstWalk(groups: Groups, fl: Flags, d: Desc) returns (at: nat)
    requires Apart(groups) && GoodFlags(fl) && d.cookie == 0
    ensures at <= ENUM_MAX
    ensures var r, c := DevEnum(groups, 0, fl, d), Leaders(groups, 0);
            && (c == [] <==> at == ENUM_MAX)
            && (c == [] ==> r.d.cookie == 0 && DoneUpTo(r.fl, ENUM_MAX))
            && (c != [] ==> Leads(groups[at]) && r.d.cookie == groups[at][0].cookie
                            && c == [groups[at][0].cookie] + Leaders(groups, at + 1) && DoneUpTo(r.fl, at + 1))
  {
    at := WalkFlags(groups, ENUM_IDE, ResetFlags(), d.(typ := DEV_TYP_NET));
    LeadersAt(groups, ENUM_IDE, at);
  }

  /** Every later call, on flags nobody has disturbed. */
  lemma SoloNext(groups: Groups, now: nat, fl: Flags, d: Desc, e: seq<nat>, net: bool, k: nat, g: nat) returns (g': nat)
    requires Apart(groups) && NetFresh(groups, e, net) && DoneUpTo(fl, g) && Stand(groups, e, net, k, g)
    requires k <= |e| && d.cookie == e[k - 1]
    ensures var r := DevEnum(groups, now, fl, d);
            r.d.cookie == Item(e, k) && DoneUpTo(r.fl, g') && Stand(groups, e, net, k + 1, g')
  {
    StandUnknown(groups, e, net, k, g, g);
    LeftIs(groups, g, e, k);
    var at := CallBehind(groups, now, fl, g, d);
    g' := if k == |e| then ENUM_MAX else at + 1;
    if k < |e| {
      assert e[k..][0] == e[k] && e[k..][1..] == e[k + 1..];
      LeftIs(groups, g', e, k + 1);
    }
  }

  // ----- Until the first caller calls again

  lemma {:induction false} MadeGrows(who: seq<bool>, x: bool, j: nat, k: nat)
    requires j <= k <= |who|
    ensures Made(who, x, j) <= Made(who, x, k) && Made(who, x, k) <= Made(who, x, j) + (k - j)
  {
    if j == k {
    } else {
      MadeGrows(who, x, j, k - 1);
    }
  }

  lemma {:induction false} MadeFlat(who: seq<bool>, x: bool, j: nat, k: nat)
    requires j <= k <= |who| && forall i | j <= i < k :: who[i] == x
    ensures Made(who, x, k) == Made(who, x, j) + (k - j) && Made(who, !x, k) == Made(who, !x, j)
  {
    if j == k {
    } else {
      MadeFlat(who, x, j, k - 1);
    }
  }

  lemma Counts(z: FairPlay, k: nat)
    requires k <= z.t
    ensures Made(z.who, true, k) == (if k <= z.s then k else z.s)
    ensures Made(z.who, false, k) == (if k <= z.s then 0 else k - z.s)
    ensures z.s <= |z.ea| + 1 && z.t - z.s <= |z.eb| + 1
  {
    MadeFlat(z.who, true, 0, if k <= z.s then k else z.s);
    MadeFlat(z.who, true, 0, z.s);
    if k > z.s {
      MadeFlat(z.who, false, z.s, k);
    }
    MadeFlat(z.who, false, z.s, z.t);
    MadeGrows(z.who, true, z.s, |z.who|);
    MadeGrows(z.who, false, z.t, |z.who|);
  }

  /** A caller in the middle of an undisturbed sweep, after n calls. */
  ghost predicate Solo(groups: Groups, fl: Flags, d: Desc, e: seq<nat>, net: bool, n: nat, g: nat) {
    && DoneUpTo(fl, g) && Stand(groups, e, net, n, g) && NetFresh(groups, e, net)
    && d.cookie == Item(e, n - 1)
  }

  /** One call, in terms of API_dev_enum. */
  lemma OneCall(z: Play, x: bool, k: nat)
    requires CallsDevEnum(z) && k < |z.who| && z.who[k] == x && GoodFlags(Both(z, k).fl)
    ensures var now, r := Both(z, k), DevEnum(z.groups, z.curs(k), Both(z, k).fl, Of(Both(z, k), x));
            Both(z, k + 1).fl == r.fl && Of(Both(z, k + 1), x) == r.d && Of(Both(z, k + 1), !x) == Of(now, !x)
  {
    assert SameCall(z, k, Both(z, k).fl, Of(Both(z, k), x));
  }

  lemma SoloStep(z: Play, x: bool, k: nat, e: seq<nat>, net: bool, n: nat, g: nat) returns (g': nat)
    requires CallsDevEnum(z) && Apart(z.groups) && k < |z.who| && z.who[k] == x && n <= |e|
    requires Solo(z.groups, Both(z, k).fl, Of(Both(z, k), x), e, net, n, g)
    ensures Solo(z.groups, Both(z, k + 1).fl, Of(Both(z, k + 1), x), e, net, n + 1, g')
    ensures Of(Both(z, k + 1), !x) == Of(Both(z, k), !x)
  {
    var now := Both(z, k);
    OneCall(z, x, k);
    g' := SoloNext(z.groups, z.curs(k), now.fl, Of(now, x), e, net, n, g);
  }

  /** After call k of all, x is undisturbed since it began at call lo; the groups below g are done, the other caller is at d. */
  ghost predicate SoloAt(z: Play, x: bool, lo: nat, e: seq<nat>, net: bool, d: Desc, k: nat, g: nat) {
    && lo < k <= |z.who| && Solo(z.groups, Both(z, k).fl, Of(Both(z, k), x), e, net, k - lo, g)
    && Of(Both(z, k), !x) == d
  }

  lemma SoloAdvances(z: Play, x: bool, lo: nat, e: seq<nat>, net: bool, d: Desc, k: nat, g: nat) returns (g': nat)
    requires CallsDevEnum(z) && Apart(z.groups) && k < |z.who| && z.who[k] == x && k <= |e| + lo
    requires SoloAt(z, x, lo, e, net, d, k, g)
    ensures SoloAt(z, x, lo, e, net, d, k + 1, g')
  {
    g' := SoloStep(z, x, k, e, net, k - lo, g);
  }

  ghost predicate Moves(p: (nat, nat) -> bool, k: nat) {
    forall g: nat | p(k, g) :: Goes(p, k + 1)
  }

  ghost predicate Goes(p: (nat, nat) -> bool, k: nat) {
    exists g: nat :: p(k, g)
  }

  lemma {:induction false} Chain(p: (nat, nat) -> bool, lo: nat, k: nat)
    requires lo <= k && Goes(p, lo) && forall i: nat | lo <= i < k :: Moves(p, i)
    ensures Goes(p, k)
  {
    if k == lo {
    } else {
      Chain(p, lo, k - 1);
      assert Moves(p, k - 1);
    }
  }

  ghost function SoloFrom(z: Play, x: bool, lo: nat, e: seq<nat>, net: bool, d: Desc): (nat, nat) -> bool {
    (k: nat, g: nat) => SoloAt(z, x, lo, e, net, d, k, g)
  }

  lemma SoloMoves(z: Play, x: bool, lo: nat, e: seq<nat>, net: bool, d: Desc, k: nat)
    requires CallsDevEnum(z) && Apart(z.groups) && k < |z.who| && z.who[k] == x && k <= |e| + lo
    ensures Moves(SoloFrom(z, x, lo, e, net, d), k)
  {
    var p := SoloFrom(z, x, lo, e, net, d);
    forall g: nat | p(k, g) ensures Goes(p, k + 1) {
      var g' := SoloAdvances(z, x, lo, e, net, d, k, g);
      assert p(k + 1, g');
    }
  }

  /** The calls that follow without a break. */
  lemma SoloCalls(z: Play, x: bool, lo: nat, e: seq<nat>, net: bool, d: Desc, k: nat, g: nat) returns (g': nat)
    requires CallsDevEnum(z) && Apart(z.groups) && lo < k <= |z.who| && k <= |e| + 1 + lo
    requires forall i | lo <= i < k :: z.who[i] == x
    requires SoloAt(z, x, lo, e, net, d, lo + 1, g)
    ensures SoloAt(z, x, lo, e, net, d, k, g')
  {
    var p := SoloFrom(z, x, lo, e, net, d);
    assert p(lo + 1, g);
    forall i: nat | lo + 1 <= i < k ensures Moves(p, i) {
      SoloMoves(z, x, lo, e, net, d, i);
    }
    Chain(p, lo + 1, k);
    g' :| p(k, g');
  }

  /** A caller's first call, on whatever flags. */
  lemma SoloBegin(z: Play, x: bool, lo: nat, e: seq<nat>) returns (g: nat)
    requires CallsDevEnum(z) && Apart(z.groups) && lo < |z.who| && z.who[lo] == x
    requires FreshInterface(z.groups, z.curs(lo)) && e == Expected(z.groups, z.curs(lo))
    requires Of(Both(z, lo), x).cookie == 0 && GoodFlags(Both(z, lo).fl)
    ensures SoloAt(z, x, lo, e, z.curs(lo) != 0, Of(Both(z, lo), !x), lo + 1, g)
  {
    OneCall(z, x, lo);
    g := SoloFirst(z.groups, z.curs(lo), Both(z, lo).fl, Of(Both(z, lo), x));
  }

  /** The first caller before the other one begins. */
  lemma FirstAlone(z: FairPlay, k: nat) returns (g: nat)
    requires 0 < k <= z.s
    ensures SoloAt(z, true, 0, z.ea, z.curs(0) != 0, z.start.b, k, g)
  {
    Counts(z, 0);
    assert DueFrom(z, 0);
    var g0 := SoloBegin(z, true, 0, z.ea);
    g := SoloCalls(z, true, 0, z.ea, z.curs(0) != 0, z.start.b, k, g0);
  }

  /** The other one before the first calls again. */
  lemma OtherAlone(z: FairPlay, k: nat) returns (g: nat)
    requires z.s < k <= z.t
    ensures SoloAt(z, false, z.s, z.eb, z.curs(z.s) != 0, Both(z, z.s).a, k, g)
  {
    Counts(z, 0);
    var ga := FirstAlone(z, z.s);
    assert DueFrom(z, z.s);
    var g0 := SoloBegin(z, false, z.s, z.eb);
    g := SoloCalls(z, false, z.s, z.eb, z.curs(z.s) != 0, Both(z, z.s).a, k, g0);
  }

  /** Until the first caller calls again all is well. */
  lemma RightBefore(z: FairPlay, k: nat)
    requires k < z.t
    ensures Right(z, k)
  {
    Counts(z, k);
    if k < z.s {
      FirstGives(z, k + 1);
    } else {
      OtherGives(z, k + 1);
    }
  }

  lemma FirstGives(z: FairPlay, k: nat)
    requires 0 < k <= z.s
    ensures Both(z, k).a.cookie == Item(z.ea, k - 1)
  {
    var g := FirstAlone(z, k);
  }

  lemma OtherGives(z: FairPlay, k: nat)
    requires z.s < k <= z.t
    ensures Both(z, k).b.cookie == Item(z.eb, k - z.s - 1) && Both(z, k).a.cookie == Item(z.ea, z.s - 1)
  {
    var g := OtherAlone(z, k);
    FirstGives(z, z.s);
  }

  // ----- The first caller's return, call by call

  lemma {:induction false} NoneIff(groups: Groups, g: nat)
    requires g <= ENUM_MAX
    ensures Leaders(groups, g) == [] <==> NoLeaderIn(groups, g, ENUM_MAX)
    decreases ENUM_MAX - g
  {
    if g == ENUM_MAX {
    } else {
      LeadersStep(groups, g);
      NoneIff(groups, g + 1);
    }
  }

  lemma BeforeUnique(groups: Groups, e: seq<nat>, net: bool, k: nat, g: nat, g': nat)
    requires Apart(groups) && Before(groups, e, net, k, g) && Before(groups, e, net, k, g')
    ensures g == g'
  {
    if !(k == 1 && net) {
      SameHead(groups, g - 1, g' - 1);
    }
  }

  lemma SameHead(groups: Groups, g: nat, h: nat)
    requires Apart(groups) && g < ENUM_MAX && h < ENUM_MAX && Leads(groups[g]) && Leads(groups[h])
    requires groups[g][0].cookie == groups[h][0].cookie
    ensures g == h
  {
    assert g != h ==> ApartAt(groups, g, h);
  }

  lemma NextItem(groups: Groups, e: seq<nat>, net: bool, k: nat, g: nat)
    requires Stand(groups, e, net, k, g)
    ensures Item(e, k) == Head(groups, g) && (k < |e| <==> !NoLeaderIn(groups, g, ENUM_MAX))
  {
    NoneIff(groups, g);
    if k <= |e| {
      LeftIs(groups, g, e, k);
      assert k < |e| ==> e[k..][0] == e[k];
    }
  }

  /** A group whose second device is known to be inactive, with more slots behind it. */
  predicate Skips(disks: seq<Disk>) {
    |disks| > 2 && disks[1].cookie != 0 && !disks[1].active
  }

  /** The step in one's own group when it counts as untouched, and no second device is there to be returned. */
  lemma MineFlags(groups: Groups, fl: Flags, h: nat, d: Desc)
    requires Apart(groups) && OncePerGroup(groups) && h < ENUM_MAX && DoneUpTo(fl, h)
    requires Leads(groups[h]) && d.cookie == groups[h][0].cookie && !Present(groups, h, 1)
    ensures var r := EnumStor(groups, h, fl, d);
            && !r.found && UntouchedFrom(r.fl, h + 1)
            && (r.d.cookie == 0 || !Known(groups, r.d.cookie, h + 1))
            && (r.fl.ended[h] <==> !Skips(groups[h])) && !r.fl.started[h]
            && forall y | 0 <= y < h :: r.fl.ended[y]
  {
    MineAgain(groups, fl, h, d);
    OwnGroup(groups, h);
  }

  /** The flags when the cookie's own group h counts as untouched: all ended up to `at`, except h if it skips. */
  ghost predicate Reopened(groups: Groups, fl: Flags, h: nat, at: nat) {
    && h < ENUM_MAX && GoodFlags(fl) && !fl.started[h]
    && (fl.ended[h] <==> !Skips(groups[h]))
    && forall y | 0 <= y <= at && y < ENUM_MAX && y != h :: fl.ended[y]
  }

  /** A call from group h when the flags say that h is untouched. */
  lemma CallInPlace(groups: Groups, cur: nat, fl: Flags, h: nat, d: Desc) returns (at: nat)
    requires Apart(groups) && OncePerGroup(groups) && h < ENUM_MAX && DoneUpTo(fl, h)
    requires Leads(groups[h]) && d.cookie == groups[h][0].cookie && !Present(groups, h, 1)
    ensures h < at <= ENUM_MAX
    ensures var r := DevEnum(groups, cur, fl, d);
            && r.d.cookie == Head(groups, h + 1) && Reopened(groups, r.fl, h, at)
            && (at < ENUM_MAX ==> Leads(groups[at]) && r.d.cookie == groups[at][0].cookie)
            && NoLeaderIn(groups, h + 1, at)
  {
    var mid, d' := PastMine(groups, cur, fl, h, d);
    at := WalkFlags(groups, h + 1, mid, d');
    LeadersAt(groups, h + 1, at);
  }

  lemma PastMine(groups: Groups, cur: nat, fl: Flags, h: nat, d: Desc) returns (mid: Flags, d': Desc)
    requires Apart(groups) && OncePerGroup(groups) && h < ENUM_MAX && DoneUpTo(fl, h)
    requires Leads(groups[h]) && d.cookie == groups[h][0].cookie && !Present(groups, h, 1)
    ensures UntouchedFrom(mid, h + 1) && Reopened(groups, mid, h, h)
    ensures d'.cookie == 0 || !Known(groups, d'.cookie, h + 1)
    ensures var r := EnumStorage(groups, h + 1, mid, d'); DevEnum(groups, cur, fl, d) == if r.found then r else r.(d := r.d.(cookie := 0))
  {
    PassEnded(groups, ENUM_IDE, h, fl, d);
    MineFlags(groups, fl, h, d);
    var r := EnumStor(groups, h, fl, d);
    mid, d' := r.fl, r.d;
  }

  /** The first caller has all its devices and asks on, while the other one, after nb calls, is at flags done up to g. */
  lemma AllButOne(groups: Groups, cur: nat, fl: Flags, g: nat, d: Desc, e: seq<nat>, net: bool, ga: nat)
    requires Apart(groups) && NetFresh(groups, e, net) && Stand(groups, e, net, |e|, ga) && d.cookie == Item(e, |e| - 1)
    requires DoneUpTo(fl, g) && NoLeaderIn(groups, g, ENUM_MAX)
    ensures var r := DevEnum(groups, cur, fl, d); r.d.cookie == 0 && DoneUpTo(r.fl, ENUM_MAX)
  {
    NoneIff(groups, g);
    if ga <= g {
      StandUnknown(groups, e, net, |e|, ga, g);
      var at := CallBehind(groups, cur, fl, g, d);
    }
  }

  /** The same when the other one has devices to come: NULL is returned only from the group before which it stands. */
  lemma AllButMore(groups: Groups, cur: nat, fl: Flags, g: nat, d: Desc, e: seq<nat>, net: bool, ga: nat)
    requires Apart(groups) && OncePerGroup(groups) && NetFresh(groups, e, net)
    requires Stand(groups, e, net, |e|, ga) && d.cookie == Item(e, |e| - 1)
    requires DoneUpTo(fl, g) && !NoLeaderIn(groups, g, ENUM_MAX)
    ensures ga > 0 && g < ga && Leads(groups[ga - 1]) && NoLeaderIn(groups, ga, ENUM_MAX)
    ensures var r := DevEnum(groups, cur, fl, d);
            && (r.d.cookie == 0 <==> g == ga - 1 && !Present(groups, g, 1))
            && (r.d.cookie == 0 ==> Reopened(groups, r.fl, g, ENUM_MAX))
  {
    NextItem(groups, e, net, |e|, ga);
    assert NoLeaderIn(groups, ga, ENUM_MAX) && g < ga;
    var h := ga - 1;
    if g < h {
      CallBefore(groups, cur, fl, g, h, d);
    } else if Present(groups, h, 1) {
      CallAt(groups, cur, fl, h, d);
    } else {
      var at := CallInPlace(groups, cur, fl, h, d);
    }
  }

  // ----- The first caller returns for its NULL

  /** Where both stand when the first caller calls again. */
  ghost predicate AtReturn(z: Play, ga: nat, g: nat) {
    && z.s < z.t <= |z.who|
    && Stand(z.groups, z.ea, z.curs(0) != 0, z.s, ga) && NetFresh(z.groups, z.ea, z.curs(0) != 0)
    && Both(z, z.t).a.cookie == Item(z.ea, z.s - 1)
    && Solo(z.groups, Both(z, z.t).fl, Both(z, z.t).b, z.eb, z.curs(z.s) != 0, z.t - z.s, g)
  }

  lemma Returns(z: FairPlay) returns (ga: nat, g: nat)
    ensures AtReturn(z, ga, g)
  {
    ga := FirstAlone(z, z.s);
    g := OtherAlone(z, z.t);
    FirstGives(z, z.s);
  }

  /** After its NULL the first caller makes no more calls. */
  lemma OnlyOther(z: FairPlay)
    requires z.t < |z.who| && z.s == |z.ea|
    ensures forall k | z.t < k < |z.who| :: !z.who[k]
    ensures |z.who| == z.t + 1 + (|z.eb| + 1 - (z.t - z.s))
    ensures forall k | z.t < k < |z.who| :: Made(z.who, false, k) == z.t - z.s + (k - z.t - 1)
  {
    Counts(z, z.t);
    forall k | z.t < k < |z.who| ensures !z.who[k] {
      MadeGrows(z.who, true, z.t + 1, k);
      MadeGrows(z.who, true, k + 1, |z.who|);
    }
    MadeFlat(z.who, false, z.t + 1, |z.who|);
    forall k | z.t < k < |z.who| ensures Made(z.who, false, k) == z.t - z.s + (k - z.t - 1) {
      MadeFlat(z.who, false, z.t + 1, k);
    }
  }

  /** When all groups are done, the next call returns NULL. */
  lemma CallDone(groups: Groups, cur: nat, fl: Flags, d: Desc)
    requires DoneUpTo(fl, ENUM_MAX) && d.cookie != 0
    ensures DevEnum(groups, cur, fl, d).d.cookie == 0
  {
    PassEnded(groups, ENUM_IDE, ENUM_MAX, fl, d);
  }

  /** The other caller stands before the reopened group h: it gets the leader of h only if h skips. */
  lemma CallReopened(groups: Groups, cur: nat, fl: Flags, h: nat, d: Desc)
    requires Apart(groups) && Reopened(groups, fl, h, ENUM_MAX) && Leads(groups[h])
    requires d.cookie != 0 && !Known(groups, d.cookie, h)
    ensures var r := DevEnum(groups, cur, fl, d);
            if Skips(groups[h]) then r.d.cookie == groups[h][0].cookie && DoneUpTo(r.fl, ENUM_MAX) else r.d.cookie == 0
  {
    if Skips(groups[h]) {
      PassEnded(groups, ENUM_IDE, h, fl, d);
      assert SlotOf(groups[h], d.cookie) == |groups[h]|;
    } else {
      PassEnded(groups, ENUM_IDE, ENUM_MAX, fl, d);
    }
  }

  /** The first caller's call at t. */
  lemma ReturnIsRight(z: FairPlay)
    requires z.t < |z.who|
    ensures var now := Both(z, z.t);
            var r := z.call(z.t, now.fl, now.a);
            && (Right(z, z.t) <==> r.d.cookie == Item(z.ea, z.s))
            && Both(z, z.t + 1).fl == r.fl && Both(z, z.t + 1).b == now.b
  {
    Counts(z, z.t);
  }

  /** A call of the other one after t. */
  lemma OtherCalls(z: FairPlay, k: nat)
    requires z.t < k < |z.who| && !z.who[k]
    ensures var now := Both(z, k);
            var r := z.call(k, now.fl, now.b);
            && (Right(z, k) <==> r.d.cookie == Item(z.eb, Made(z.who, false, k)))
            && Both(z, k + 1).fl == r.fl && Both(z, k + 1).b == r.d
  {
  }

  lemma WholeIf(z: FairPlay)
    requires forall k | z.t <= k < |z.who| :: Right(z, k)
    ensures BothWhole(z)
  {
    forall k | 0 <= k < |z.who| ensures Right(z, k) {
      if k < z.t {
        RightBefore(z, k);
      }
    }
  }

  /** The other caller has all its devices as well: the first gets NULL. */
  lemma AllSeenReturn(z: FairPlay)
    requires z.t < |z.who| && z.s == |z.ea| && z.t - z.s >= |z.eb|
    ensures Right(z, z.t) && DoneUpTo(Both(z, z.t + 1).fl, ENUM_MAX)
    ensures z.t - z.s == |z.eb| ==> Both(z, z.t + 1).b.cookie != 0
  {
    var ga, g := Returns(z);
    AllSeenNow(z, ga, g);
    ReturnIsRight(z);
  }

  lemma AllSeenNow(z: Play, ga: nat, g: nat)
    requires CallsDevEnum(z) && Apart(z.groups) && AtReturn(z, ga, g)
    requires z.t < |z.who| && z.s == |z.ea| && z.t - z.s >= |z.eb|
    ensures var now := Both(z, z.t);
            var r := z.call(z.t, now.fl, now.a);
            && r.d.cookie == 0 && DoneUpTo(r.fl, ENUM_MAX)
            && (z.t - z.s == |z.eb| ==> now.b.cookie != 0)
  {
    var now := Both(z, z.t);
    AllSeenCall(z.groups, z.curs(z.t), now.fl, g, now.a, z.ea, z.curs(0) != 0, ga, z.eb, z.curs(z.s) != 0, z.t - z.s, now.b);
    assert SameCall(z, z.t, now.fl, now.a);
  }

  lemma AllSeenCall(groups: Groups, cur: nat, fl: Flags, g: nat, d: Desc, ea: seq<nat>, na: bool, ga: nat,
                    eb: seq<nat>, nb: bool, k: nat, b: Desc)
    requires k > 0 && b.cookie == Item(eb, k - 1)
    requires Apart(groups) && NetFresh(groups, ea, na) && Stand(groups, ea, na, |ea|, ga) && d.cookie == Item(ea, |ea| - 1)
    requires NetFresh(groups, eb, nb) && Stand(groups, eb, nb, k, g) && DoneUpTo(fl, g) && k >= |eb|
    ensures var r := DevEnum(groups, cur, fl, d); r.d.cookie == 0 && DoneUpTo(r.fl, ENUM_MAX)
    ensures k == |eb| ==> b.cookie != 0
  {
    NextItem(groups, eb, nb, k, g);
    AllButOne(groups, cur, fl, g, d, ea, na, ga);
    if k == |eb| {
      StandUnknown(groups, eb, nb, k, g, g);
    }
  }

  /** And then the other one does, if it has not yet. */
  lemma AllSeen(z: FairPlay)
    requires z.t < |z.who| && z.s == |z.ea| && z.t - z.s >= |z.eb|
    ensures BothWhole(z)
  {
    OnlyOther(z);
    AllSeenReturn(z);
    if z.t - z.s == |z.eb| {
      NullForOther(z, z.t + 1);
    }
    WholeIf(z);
  }

  lemma NullForOther(z: FairPlay, k: nat)
    requires z.t < k < |z.who| && !z.who[k] && Made(z.who, false, k) == |z.eb|
    requires DoneUpTo(Both(z, k).fl, ENUM_MAX) && Both(z, k).b.cookie != 0
    ensures Right(z, k)
  {
    OtherCalls(z, k);
    assert SameCall(z, k, Both(z, k).fl, Both(z, k).b);
    CallDone(z.groups, z.curs(k), Both(z, k).fl, Both(z, k).b);
  }

  /** The other caller stands before the last group that leads, which is the first caller's, and it skips. */
  ghost predicate LastSkips(z: Play) {
    exists h: nat :: LastSkipsAt(z, h)
  }

  ghost predicate LastSkipsAt(z: Play, h: nat) {
    && h < ENUM_MAX && Leads(z.groups[h]) && NoLeaderIn(z.groups, h + 1, ENUM_MAX) && Skips(z.groups[h])
    && z.s < z.t && Before(z.groups, z.eb, z.curs(z.s) != 0, z.t - z.s, h)
  }

  /**
   The other caller has devices to come: the first gets NULL only in place, from the group
   before which the other stands, and then the other's next call gives it the leader of
   that group only if the group skips.
   */
  lemma MoreCalls(groups: Groups, cur: nat, cur': nat, fl: Flags, g: nat, a: Desc, b: Desc,
                  ea: seq<nat>, na: bool, ga: nat, eb: seq<nat>, nb: bool, k: nat) returns (inPlace: bool)
    requires Apart(groups) && OncePerGroup(groups) && DoneUpTo(fl, g)
    requires NetFresh(groups, ea, na) && Stand(groups, ea, na, |ea|, ga) && a.cookie == Item(ea, |ea| - 1)
    requires NetFresh(groups, eb, nb) && Stand(groups, eb, nb, k, g) && b.cookie == Item(eb, k - 1) && k < |eb|
    ensures g < ga && Leads(groups[ga - 1]) && NoLeaderIn(groups, ga, ENUM_MAX)
    ensures inPlace <==> g == ga - 1 && !Present(groups, g, 1)
    ensures var r := DevEnum(groups, cur, fl, a); r.d.cookie == 0 <==> inPlace
    ensures inPlace ==> k + 1 == |eb|
    ensures inPlace ==>
              var r := DevEnum(groups, cur', DevEnum(groups, cur, fl, a).fl, b);
              && (r.d.cookie == Item(eb, k) <==> Skips(groups[g]))
              && (Skips(groups[g]) ==> DoneUpTo(r.fl, ENUM_MAX) && r.d.cookie != 0)
  {
    NextItem(groups, eb, nb, k, g);
    AllButMore(groups, cur, fl, g, a, ea, na, ga);
    inPlace := g == ga - 1 && !Present(groups, g, 1);
    if inPlace {
      BackCall(groups, cur', DevEnum(groups, cur, fl, a).fl, g, b, eb, nb, k);
    }
  }

  lemma BackCall(groups: Groups, cur: nat, fl: Flags, h: nat, d: Desc, e: seq<nat>, net: bool, k: nat)
    requires Apart(groups) && NetFresh(groups, e, net) && Stand(groups, e, net, k, h) && k < |e|
    requires h < ENUM_MAX && Leads(groups[h]) && NoLeaderIn(groups, h + 1, ENUM_MAX)
    requires Reopened(groups, fl, h, ENUM_MAX) && d.cookie == Item(e, k - 1)
    ensures k + 1 == |e|
    ensures var r := DevEnum(groups, cur, fl, d);
            && (r.d.cookie == Item(e, k) <==> Skips(groups[h]))
            && (Skips(groups[h]) ==> DoneUpTo(r.fl, ENUM_MAX) && r.d.cookie != 0)
  {
    OneLeft(groups, e, k, h);
    NextItem(groups, e, net, k, h);
    LeadersStep(groups, h);
    StandUnknown(groups, e, net, k, h, h);
    CallReopened(groups, cur, fl, h, d);
  }

  lemma MoreReturn(z: FairPlay) returns (h: nat, inPlace: bool)
    requires z.t < |z.who| && z.s == |z.ea| && z.t - z.s < |z.eb|
    ensures Right(z, z.t) <==> inPlace
    ensures h < ENUM_MAX && (LastSkips(z) <==> inPlace && Skips(z.groups[h]))
    ensures inPlace ==>
              && |z.who| == z.t + 3 && z.t - z.s + 1 == |z.eb|
              && (Right(z, z.t + 1) <==> Skips(z.groups[h]))
              && (Skips(z.groups[h]) ==> DoneUpTo(Both(z, z.t + 2).fl, ENUM_MAX) && Both(z, z.t + 2).b.cookie != 0)
  {
    var ga, g := Returns(z);
    h, inPlace := MoreNow(z, ga, g);
    LastSkipsIs(z, ga, g);
    ReturnIsRight(z);
    OnlyOther(z);
    if inPlace {
      OtherCalls(z, z.t + 1);
    }
  }

  lemma MoreNow(z: Play, ga: nat, g: nat) returns (h: nat, inPlace: bool)
    requires CallsDevEnum(z) && Apart(z.groups) && OncePerGroup(z.groups) && AtReturn(z, ga, g)
    requires z.t < |z.who| && z.s == |z.ea| && z.t - z.s < |z.eb|
    ensures h == g < ga && Leads(z.groups[ga - 1]) && NoLeaderIn(z.groups, ga, ENUM_MAX)
    ensures inPlace <==> g == ga - 1 && !Present(z.groups, g, 1)
    ensures inPlace ==> z.t - z.s + 1 == |z.eb|
    ensures var now := Both(z, z.t);
            var r := z.call(z.t, now.fl, now.a);
            var next := z.call(z.t + 1, r.fl, now.b);
            && (r.d.cookie == 0 <==> inPlace)
            && (inPlace ==>
                  && (next.d.cookie == Item(z.eb, z.t - z.s) <==> Skips(z.groups[h]))
                  && (Skips(z.groups[h]) ==> DoneUpTo(next.fl, ENUM_MAX) && next.d.cookie != 0))
  {
    var now := Both(z, z.t);
    inPlace := MoreCalls(z.groups, z.curs(z.t), z.curs(z.t + 1), now.fl, g, now.a, now.b,
                         z.ea, z.curs(0) != 0, ga, z.eb, z.curs(z.s) != 0, z.t - z.s);
    assert SameCall(z, z.t, now.fl, now.a) && SameCall(z, z.t + 1, z.call(z.t, now.fl, now.a).fl, now.b);
    h := g;
  }

  lemma MoreToSee(z: FairPlay)
    requires z.t < |z.who| && z.s == |z.ea| && z.t - z.s < |z.eb|
    ensures BothWhole(z) <==> LastSkips(z)
  {
    var h, inPlace := MoreReturn(z);
    if inPlace && Skips(z.groups[h]) {
      OnlyOther(z);
      NullForOther(z, z.t + 2);
      WholeIf(z);
    }
  }

  lemma LastSkipsIs(z: Play, ga: nat, g: nat)
    requires Apart(z.groups) && AtReturn(z, ga, g) && ga > 0 && Leads(z.groups[ga - 1]) && NoLeaderIn(z.groups, ga, ENUM_MAX)
    ensures LastSkips(z) <==> g == ga - 1 && Skips(z.groups[g])
    ensures LastSkips(z) ==> !Present(z.groups, g, 1)
  {
    if h: nat :| LastSkipsAt(z, h) {
      BeforeUnique(z.groups, z.eb, z.curs(z.s) != 0, z.t - z.s, g, h);
      assert !(h < ga - 1) && !(h > ga - 1);
    }
    if g == ga - 1 && Skips(z.groups[g]) {
      assert LastSkipsAt(z, g);
    }
  }

  lemma OneLeft(groups: Groups, e: seq<nat>, k: nat, h: nat)
    requires k <= |e| && h < ENUM_MAX && Left(groups, h, e, k)
    requires Leads(groups[h]) && NoLeaderIn(groups, h + 1, ENUM_MAX)
    ensures k + 1 == |e|
  {
    LeftIs(groups, h, e, k);
    LeadersStep(groups, h);
    NoneIff(groups, h + 1);
  }

  // ----- The first caller returns for a device

  /**
   The leader of group l has been given away: group l is ended, and so are those before it,
   except perhaps group h, which leads and skips. Nobody gets that leader any more.
   */
  ghost predicate Blocked(groups: Groups, fl: Flags, h: nat, l: nat) {
    && GoodFlags(fl) && l < ENUM_MAX && Leads(groups[l]) && fl.ended[l]
    && (forall y | 0 <= y < l && y != h :: fl.ended[y])
    && (h < l ==> Leads(groups[h]) && (fl.ended[h] || Skips(groups[h])))
  }

  /** The cookie is the leader of group h, or not of that group. */
  ghost predicate LeaderOrNone(groups: Groups, h: nat, cookie: nat) {
    h < ENUM_MAX ==> (Leads(groups[h]) && cookie == groups[h][0].cookie) || SlotOf(groups[h], cookie) == |groups[h]|
  }

  /** A walk from some group on leaves the flags before it alone, and returns a device from there on. */
  lemma {:induction false} Onwards(groups: Groups, from: nat, fl: Flags, d: Desc)
    requires from <= ENUM_MAX && GoodFlags(fl)
    ensures var r := EnumStorage(groups, from, fl, d);
            && (forall y | 0 <= y < from :: r.fl.ended[y] == fl.ended[y])
            && (r.found ==> Known(groups, r.d.cookie, from))
    decreases ENUM_MAX - from
  {
    if from == ENUM_MAX {
    } else {
      OneFlag(groups, from, fl, d);
      var r := EnumStor(groups, from, fl, d);
      if !r.found {
        Onwards(groups, from + 1, r.fl, r.d);
      }
    }
  }

  lemma OneFlag(groups: Groups, g: nat, fl: Flags, d: Desc)
    requires g < ENUM_MAX && GoodFlags(fl)
    ensures var r := EnumStor(groups, g, fl, d);
            && (forall y | 0 <= y < ENUM_MAX && y != g :: r.fl.ended[y] == fl.ended[y])
            && (r.found ==> Known(groups, r.d.cookie, g))
  {
  }

  /** The groups up to l are passed over. */
  lemma PassBlocked(groups: Groups, from: nat, fl: Flags, h: nat, l: nat, d: Desc)
    requires Apart(groups) && Blocked(groups, fl, h, l) && from <= l && d.cookie != 0
    requires forall y | from <= y <= l :: fl.ended[y]
    ensures var r := EnumStorage(groups, from, fl, d);
            && (r.found ==> r.d.cookie != groups[l][0].cookie)
            && Blocked(groups, r.fl, h, l)
  {
    PassEnded(groups, from, l + 1, fl, d);
    Onwards(groups, l + 1, fl, d);
    HeadApart(groups, l);
  }

  /** What a call does in a group h that leads, skips and is not ended. */
  lemma InSkipping(groups: Groups, fl: Flags, h: nat, d: Desc)
    requires Apart(groups) && h < ENUM_MAX && GoodFlags(fl) && !fl.ended[h]
    requires Leads(groups[h]) && Skips(groups[h]) && d.cookie != 0 && LeaderOrNone(groups, h, d.cookie)
    ensures var r := EnumStor(groups, h, fl, d);
            && (forall y | 0 <= y < ENUM_MAX && y != h :: r.fl.ended[y] == fl.ended[y])
            && r.d.cookie != 0 && (r.found ==> r.d.cookie == groups[h][0].cookie)
  {
    OwnGroup(groups, h);
  }

  lemma BlockedCall(groups: Groups, cur: nat, fl: Flags, h: nat, l: nat, d: Desc)
    requires Apart(groups) && Blocked(groups, fl, h, l) && d.cookie != 0 && LeaderOrNone(groups, h, d.cookie)
    ensures var r := DevEnum(groups, cur, fl, d); r.d.cookie != groups[l][0].cookie && Blocked(groups, r.fl, h, l)
  {
    if h >= l || fl.ended[h] {
      PassBlocked(groups, 0, fl, h, l, d);
    } else {
      PassEnded(groups, ENUM_IDE, h, fl, d);
      ThroughSkipping(groups, fl, h, l, d);
    }
  }

  lemma ThroughSkipping(groups: Groups, fl: Flags, h: nat, l: nat, d: Desc)
    requires Apart(groups) && Blocked(groups, fl, h, l) && h < l && !fl.ended[h]
    requires d.cookie != 0 && LeaderOrNone(groups, h, d.cookie)
    ensures var r := EnumStorage(groups, h, fl, d);
            (r.found ==> r.d.cookie != groups[l][0].cookie) && Blocked(groups, r.fl, h, l)
  {
    InSkipping(groups, fl, h, d);
    var r := EnumStor(groups, h, fl, d);
    if r.found {
      SameHeadNot(groups, h, l);
    } else {
      PassBlocked(groups, h + 1, r.fl, h, l, r.d);
    }
  }

  lemma SameHeadNot(groups: Groups, g: nat, h: nat)
    requires Apart(groups) && g < ENUM_MAX && h < ENUM_MAX && g != h && Leads(groups[g]) && Leads(groups[h])
    ensures groups[g][0].cookie != groups[h][0].cookie
  {
    assert ApartAt(groups, g, h);
  }

  /** The leader of group l is item j of the other caller's sweep, and is given away. */
  ghost predicate GivenAway(groups: Groups, fl: Flags, eb: seq<nat>, k: nat, h: nat, l: nat, j: nat) {
    Blocked(groups, fl, h, l) && k <= j < |eb| && eb[j] == groups[l][0].cookie
  }

  /** The first caller gets its next device only by giving away one that the other has still to get. */
  lemma EarlyReturn(groups: Groups, cur: nat, fl: Flags, g: nat, a: Desc, ea: seq<nat>, na: bool, s: nat, ga: nat,
                    eb: seq<nat>, nb: bool, k: nat) returns (h: nat, l: nat, j: nat)
    requires Apart(groups) && OncePerGroup(groups) && DoneUpTo(fl, g) && s < |ea|
    requires NetFresh(groups, ea, na) && Stand(groups, ea, na, s, ga) && a.cookie == Item(ea, s - 1)
    requires Stand(groups, eb, nb, k, g)
    ensures var r := DevEnum(groups, cur, fl, a);
            r.d.cookie == Item(ea, s) ==> GivenAway(groups, r.fl, eb, k, h, l, j)
  {
    EarlyFacts(groups, ea, na, s, ga);
    if g >= ga {
      StandUnknown(groups, ea, na, s, ga, g);
      l := EarlyFar(groups, cur, fl, g, a, Item(ea, s), eb, nb, k);
      h, j := ENUM_MAX, k;
    } else {
      l := EarlyNear(groups, cur, fl, g, a, ga, eb, nb, k);
      h, j := g, k + 1;
    }
  }

  /** The next item of a caller with devices to come is the leader that comes next. */
  lemma EarlyFacts(groups: Groups, e: seq<nat>, net: bool, k: nat, g: nat)
    requires Stand(groups, e, net, k, g) && k < |e|
    ensures Item(e, k) == Head(groups, g) != 0 && !NoLeaderIn(groups, g, ENUM_MAX)
  {
    NextItem(groups, e, net, k, g);
    SomeHead(groups, g);
  }

  lemma SomeHead(groups: Groups, g: nat)
    requires g <= ENUM_MAX && !NoLeaderIn(groups, g, ENUM_MAX)
    ensures Head(groups, g) != 0
  {
    NoneIff(groups, g);
    assert Leaders(groups, g)[0] != 0;
  }

  lemma EarlyFar(groups: Groups, cur: nat, fl: Flags, g: nat, a: Desc, c: nat, eb: seq<nat>, nb: bool, k: nat) returns (l: nat)
    requires Apart(groups) && DoneUpTo(fl, g) && a.cookie != 0 && !Known(groups, a.cookie, g) && c != 0
    requires Stand(groups, eb, nb, k, g)
    ensures var r := DevEnum(groups, cur, fl, a); r.d.cookie == c ==> GivenAway(groups, r.fl, eb, k, ENUM_MAX, l, k)
  {
    l := EarlyBehind(groups, cur, fl, g, a);
    NextItem(groups, eb, nb, k, g);
  }

  lemma EarlyNear(groups: Groups, cur: nat, fl: Flags, g: nat, a: Desc, ga: nat, eb: seq<nat>, nb: bool, k: nat) returns (l: nat)
    requires Apart(groups) && OncePerGroup(groups) && DoneUpTo(fl, g) && g < ga <= ENUM_MAX
    requires Leads(groups[ga - 1]) && a.cookie == groups[ga - 1][0].cookie && !NoLeaderIn(groups, ga, ENUM_MAX)
    requires Stand(groups, eb, nb, k, g)
    ensures var r := DevEnum(groups, cur, fl, a);
            r.d.cookie == Head(groups, ga) ==> GivenAway(groups, r.fl, eb, k, g, l, k + 1)
  {
    var inPlace;
    inPlace, l := EarlyOwn(groups, cur, fl, g, a, ga);
    if inPlace {
      EarlyInPlace(groups, eb, k, g, l);
    }
  }

  /** The same when the first caller's own group counts as untouched. */
  lemma EarlyOwn(groups: Groups, cur: nat, fl: Flags, g: nat, a: Desc, ga: nat) returns (inPlace: bool, l: nat)
    requires Apart(groups) && OncePerGroup(groups) && DoneUpTo(fl, g) && g < ga <= ENUM_MAX
    requires Leads(groups[ga - 1]) && a.cookie == groups[ga - 1][0].cookie && !NoLeaderIn(groups, ga, ENUM_MAX)
    ensures var r := DevEnum(groups, cur, fl, a);
            r.d.cookie == Head(groups, ga) ==>
              inPlace && g == ga - 1 && Blocked(groups, r.fl, g, l) && g < l && Head(groups, ga) == groups[l][0].cookie
    ensures inPlace ==> g < l < ENUM_MAX && Leads(groups[l]) && Head(groups, ga) == groups[l][0].cookie && g == ga - 1
  {
    inPlace, l := false, 0;
    if g < ga - 1 {
      CallBefore(groups, cur, fl, g, ga - 1, a);
    } else if Present(groups, g, 1) {
      CallAt(groups, cur, fl, g, a);
      SecondIsNotHead(groups, g);
    } else {
      l := CallInPlace(groups, cur, fl, g, a);
      inPlace := true;
      NoneIff(groups, ga);
    }
  }

  lemma EarlyBehind(groups: Groups, cur: nat, fl: Flags, g: nat, d: Desc) returns (at: nat)
    requires Apart(groups) && DoneUpTo(fl, g) && d.cookie != 0 && !Known(groups, d.cookie, g)
    ensures var r := DevEnum(groups, cur, fl, d);
            r.d.cookie != 0 ==> Blocked(groups, r.fl, ENUM_MAX, at) && r.d.cookie == groups[at][0].cookie == Head(groups, g)
                                && !NoLeaderIn(groups, g, ENUM_MAX)
  {
    at := CallBehind(groups, cur, fl, g, d);
    NoneIff(groups, g);
  }

  lemma EarlyInPlace(groups: Groups, e: seq<nat>, k: nat, h: nat, at: nat)
    requires k <= |e| && h < at < ENUM_MAX && Left(groups, h, e, k) && Leads(groups[h])
    requires Leads(groups[at]) && Head(groups, h + 1) == groups[at][0].cookie
    ensures k + 1 < |e| && e[k + 1] == groups[at][0].cookie
  {
    LeftIs(groups, h, e, k);
    LeadersStep(groups, h);
    assert e[k..][1] == e[k + 1];
  }

  // ----- What has been given away is missed

  lemma {:induction false} LeaderItem(groups: Groups, from: nat, i: nat) returns (y: nat)
    requires from <= ENUM_MAX && i < |Leaders(groups, from)|
    ensures from <= y < ENUM_MAX && Leads(groups[y]) && Leaders(groups, from)[i] == groups[y][0].cookie
    decreases ENUM_MAX - from
  {
    LeadersStep(groups, from);
    if !Leads(groups[from]) {
      y := LeaderItem(groups, from + 1, i);
    } else if i == 0 {
      y := from;
    } else {
      y := LeaderItem(groups, from + 1, i - 1);
    }
  }

  /** Every item of a sweep is the interface or the leader of a group. */
  lemma ItemShape(groups: Groups, cur: nat, e: seq<nat>, i: nat, h: nat)
    requires Apart(groups) && FreshInterface(groups, cur) && e == Expected(groups, cur) && i < |e|
    ensures e[i] != 0 && LeaderOrNone(groups, h, e[i])
  {
    ExpectedIs(groups, cur);
    if cur != 0 && i == 0 {
      if h < ENUM_MAX {
        assert e[0] == cur;
        NotKnown(groups, cur, h);
      }
    } else {
      var y := LeaderItem(groups, 0, if cur == 0 then i else i - 1);
      if y != h {
        ElsewhereNot(groups, y, 0);
      }
    }
  }

  lemma NotKnown(groups: Groups, cookie: nat, h: nat)
    requires h < ENUM_MAX && !Known(groups, cookie, 0)
    ensures SlotOf(groups[h], cookie) == |groups[h]|
  {
  }

  /** A caller that has been served right stands at the item of its last call. */
  lemma {:induction false} CookieIs(z: Play, x: bool, k: nat)
    requires k <= |z.who| && RightUpTo(z, k) && Made(z.who, x, k) > 0
    ensures Of(Both(z, k), x).cookie == Item(Due(z, x), Made(z.who, x, k) - 1)
  {
    if z.who[k - 1] == x {
      assert Right(z, k - 1);
    } else {
      CookieIs(z, x, k - 1);
    }
  }

  lemma DueShape(z: FairPlay, x: bool, i: nat, h: nat)
    requires i < |Due(z, x)|
    ensures Due(z, x)[i] != 0 && LeaderOrNone(z.groups, h, Due(z, x)[i])
  {
    var lo := if x then 0 else z.s;
    assert DueFrom(z, lo);
    ItemShape(z.groups, z.curs(lo), Due(z, x), i, h);
  }

  /** A caller who is to call at k has not had its NULL. */
  lemma StillDue(z: FairPlay, k: nat)
    requires k < |z.who|
    ensures Made(z.who, z.who[k], k) <= |Due(z, z.who[k])|
  {
    if z.who[k] {
      MadeAll(z.who, true, k, |z.ea|);
    } else {
      MadeAll(z.who, false, k, |z.eb|);
    }
  }

  lemma MadeAll(who: seq<bool>, x: bool, k: nat, n: nat)
    requires k < |who| && who[k] == x && Made(who, x, |who|) == n + 1
    ensures Made(who, x, k) <= n
  {
    MadeGrows(who, x, k + 1, |who|);
  }

  /** One call on blocked flags, by a caller who stands at item i of its sweep. */
  lemma BlockedStep(z: FairPlay, x: bool, k: nat, h: nat, l: nat, i: nat)
    requires k < |z.who| && z.who[k] == x && Blocked(z.groups, Both(z, k).fl, h, l)
    requires i < |Due(z, x)| && Of(Both(z, k), x).cookie == Item(Due(z, x), i)
    ensures Of(Both(z, k + 1), x).cookie != z.groups[l][0].cookie && Blocked(z.groups, Both(z, k + 1).fl, h, l)
  {
    DueShape(z, x, i, h);
    OneCall(z, x, k);
    BlockedCall(z.groups, z.curs(k), Both(z, k).fl, h, l, Of(Both(z, k), x));
  }

  /** While all calls are right, the other caller never gets to the item that was given away. */
  lemma {:induction false} StaysBlocked(z: FairPlay, h: nat, l: nat, j: nat, k: nat)
    requires z.t < k <= |z.who| && BothWhole(z)
    requires GivenAway(z.groups, Both(z, z.t + 1).fl, z.eb, z.t - z.s, h, l, j)
    ensures Blocked(z.groups, Both(z, k).fl, h, l) && Made(z.who, false, k) <= j
    decreases k
  {
    Counts(z, z.t);
    if k == z.t + 1 {
    } else {
      StaysBlocked(z, h, l, j, k - 1);
      var x := z.who[k - 1];
      MadeGrows(z.who, x, z.t, k - 1);
      CookieIs(z, x, k - 1);
      StillDue(z, k - 1);
      BlockedStep(z, x, k - 1, h, l, Made(z.who, x, k - 1) - 1);
      assert Right(z, k - 1);
    }
  }

  /** Once the other has begun, the first caller cannot ask for a further device without harm. */
  lemma EarlyNotWhole(z: FairPlay)
    requires z.t < |z.who| && z.s < |z.ea|
    ensures !BothWhole(z)
  {
    if BothWhole(z) {
      var h, l, j := EarlyGiven(z);
      StaysBlocked(z, h, l, j, |z.who|);
    }
  }

  lemma EarlyGiven(z: FairPlay) returns (h: nat, l: nat, j: nat)
    requires z.t < |z.who| && z.s < |z.ea| && Right(z, z.t)
    ensures GivenAway(z.groups, Both(z, z.t + 1).fl, z.eb, z.t - z.s, h, l, j)
  {
    var ga, g := Returns(z);
    h, l, j := EarlyNow(z, ga, g);
    ReturnIsRight(z);
  }

  lemma EarlyNow(z: Play, ga: nat, g: nat) returns (h: nat, l: nat, j: nat)
    requires CallsDevEnum(z) && Apart(z.groups) && OncePerGroup(z.groups) && AtReturn(z, ga, g)
    requires z.t < |z.who| && z.s < |z.ea|
    ensures var r := z.call(z.t, Both(z, z.t).fl, Both(z, z.t).a);
            r.d.cookie == Item(z.ea, z.s) ==> GivenAway(z.groups, r.fl, z.eb, z.t - z.s, h, l, j)
  {
    var now := Both(z, z.t);
    h, l, j := EarlyReturn(z.groups, z.curs(z.t), now.fl, g, now.a, z.ea, z.curs(0) != 0, z.s, ga,
                           z.eb, z.curs(z.s) != 0, z.t - z.s);
    assert SameCall(z, z.t, now.fl, now.a);
  }

  /**
   Both sweeps come out whole exactly when the first caller has all its devices before the
   other one begins, and has its NULL by then too, or asks for it only once the other has all
   its devices as well. (There is one more case: the other stands right before the last group
   that leads, and in that group the second device is known but inactive, with more behind.)
   */
  lemma BothWholeIff(z: FairPlay)
    ensures BothWhole(z)
       <==> z.s == |z.ea| + 1 || (z.s == |z.ea| && (z.t - z.s >= |z.eb| || LastSkips(z)))
  {
    Counts(z, z.t);
    if z.t == |z.who| {
      WholeIf(z);
    } else if z.s < |z.ea| {
      EarlyNotWhole(z);
    } else {
      NoMoreCalls(z);
      if z.t - z.s >= |z.eb| {
        AllSeen(z);
      } else {
        MoreToSee(z);
      }
    }
  }

  /** A caller with its NULL does not call again. */
  lemma NoMoreCalls(z: FairPlay)
    requires z.t < |z.who|
    ensures z.s <= |z.ea|
  {
    Counts(z, z.t);
    MadeGrows(z.who, true, z.t + 1, |z.who|);
  }
}
