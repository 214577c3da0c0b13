/**
 Opens and closing devices (api/api.c, api/api_net.c). The state is in the
 caller's descriptors; the drivers below are shared.
 */
module Devices {
  import opened ApiPublic
  import opened Storage
  import opened EnvBlock
  import opened EnvValue
  import opened Network

  datatype Class = Stor | Net | Unknown

  function ClassOf(typ: bv32): Class {
    if typ & DEV_TYP_STOR != 0 then Stor
    else if typ & DEV_TYP_NET != 0 then Net
    else Unknown
  }

  /** The calls below the API. */
  datatype Kind = NetInit(ok: bool) | NetHalt | StorOpen(ok: bool) | StorClose

  /** An API call: its return value, the descriptor it leaves, and the driver calls it made. */
  datatype Called = Called(rc: int, d: Desc, calls: seq<Kind>)

  function OpenCall(d: Desc, cur: nat, storRc: int, initRc: int): Called {
    var open := d.(state := DEV_STA_OPEN);
    if d.state == DEV_STA_OPEN then Called(API_EBUSY, d, [])
    else if d.cookie == 0 then Called(API_ENODEV, d, [])
    else match ClassOf(d.typ)
         case Stor => Called(storRc, if storRc == 0 then open else d, [StorOpen(storRc == 0)])
         case Net =>
           if d.cookie != cur then Called(API_ENODEV, d, [])
           else if initRc < 0 then Called(API_EIO, d, [NetInit(false)])
           else Called(0, open, [NetInit(true)])
         case Unknown => Called(API_ENODEV, d, [])
  }

  function CloseCall(d: Desc, cur: nat): Called {
    var closed := d.(state := DEV_STA_CLOSED);
    if d.state == DEV_STA_CLOSED then Called(0, d, [])
    else if d.cookie == 0 then Called(API_ENODEV, d, [])
    else match ClassOf(d.typ)
         case Stor => Called(0, closed, [StorClose])
         case Net => if d.cookie != cur then Called(API_ENODEV, d, []) else Called(0, closed, [NetHalt])
         case Unknown => Called(API_ENODEV, d, [])
  }

  // ----- The C functions; `calls` records what reaches the drivers

  /** What eth_init does on this ring, whose environment is `e`. */
  function RingInit(ring: Ring, policy: Policy, up: seq<bool>, e: Env): EthDone
    requires |up| == |ring.ifs| && (up != [] ==> ring.current < |up|)
    reads ring
  {
    EthRun(policy, ring.names, up, ring.env.envSize, ring.current, e)
  }

  method DevOpenNet(ring: Ring, policy: Policy, cookie: nat, up: seq<bool>, ghost e: Env)
    returns (rc: int, ghost calls: seq<Kind>, ghost now: Env)
    requires ring.Valid() && |up| == |ring.ifs| && ring.Carries(e)
    modifies ring, ring.env, ring.env.mem
    ensures ring.Valid() && ring.Carries(now)
    ensures var eth := old(RingInit(ring, policy, up, e));
            if cookie != old(ring.Cur()) then
              rc == API_ENODEV && calls == [] && ring.current == old(ring.current) && now == e
            else
              rc == (if eth.rc < 0 then API_EIO else 0) && calls == [NetInit(eth.rc >= 0)]
              && ring.current == eth.current && now == eth.env
  {
    calls, now := [], e;
    if ring.Cur() != cookie {
      return API_ENODEV, calls, now;
    }
    var r;
    r, now := ring.EthInit(policy, up, e);
    calls := [NetInit(r >= 0)];
    return if r < 0 then API_EIO else 0, calls, now;
  }

  method DevCloseNet(ring: Ring, cookie: nat) returns (rc: int, ghost calls: seq<Kind>)
    requires ring.Valid()
    ensures rc == if cookie != ring.Cur() then API_ENODEV else 0
    ensures calls == if cookie != ring.Cur() then [] else [NetHalt]
  {
    if ring.Cur() != cookie {
      return API_ENODEV, [];
    }
    return 0, [NetHalt];
  }

  method ApiDevOpen(ring: Ring, policy: Policy, stor: Backend, di: DeviceInfo?, up: seq<bool>, ghost e: Env)
    returns (rc: int, ghost calls: seq<Kind>, ghost now: Env)
    requires ring.Valid() && |up| == |ring.ifs| && ring.Carries(e)
    modifies ring, ring.env, ring.env.mem, di
    ensures ring.Valid() && ring.Carries(now)
    ensures di == null ==> rc == API_EINVAL && calls == [] && ring.current == old(ring.current) && now == e
    ensures di != null ==>
              var eth := old(RingInit(ring, policy, up, e));
              && Called(rc, di.Value(), calls) ==
                 OpenCall(old(di.Value()), old(ring.Cur()), StorOpenResult(stor.groups, old(di.cookie)), eth.rc)
              && (if calls != [] && calls[0].NetInit? then ring.current == eth.current && now == eth.env
                  else ring.current == old(ring.current) && now == e)
  {
    calls, now := [], e;
    if di == null {
      return API_EINVAL, calls, now;
    }
    if di.state == DEV_STA_OPEN {
      return API_EBUSY, calls, now;
    }
    if di.cookie == 0 {
      return API_ENODEV, calls, now;
    }
    if di.typ & DEV_TYP_STOR != 0 {
      rc := stor.DevOpenStor(di.cookie);
      calls := [StorOpen(rc == 0)];
    } else if di.typ & DEV_TYP_NET != 0 {
      rc, calls, now := DevOpenNet(ring, policy, di.cookie, up, e);
    } else {
      rc := API_ENODEV;
    }
    if rc == 0 {
      di.state := DEV_STA_OPEN;
    }
  }

  method ApiDevClose(ring: Ring, di: DeviceInfo?) returns (rc: int, ghost calls: seq<Kind>)
    requires ring.Valid()
    modifies di
    ensures di == null ==> rc == API_EINVAL && calls == []
    ensures di != null ==> Called(rc, di.Value(), calls) == CloseCall(old(di.Value()), old(ring.Cur()))
  {
    calls := [];
    if di == null {
      return API_EINVAL, calls;
    }
    if di.state == DEV_STA_CLOSED {
      return 0, calls;
    }
    if di.cookie == 0 {
      return API_ENODEV, calls;
    }
    if di.typ & DEV_TYP_STOR != 0 {
      rc, calls := 0, [StorClose];
    } else if di.typ & DEV_TYP_NET != 0 {
      rc, calls := DevCloseNet(ring, di.cookie);
    } else {
      rc := API_ENODEV;
    }
    if rc == 0 {
      di.state := DEV_STA_CLOSED;
    }
  }

  // ----- Single calls

  /** The driver is asked only for a named device that is not open, and for a net device only if it is current. */
  predicate ReachesDriver(d: Desc, cur: nat) {
    && d.state != DEV_STA_OPEN && d.cookie != 0
    && (ClassOf(d.typ) == Stor || (ClassOf(d.typ) == Net && d.cookie == cur))
  }

  /** And the driver agrees. */
  predicate GoesThrough(d: Desc, cur: nat, storRc: int, initRc: int) {
    ReachesDriver(d, cur) && if ClassOf(d.typ) == Stor then storRc == 0 else initRc >= 0
  }

  /** An open device is closed exactly when it is storage, or a net device that is still current; else it stays open. */
  lemma CloseSucceedsIff(d: Desc, cur: nat)
    requires d.state == DEV_STA_OPEN
    ensures var r := CloseCall(d, cur);
            && (r.rc == 0 <==> d.cookie != 0 && (ClassOf(d.typ) == Stor || (ClassOf(d.typ) == Net && d.cookie == cur)))
            && (r.rc == 0 ==> r.d.state == DEV_STA_CLOSED && r.calls != [])
            && (r.rc != 0 ==> r.d == d && r.calls == [])
  {
  }

  /**
   An open succeeds exactly on a named device that is not open and whose driver, asked
   once, agrees; an open descriptor, a NULL cookie and a net cookie that is not the
   current interface never reach a driver.
   */
  lemma OpenSucceedsIff(d: Desc, cur: nat, storRc: int, initRc: int)
    ensures var r := OpenCall(d, cur, storRc, initRc);
            && (r.rc == 0 <==> GoesThrough(d, cur, storRc, initRc))
            && (r.calls != [] <==> ReachesDriver(d, cur))
            && r.d == (if r.rc == 0 then d.(state := DEV_STA_OPEN) else d)
            && (d.state == DEV_STA_OPEN ==> r.rc == API_EBUSY)
  {
  }

  /**
   After a successful open of a net device, closing it at once succeeds exactly when
   its own interface came up. Otherwise eth_init has made another one current: that
   one runs, and the descriptor stays open.
   */
  lemma OpenThenClose(ifs: seq<nat>, current: nat, up: seq<bool>, rotate: bool, d: Desc, storRc: int)
    requires |up| == |ifs| && current < |ifs|
    requires forall i, j | 0 <= i < j < |ifs| :: ifs[i] != ifs[j]
    requires ClassOf(d.typ) == Net && d.cookie == ifs[current] != 0
    requires OpenCall(d, ifs[current], storRc, EthInitResult(up, rotate, current).0).rc == 0
    ensures var eth := EthInitResult(up, rotate, current);
            var after := OpenCall(d, ifs[current], storRc, eth.0).d;
            CloseCall(after, ifs[eth.1]).rc == (if up[current] then 0 else API_ENODEV)
  {
    var eth := EthInitResult(up, rotate, current);
    KeptIff(up, rotate, current);
    OpenSucceedsIff(d, ifs[current], storRc, eth.0);
    CloseSucceedsIff(OpenCall(d, ifs[current], storRc, eth.0).d, ifs[eth.1]);
  }

  /** A ring in which only the interface at `next` comes up. */
  function OnlyUp(n: nat, next: nat): seq<bool> {
    seq(n, i => i == next)
  }

  /** The interface after the current one comes up alone: the open succeeds, and the close does not. */
  lemma NextTakesOver(ifs: seq<nat>, current: nat, d: Desc, storRc: int)
    requires current < |ifs| && |ifs| > 1 && forall i, j | 0 <= i < j < |ifs| :: ifs[i] != ifs[j]
    requires ClassOf(d.typ) == Net && d.cookie == ifs[current] != 0 && d.state != DEV_STA_OPEN
    ensures var up := OnlyUp(|ifs|, Ahead(current, 1, |ifs|));
            var eth := EthInitResult(up, true, current);
            var r := OpenCall(d, ifs[current], storRc, eth.0);
            r.rc == 0 && CloseCall(r.d, ifs[eth.1]).rc == API_ENODEV
  {
    var next := Ahead(current, 1, |ifs|);
    var up := OnlyUp(|ifs|, next);
    assert Ahead(current, 0, |ifs|) == current && !up[current] && up[next];
    assert Skipped(up, current, 0) == Skipped(up, current, 1) == 1;
    OpenThenClose(ifs, current, up, true, d, storRc);
  }

  /** Opening the descriptor with these drivers, and closing it at once if that succeeded. */
  predicate ClosesAgain(ifs: seq<nat>, current: nat, up: seq<bool>, rotate: bool, d: Desc, storRc: int)
    requires current < |ifs| == |up|
  {
    var eth := EthInitResult(up, rotate, current);
    var r := OpenCall(d, ifs[current], storRc, eth.0);
    r.rc == 0 ==> eth.1 < |ifs| && CloseCall(r.d, ifs[eth.1]).rc == 0
  }

  /**
   Whatever the drivers do, a net device that could be opened can be closed again at
   once: this holds exactly when rotation is off or there is only one interface.
   */
  lemma AlwaysClosesIff(ifs: seq<nat>, current: nat, rotate: bool, d: Desc, storRc: int)
    requires current < |ifs| && forall i, j | 0 <= i < j < |ifs| :: ifs[i] != ifs[j]
    requires ClassOf(d.typ) == Net && d.cookie == ifs[current] != 0 && d.state != DEV_STA_OPEN
    ensures (forall up: seq<bool> | |up| == |ifs| :: ClosesAgain(ifs, current, up, rotate, d, storRc))
       <==> !rotate || |ifs| == 1
  {
    if !rotate || |ifs| == 1 {
      forall up: seq<bool> | |up| == |ifs|
        ensures ClosesAgain(ifs, current, up, rotate, d, storRc)
      {
        if OpenCall(d, ifs[current], storRc, EthInitResult(up, rotate, current).0).rc == 0 {
          OpenThenClose(ifs, current, up, rotate, d, storRc);
        }
      }
    } else {
      NextTakesOver(ifs, current, d, storRc);
      assert !ClosesAgain(ifs, current, OnlyUp(|ifs|, Ahead(current, 1, |ifs|)), rotate, d, storRc);
    }
  }

  // ----- Runs over any number of descriptors

  /**
   A driver call made through descriptor `id`: the cookie used, the current interface
   at that time, and the one the call left current.
   */
  datatype Event = Event(id: nat, kind: Kind, cookie: nat, cur: nat, after: nat)

  datatype World = World(descs: map<nat, Desc>, cur: nat, log: seq<Event>)

  /**
   What can happen next. The answers of the drivers, and what becomes of the current
   interface, are arbitrary. `Enumerate` is any outcome of API_dev_enum on the descriptor.
   */
  datatype Step =
    | Open(id: nat, storRc: int, initRc: int, curAfter: nat)
    | Close(id: nat)
    | Enumerate(id: nat, typ: bv32, cookie: nat)
    | Transfer(id: nat)
    | Switch(cur: nat)

  function Record(id: nat, d: Desc, cur: nat, calls: seq<Kind>, after: nat): seq<Event> {
    if calls == [] then [] else [Event(id, calls[0], d.cookie, cur, after)]
  }

  function Do(w: World, step: Step): World {
    match step
    case Open(id, storRc, initRc, curAfter) =>
      if id !in w.descs then w
      else
        var d := w.descs[id];
        var r := OpenCall(d, w.cur, storRc, initRc);
        var after := if r.calls != [] && r.calls[0].NetInit? then curAfter else w.cur;
        World(w.descs[id := r.d], after, w.log + Record(id, d, w.cur, r.calls, after))
    case Close(id) =>
      if id !in w.descs then w
      else
        var d := w.descs[id];
        var r := CloseCall(d, w.cur);
        World(w.descs[id := r.d], w.cur, w.log + Record(id, d, w.cur, r.calls, w.cur))
    case Enumerate(id, typ, cookie) =>
      if id !in w.descs then w
      else w.(descs := w.descs[id := w.descs[id].(typ := typ, cookie := cookie)])
    case Transfer(_) => w
    case Switch(cur) => w.(cur := cur)
  }

  function Run(w: World, steps: seq<Step>): World {
    if steps == [] then w else Do(Run(w, steps[..|steps| - 1]), steps[|steps| - 1])
  }

  predicate Initial(w: World) {
    w.log == [] && forall id | id in w.descs :: w.descs[id].state == DEV_STA_CLOSED
  }

  predicate Opens(e: Event) {
    e.kind == NetInit(true) || e.kind == StorOpen(true)
  }

  predicate Closes(e: Event) {
    e.kind == NetHalt || e.kind == StorClose
  }

  /** The index of the last successful open or close through `id`, or -1. */
  function Last(log: seq<Event>, id: nat): (i: int)
    ensures -1 <= i < |log|
    ensures i >= 0 ==> log[i].id == id && (Opens(log[i]) || Closes(log[i]))
    ensures forall j | i < j < |log| :: log[j].id == id ==> !Opens(log[j]) && !Closes(log[j])
  {
    if log == [] then -1
    else
      var n := |log| - 1;
      if log[n].id == id && (Opens(log[n]) || Closes(log[n])) then n else Last(log[..n], id)
  }

  lemma LastStep(log: seq<Event>, e: Event, id: nat)
    ensures Last(log + [e], id) ==
            if e.id == id && (Opens(e) || Closes(e)) then |log| else Last(log, id)
  {
    assert (log + [e])[..|log|] == log;
  }

  predicate IsOpen(w: World, id: nat) {
    id in w.descs && w.descs[id].state == DEV_STA_OPEN
  }

  /** A descriptor is open exactly when its last successful driver call was an open. */
  ghost predicate Consistent(w: World) {
    && (forall id | id in w.descs :: w.descs[id].state == DEV_STA_OPEN || w.descs[id].state == DEV_STA_CLOSED)
    && (forall id :: IsOpen(w, id) <==> Last(w.log, id) >= 0 && Opens(w.log[Last(w.log, id)]))
  }

  /** Successful opens minus successful driver closes. */
  function Balance(log: seq<Event>): int {
    if log == [] then 0
    else
      var e := log[|log| - 1];
      Balance(log[..|log| - 1]) + if Opens(e) then 1 else if Closes(e) then -1 else 0
  }

  function OpenIds(w: World): set<nat> {
    set id | id in w.descs && w.descs[id].state == DEV_STA_OPEN
  }

  /** Between two successful opens of a descriptor lies a successful close of it. */
  ghost predicate Exclusive(log: seq<Event>) {
    forall p, q | 0 <= p < q < |log| && log[p].id == log[q].id && Opens(log[p]) && Opens(log[q]) ::
      exists r :: p < r < q && log[r].id == log[p].id && Closes(log[r])
  }

  /** Each eth_halt hits the descriptor's own interface. */
  ghost predicate HaltsCurrent(log: seq<Event>) {
    forall p | 0 <= p < |log| && log[p].kind == NetHalt :: log[p].cookie == log[p].cur
  }

  ghost predicate Sound(w: World) {
    Consistent(w) && |OpenIds(w)| == Balance(w.log) && Exclusive(w.log) && HaltsCurrent(w.log)
  }

  lemma BalanceStep(log: seq<Event>, e: Event)
    ensures Balance(log + [e]) == Balance(log) + if Opens(e) then 1 else if Closes(e) then -1 else 0
  {
    assert (log + [e])[..|log|] == log;
  }

  lemma ExclusiveStep(log: seq<Event>, e: Event)
    requires Exclusive(log)
    requires Opens(e) ==> !(Last(log, e.id) >= 0 && Opens(log[Last(log, e.id)]))
    ensures Exclusive(log + [e])
  {
    var now := log + [e];
    forall p, q | 0 <= p < q < |now| && now[p].id == now[q].id && Opens(now[p]) && Opens(now[q])
      ensures exists r :: p < r < q && now[r].id == now[p].id && Closes(now[r])
    {
      if q < |log| {
        var r :| p < r < q && log[r].id == log[p].id && Closes(log[r]);
        assert now[r] == log[r];
      } else {
        var r := Last(log, e.id);
        assert now[r] == log[r] && p < r;
      }
    }
  }

  /** A call through `id` that made one driver call and set the state accordingly. */
  lemma CallKeepsSound(w: World, id: nat, d: Desc, cur: nat, e: Event)
    requires Sound(w) && id in w.descs && e.id == id
    requires d.state == if Opens(e) then DEV_STA_OPEN else if Closes(e) then DEV_STA_CLOSED else w.descs[id].state
    requires Opens(e) ==> !IsOpen(w, id)
    requires Closes(e) ==> IsOpen(w, id)
    requires e.kind == NetHalt ==> e.cookie == e.cur
    ensures Sound(World(w.descs[id := d], cur, w.log + [e]))
  {
    var now := World(w.descs[id := d], cur, w.log + [e]);
    forall x: nat
      ensures IsOpen(now, x) <==> Last(now.log, x) >= 0 && Opens(now.log[Last(now.log, x)])
    {
      LastStep(w.log, e, x);
      assert IsOpen(w, x) <==> Last(w.log, x) >= 0 && Opens(w.log[Last(w.log, x)]);
    }
    BalanceStep(w.log, e);
    ExclusiveStep(w.log, e);
    OpenIdsStep(w, id, d, cur, w.log + [e]);
  }

  lemma OpenIdsStep(w: World, id: nat, d: Desc, cur: nat, log: seq<Event>)
    requires id in w.descs
    ensures var now := World(w.descs[id := d], cur, log);
            |OpenIds(now)| == |OpenIds(w)| - (if IsOpen(w, id) then 1 else 0)
            + (if d.state == DEV_STA_OPEN then 1 else 0)
  {
    var now := World(w.descs[id := d], cur, log);
    var rest := OpenIds(w) - {id};
    assert OpenIds(now) == if d.state == DEV_STA_OPEN then rest + {id} else rest;
    assert OpenIds(w) == if IsOpen(w, id) then rest + {id} else rest;
  }

  lemma QuietKeepsSound(w: World, descs: map<nat, Desc>, cur: nat)
    requires Sound(w) && descs.Keys == w.descs.Keys
    requires forall id | id in descs :: descs[id].state == w.descs[id].state
    ensures Sound(World(descs, cur, w.log))
  {
    var now := World(descs, cur, w.log);
    assert OpenIds(now) == OpenIds(w);
    forall x: nat
      ensures IsOpen(now, x) <==> Last(now.log, x) >= 0 && Opens(now.log[Last(now.log, x)])
    {
      assert IsOpen(now, x) <==> IsOpen(w, x);
    }
  }

  lemma StepKeepsSound(w: World, step: Step)
    requires Sound(w)
    ensures Sound(Do(w, step))
  {
    match step
    case Open(id, storRc, initRc, curAfter) =>
      if id in w.descs {
        var d := w.descs[id];
        var r := OpenCall(d, w.cur, storRc, initRc);
        var now := Do(w, step);
        if r.calls == [] {
          assert now == World(w.descs[id := r.d], w.cur, w.log);
          QuietKeepsSound(w, now.descs, now.cur);
        } else {
          CallKeepsSound(w, id, r.d, now.cur, Event(id, r.calls[0], d.cookie, w.cur, now.cur));
        }
      }
    case Close(id) =>
      if id in w.descs {
        var d := w.descs[id];
        var r := CloseCall(d, w.cur);
        var now := Do(w, step);
        if r.calls == [] {
          assert now == World(w.descs[id := r.d], w.cur, w.log);
          QuietKeepsSound(w, now.descs, now.cur);
        } else {
          CallKeepsSound(w, id, r.d, now.cur, Event(id, r.calls[0], d.cookie, w.cur, now.cur));
        }
      }
    case Enumerate(id, typ, cookie) =>
      if id in w.descs {
        QuietKeepsSound(w, Do(w, step).descs, w.cur);
      }
    case Transfer(_) =>
    case Switch(cur) => QuietKeepsSound(w, w.descs, cur);
  }

  /**
   In every run from closed descriptors: opens minus closes is the number of open
   descriptors, each descriptor has one holder at a time, and every halt hits the
   descriptor's own, current interface.
   */
  lemma {:induction false} RunIsSound(w: World, steps: seq<Step>)
    requires Initial(w)
    ensures Sound(Run(w, steps))
  {
    if steps == [] {
      assert OpenIds(w) == {};
    } else {
      RunIsSound(w, steps[..|steps| - 1]);
      StepKeepsSound(Run(w, steps[..|steps| - 1]), steps[|steps| - 1]);
    }
  }
}
