/**
 The current network interface (net/eth.c). eth_init tries the interfaces in ring
 order and leaves the first one that comes up current; each step round the ring
 writes the name of the interface to the variable ethact in the environment.
 */
module Network {
  import opened ApiPublic
  import opened EnvFormat
  import opened EnvList
  import opened EnvApi
  import opened EnvSet
  import opened EnvBlock
  import opened EnvHistory
  import opened EnvValue

  /** The place `d` steps after `start` in a ring of n. */
  function Ahead(start: nat, d: nat, n: nat): (i: nat)
    requires start < n && d < n
    ensures i < n
    ensures d > 0 ==> i != start
  {
    if start + d < n then start + d else start + d - n
  }

  /** How many interfaces eth_init passes over: the first whose init succeeds, or n. */
  function Skipped(up: seq<bool>, start: nat, d: nat): (k: nat)
    requires start < |up| && d <= |up|
    ensures d <= k <= |up|
    ensures forall x | d <= x < k :: !up[Ahead(start, x, |up|)]
    ensures k < |up| ==> up[Ahead(start, k, |up|)]
    decreases |up| - d
  {
    if d == |up| || up[Ahead(start, d, |up|)] then d else Skipped(up, start, d + 1)
  }

  /** Rotation is on unless the environment says ethrotate=no. */
  predicate Rotates(vs: seq<Var>) {
    Lookup(vs, "ethrotate") != Some("no")
  }

  /** The environment once ethact names the interface. */
  function ActIn(policy: Policy, e: Env, name: string, room: nat): Env {
    if Lookup(e.vs, "ethact") == Some(name) then e else SetIn(policy, e, "ethact", name, room)
  }

  datatype EthDone = EthDone(rc: int, current: nat, env: Env)

  /** What a step onto interface i does to the environment. */
  function Acts(policy: Policy, names: seq<string>, room: nat): (Env, nat) -> Env {
    (e: Env, i: nat) => if i < |names| then ActIn(policy, e, names[i], room) else e
  }

  function Rotating(): Env -> bool {
    (e: Env) => Rotates(e.vs)
  }

  /** eth_init from the interface `d` steps after `start` on. */
  function EthFrom(act: (Env, nat) -> Env, turns: Env -> bool, up: seq<bool>, start: nat, d: nat, e: Env): EthDone
    requires start < |up| && d < |up|
    decreases |up| - d
  {
    var cur := Ahead(start, d, |up|);
    if up[cur] then EthDone(0, cur, e)
    else if !turns(e) then EthDone(-1, cur, e)
    else if d + 1 == |up| then EthDone(-1, start, act(e, start))
    else EthFrom(act, turns, up, start, d + 1, act(e, Ahead(start, d + 1, |up|)))
  }

  /** What eth_init returns, and the interface and the environment it leaves. */
  function EthRun(policy: Policy, names: seq<string>, up: seq<bool>, room: nat, current: nat, e: Env): EthDone
    requires up != [] ==> current < |up|
  {
    if up == [] then EthDone(-1, current, e) else EthFrom(Acts(policy, names, room), Rotating(), up, current, 0, e)
  }

  method Getenv(env: EnvBlock, name: string, ghost vs: seq<Var>) returns (r: Option<string>)
    requires env.Holding(vs) && NUL !in name && EQ !in name
    ensures r == Lookup(vs, name)
  {
    FittingIsStored(env.mem[..], env.ScanSize(), vs, env.envSize);
    NameAlone(name);
    GetOnList(env.mem[..], env.ScanSize(), vs, name + [NUL]);
    var p := GetEnv(env.mem, env.ScanSize(), name + [NUL]);
    return if p == Null then None else Some(CString(env.mem[..], p.off));
  }

  /**
   The ring of interfaces by address, with their names; `current` is the index of
   eth_current and is meaningless when the ring is empty (eth_current is then NULL).
   */
  class Ring {
    const ifs: seq<nat>
    const names: seq<string>
    const env: EnvBlock
    var current: nat

    ghost predicate Valid()
      reads this
    {
      && (ifs != [] ==> current < |ifs|) && (forall i | 0 <= i < |ifs| :: ifs[i] != 0)
      && |names| == |ifs| && forall i | 0 <= i < |names| :: NUL !in names[i]
    }

    constructor (ifs: seq<nat>, names: seq<string>, env: EnvBlock, current: nat)
      requires (ifs != [] ==> current < |ifs|) && forall i | 0 <= i < |ifs| :: ifs[i] != 0
      requires |names| == |ifs| && forall i | 0 <= i < |names| :: NUL !in names[i]
      ensures Valid() && this.ifs == ifs && this.names == names && this.env == env && this.current == current
    {
      this.ifs, this.names, this.env, this.current := ifs, names, env, current;
    }

    /** eth_get_dev, as a cookie. */
    function Cur(): nat
      requires Valid()
      reads this
    {
      if ifs == [] then 0 else ifs[current]
    }

    /** The environment block holds `e`. */
    ghost predicate Carries(e: Env)
      reads env.mem
    {
      env.Holding(e.vs) && env.mem[..] == e.mem
    }

    /** The end of eth_try_another: ethact is rewritten unless it names the interface already. */
    method UpdateAct(policy: Policy, ghost e: Env)
      requires Valid() && ifs != [] && Carries(e)
      modifies env, env.mem
      ensures Carries(ActIn(policy, e, names[current], env.envSize))
      ensures Lookup(e.vs, "ethact") == Some(names[current]) ==> env.crc == old(env.crc) && env.envId == old(env.envId)
    {
      var act := Getenv(env, "ethact", e.vs);
      if act != Some(names[current]) {
        var rc := env.SetEnv(policy, "ethact", names[current], e.vs);
      }
    }

    /** eth_try_another: one step round the ring, unless rotation is switched off. */
    method TryAnother(policy: Policy, ghost e: Env) returns (ghost now: Env)
      requires Valid() && ifs != [] && Carries(e)
      modifies this, env, env.mem
      ensures Valid() && Carries(now)
      ensures current == if Rotates(e.vs) then (if old(current) + 1 == |ifs| then 0 else old(current) + 1) else old(current)
      ensures now == if Rotates(e.vs) then ActIn(policy, e, names[current], env.envSize) else e
      ensures !Rotates(e.vs) ==> env.crc == old(env.crc) && env.envId == old(env.envId)
    {
      var rotate := Getenv(env, "ethrotate", e.vs);
      if rotate == Some("no") {
        return e;
      }
      current := if current + 1 == |ifs| then 0 else current + 1;
      UpdateAct(policy, e);
      now := ActIn(policy, e, names[current], env.envSize);
    }

    /** The same, on the functions in which eth_init is stated. */
    method TryNext(policy: Policy, ghost e: Env) returns (ghost now: Env)
      requires Valid() && ifs != [] && Carries(e)
      modifies this, env, env.mem
      ensures Valid() && Carries(now)
      ensures var next := if old(current) + 1 == |ifs| then 0 else old(current) + 1;
              if Rotating()(e)
              then current == next && now == Acts(policy, names, env.envSize)(e, next) && Rotating()(now)
              else current == old(current) && now == e
    {
      now := TryAnother(policy, e);
      ActKeeps(policy, e, names[current], env.envSize);
    }

    /** One turn of eth_init's loop: the current interface comes up, or the next one is tried, if any. */
    method TryCurrent(policy: Policy, up: seq<bool>, start: nat, ghost d: nat, ghost e: Env)
      returns (done: bool, rc: int, ghost now: Env)
      requires Valid() && Carries(e) && start < |up| == |ifs| && d < |up|
      requires current == Ahead(start, d, |up|) && (d > 0 ==> Rotating()(e))
      modifies this, env, env.mem
      ensures Valid() && Carries(now)
      ensures var r := EthFrom(Acts(policy, names, env.envSize), Rotating(), up, start, d, e);
              if done then EthDone(rc, current, now) == r
              else d + 1 < |up| && current == Ahead(start, d + 1, |up|) && Rotating()(now)
                   && r == EthFrom(Acts(policy, names, env.envSize), Rotating(), up, start, d + 1, now)
    {
      now := e;
      if up[current] {
        return true, 0, now;
      }
      now := TryNext(policy, now);
      if start == current {
        return true, -1, now;
      }
      return false, 0, now;
    }

    /** eth_init; `up[i]` tells whether the driver of interface i would come up. */
    method EthInit(policy: Policy, up: seq<bool>, ghost e: Env) returns (rc: int, ghost now: Env)
      requires Valid() && |up| == |ifs| && Carries(e)
      modifies this, env, env.mem
      ensures Valid() && Carries(now)
      ensures EthDone(rc, current, now) == EthRun(policy, names, up, env.envSize, old(current), e)
      ensures ifs == [] ==> rc == -1 && current == old(current) && now == e
    {
      now := e;
      if ifs == [] {
        return -1, now;
      }
      var oldCurrent := current;
      ghost var d: nat, act, turns := 0, Acts(policy, names, env.envSize), Rotating();
      while true
        invariant Valid() && Carries(now) && d < |up|
        invariant current == Ahead(oldCurrent, d, |up|)
        invariant d > 0 ==> turns(now)
        invariant EthFrom(act, turns, up, oldCurrent, d, now) == EthFrom(act, turns, up, oldCurrent, 0, e)
        decreases |up| - d
      {
        var done;
        done, rc, now := TryCurrent(policy, up, oldCurrent, d, now);
        if done {
          return;
        }
        d := d + 1;
      }
    }
  }

  /** Rewriting ethact changes no other variable, so rotation stays on or off. */
  lemma ActKeeps(policy: Policy, e: Env, name: string, room: nat)
    ensures Rotates(ActIn(policy, e, name, room).vs) <==> Rotates(e.vs)
    ensures Distinct(e.vs) ==> Distinct(ActIn(policy, e, name, room).vs)
  {
    SetKeepsOthers(policy, e.vs, "ethact", name, room, "ethrotate");
    if Distinct(e.vs) {
      SetKeepsDistinct(policy, e.vs, "ethact", name, room);
    }
  }

  /** ethact then names the interface exactly when it did before, or the name is not empty and fits. */
  lemma ActNamesIff(policy: Policy, e: Env, name: string, room: nat)
    requires Distinct(e.vs)
    ensures Lookup(ActIn(policy, e, name, room).vs, "ethact") == Some(name)
       <==> Lookup(e.vs, "ethact") == Some(name) || (name != "" && !TooBig(e.vs, "ethact", name, room))
  {
    RemoveAll(e.vs, "ethact");
    LookupConcat(Remove(e.vs, "ethact"), [Var("ethact", name)], "ethact");
  }

  lemma ActSound(policy: Policy, e: Env, name: string, room: nat)
    requires SoundEnv(e, room) && NUL !in name
    ensures SoundEnv(ActIn(policy, e, name, room), room)
  {
    SetSound(policy, e, "ethact", name, room);
  }

  ghost predicate GoodNames(names: seq<string>) {
    forall i | 0 <= i < |names| :: NUL !in names[i]
  }

  /** A property of the environment that the steps keep. */
  ghost predicate Keeps(act: (Env, nat) -> Env, p: Env -> bool, n: nat) {
    forall e: Env, i: nat | i < n && p(e) :: p(act(e, i))
  }

  lemma {:induction false} EthFromKeeps(act: (Env, nat) -> Env, turns: Env -> bool, p: Env -> bool, up: seq<bool>,
                                        start: nat, d: nat, e: Env)
    requires start < |up| && d < |up| && Keeps(act, p, |up|) && p(e)
    ensures var r := EthFrom(act, turns, up, start, d, e); p(r.env) && r.current < |up|
    decreases |up| - d
  {
    if up[Ahead(start, d, |up|)] || !turns(e) {
    } else if d + 1 == |up| {
    } else {
      EthFromKeeps(act, turns, p, up, start, d + 1, act(e, Ahead(start, d + 1, |up|)));
    }
  }

  /** A relation between the environment and the current interface that the steps carry along. */
  ghost predicate Carried(act: (Env, nat) -> Env, p: (Env, nat) -> bool, n: nat) {
    forall e: Env, i: nat, j: nat | i < n && j < n :: CarriedAt(act, p, e, i, j)
  }

  ghost predicate CarriedAt(act: (Env, nat) -> Env, p: (Env, nat) -> bool, e: Env, i: nat, j: nat) {
    p(e, i) ==> p(act(e, j), j)
  }

  lemma {:induction false} EthFromCarries(act: (Env, nat) -> Env, turns: Env -> bool, p: (Env, nat) -> bool, up: seq<bool>,
                                          start: nat, d: nat, e: Env)
    requires start < |up| && d < |up| && Carried(act, p, |up|) && p(e, Ahead(start, d, |up|))
    ensures var r := EthFrom(act, turns, up, start, d, e); p(r.env, r.current)
    decreases |up| - d
  {
    var cur := Ahead(start, d, |up|);
    if up[cur] || !turns(e) {
    } else if d + 1 == |up| {
      assert CarriedAt(act, p, e, cur, start);
    } else {
      var next := Ahead(start, d + 1, |up|);
      assert CarriedAt(act, p, e, cur, next);
      EthFromCarries(act, turns, p, up, start, d + 1, act(e, next));
    }
  }

  /** The list is as it was, or as one setenv of ethact to the name of the current interface leaves it. */
  ghost function OneEdit(policy: Policy, names: seq<string>, room: nat, vs: seq<Var>): (Env, nat) -> bool {
    (e: Env, i: nat) => e.vs == vs || (i < |names| && e.vs == Edited(vs, "ethact", names[i], room))
  }

  lemma EditedAgain(vs: seq<Var>, name: string, value: string, last: string, room: nat)
    requires Distinct(vs)
    ensures Edited(Edited(vs, name, value, room), name, last, room) == Edited(vs, name, last, room)
  {
    RemoveEdited(vs, name, value, room);
  }

  lemma RemoveEdited(vs: seq<Var>, name: string, value: string, room: nat)
    requires Distinct(vs)
    ensures Remove(Edited(vs, name, value, room), name) == Remove(vs, name)
  {
    var rest, v := Remove(vs, name), Var(name, value);
    RemoveAll(vs, name);
    if value != "" && !TooBig(vs, name, value, room) {
      IndexOfConcat(rest, [v], name);
      assert (rest + [v])[..|rest|] + (rest + [v])[|rest| + 1..] == rest;
    }
  }

  lemma OneEditCarried(policy: Policy, names: seq<string>, room: nat, vs: seq<Var>)
    requires Distinct(vs)
    ensures Carried(Acts(policy, names, room), OneEdit(policy, names, room, vs), |names|)
  {
    var act, p := Acts(policy, names, room), OneEdit(policy, names, room, vs);
    forall e: Env, i: nat, j: nat | i < |names| && j < |names|
      ensures CarriedAt(act, p, e, i, j)
    {
      if p(e, i) {
        ActOnce(policy, e, names[i], names[j], room, vs);
        assert act(e, j) == ActIn(policy, e, names[j], room);
      }
    }
  }

  lemma ActOnce(policy: Policy, e: Env, was: string, name: string, room: nat, vs: seq<Var>)
    requires Distinct(vs) && (e.vs == vs || e.vs == Edited(vs, "ethact", was, room))
    ensures var now := ActIn(policy, e, name, room).vs; now == vs || now == Edited(vs, "ethact", name, room)
  {
    SetActIs(policy, e.vs, name, room);
    if e.vs != vs {
      EditedAgain(vs, "ethact", was, name, room);
      ActValue(vs, was, room);
    }
  }

  lemma SetActIs(policy: Policy, vs: seq<Var>, name: string, room: nat)
    ensures SetList(policy, vs, "ethact", name, room) == Edited(vs, "ethact", name, room)
  {
    assert !Refused(policy, "ethact", name, Defines(vs, "ethact"));
  }

  lemma ActValue(vs: seq<Var>, value: string, room: nat)
    requires Distinct(vs)
    ensures var now := Lookup(Edited(vs, "ethact", value, room), "ethact"); now == None || now == Some(value)
  {
    RemoveAll(vs, "ethact");
    LookupConcat(Remove(vs, "ethact"), [Var("ethact", value)], "ethact");
  }

  /** However often eth_init rewrites ethact, the list ends up as one setenv leaves it, if not as it was. */
  lemma EthRunEdits(policy: Policy, names: seq<string>, up: seq<bool>, room: nat, current: nat, e: Env)
    requires |up| == |names| && (up != [] ==> current < |up|) && Distinct(e.vs)
    ensures var r := EthRun(policy, names, up, room, current, e);
            r.env.vs == e.vs || (r.current < |names| && r.env.vs == Edited(e.vs, "ethact", names[r.current], room))
  {
    if up != [] {
      OneEditCarried(policy, names, room, e.vs);
      EthFromCarries(Acts(policy, names, room), Rotating(), OneEdit(policy, names, room, e.vs), up, current, 0, e);
    }
  }

  lemma {:induction false} EthFromResult(act: (Env, nat) -> Env, turns: Env -> bool, up: seq<bool>,
                                         start: nat, d: nat, e: Env)
    requires start < |up| && d < |up| && Keeps(act, turns, |up|) && turns(e)
    ensures var r, k := EthFrom(act, turns, up, start, d, e), Skipped(up, start, d);
            (r.rc, r.current) == if k < |up| then (0, Ahead(start, k, |up|)) else (-1, start)
    decreases |up| - d
  {
    if up[Ahead(start, d, |up|)] {
    } else if d + 1 == |up| {
    } else {
      EthFromResult(act, turns, up, start, d + 1, act(e, Ahead(start, d + 1, |up|)));
    }
  }

  lemma ActsKeepRotating(policy: Policy, names: seq<string>, room: nat)
    ensures Keeps(Acts(policy, names, room), Rotating(), |names|)
  {
    forall e: Env, i: nat | i < |names| && Rotating()(e)
      ensures Rotating()(Acts(policy, names, room)(e, i))
    {
      ActKeeps(policy, e, names[i], room);
    }
  }

  /** What eth_init does to the ring does not depend on what it writes to the environment. */
  lemma EthRunResult(policy: Policy, names: seq<string>, up: seq<bool>, room: nat, current: nat, e: Env)
    requires |up| == |names| && (up != [] ==> current < |up|)
    ensures var r := EthRun(policy, names, up, room, current, e);
            (r.rc, r.current) == EthInitResult(up, Rotates(e.vs), current)
  {
    if up != [] && Rotating()(e) {
      ActsKeepRotating(policy, names, room);
      EthFromResult(Acts(policy, names, room), Rotating(), up, current, 0, e);
    }
  }

  /** eth_init leaves a sound block, and distinct names. */
  lemma EthRunSound(policy: Policy, names: seq<string>, up: seq<bool>, room: nat, current: nat, e: Env)
    requires |up| == |names| && (up != [] ==> current < |up|) && GoodNames(names)
    requires SoundEnv(e, room)
    ensures var r := EthRun(policy, names, up, room, current, e);
            SoundEnv(r.env, room) && (Distinct(e.vs) ==> Distinct(r.env.vs)) && (up != [] ==> r.current < |up|)
  {
    if up != [] {
      var act := Acts(policy, names, room);
      SoundKept(policy, names, room);
      EthFromKeeps(act, Rotating(), SoundEnvFor(room), up, current, 0, e);
      if Distinct(e.vs) {
        DistinctKept(policy, names, room);
        EthFromKeeps(act, Rotating(), DistinctIn(), up, current, 0, e);
      }
    }
  }

  ghost function SoundEnvFor(room: nat): Env -> bool {
    (e: Env) => SoundEnv(e, room)
  }

  ghost function DistinctIn(): Env -> bool {
    (e: Env) => Distinct(e.vs)
  }

  lemma SoundKept(policy: Policy, names: seq<string>, room: nat)
    requires GoodNames(names)
    ensures Keeps(Acts(policy, names, room), SoundEnvFor(room), |names|)
  {
    forall e: Env, i: nat | i < |names| && SoundEnvFor(room)(e)
      ensures SoundEnvFor(room)(Acts(policy, names, room)(e, i))
    {
      ActSound(policy, e, names[i], room);
    }
  }

  lemma DistinctKept(policy: Policy, names: seq<string>, room: nat)
    ensures Keeps(Acts(policy, names, room), DistinctIn(), |names|)
  {
    forall e: Env, i: nat | i < |names| && DistinctIn()(e)
      ensures DistinctIn()(Acts(policy, names, room)(e, i))
    {
      ActKeeps(policy, e, names[i], room);
    }
  }

  /** The first interface comes up, or rotation is off: the environment is left alone. */
  lemma QuietInit(policy: Policy, names: seq<string>, up: seq<bool>, room: nat, current: nat, e: Env)
    requires |up| == |names| && (up != [] ==> current < |up|)
    requires up == [] || up[current] || !Rotates(e.vs)
    ensures EthRun(policy, names, up, room, current, e).env == e
  {
  }

  /** The result of eth_init and the interface it leaves current. */
  function EthInitResult(up: seq<bool>, rotate: bool, current: nat): (int, nat)
    requires up != [] ==> current < |up|
  {
    if up == [] then (-1, current)
    else if !rotate then (if up[current] then 0 else -1, current)
    else
      var k := Skipped(up, current, 0);
      if k < |up| then (0, Ahead(current, k, |up|)) else (-1, current)
  }

  /** A successful eth_init keeps the interface exactly when that interface itself came up. */
  lemma KeptIff(up: seq<bool>, rotate: bool, current: nat)
    requires current < |up| && EthInitResult(up, rotate, current).0 == 0
    ensures EthInitResult(up, rotate, current).1 == current <==> up[current]
  {
  }

  // ----- eth_init, said without the functions above

  /** The environment says ethrotate=no. */
  ghost predicate RotationOff(vs: seq<Var>) {
    exists j :: 0 <= j < |vs| && vs[j] == Var("ethrotate", "no")
  }

  lemma RotationOffIff(vs: seq<Var>)
    requires Distinct(vs)
    ensures RotationOff(vs) <==> !Rotates(vs)
  {
    var at := IndexOf(vs, "ethrotate");
    if j :| 0 <= j < |vs| && vs[j] == Var("ethrotate", "no") {
      IndexOfDistinct(vs, j);
    }
    if !Rotates(vs) {
      assert vs[at] == Var("ethrotate", "no");
    }
  }

  /** The interface x steps round the ring. */
  function Round(start: nat, x: nat, n: nat): (i: nat)
    requires n > 0
    ensures i < n
  {
    (start + x) % n
  }

  lemma RoundIsAhead(start: nat, x: nat, n: nat)
    requires start < n && x < n
    ensures Round(start, x, n) == Ahead(start, x, n) && Round(start, n, n) == start
  {
    assert (start + n) % n == start;
  }

  /** The first x interfaces from `start` on do not come up. */
  ghost predicate Down(up: seq<bool>, start: nat, x: nat)
    requires up != []
  {
    forall y: nat | y < x :: !up[Round(start, y, |up|)]
  }

  lemma DownStep(up: seq<bool>, start: nat, d: nat)
    requires start < |up| && d < |up| && Down(up, start, d)
    ensures Down(up, start, d + 1) <==> !up[Ahead(start, d, |up|)]
  {
    RoundIsAhead(start, d, |up|);
  }

  /**
   Which interface eth_init leaves current. With rotation, the first in ring order that comes
   up, or the old one after a full round; without, the old one.
   */
  lemma EthInitOnRing(policy: Policy, names: seq<string>, up: seq<bool>, room: nat, current: nat, e: Env)
    requires |up| == |names| && current < |up| && Distinct(e.vs)
    ensures var r, n := EthRun(policy, names, up, room, current, e), |up|;
            && (up[current] ==> r.rc == 0 && r.current == current)
            && (!up[current] && RotationOff(e.vs) ==> r.rc == -1 && r.current == current)
            && (!RotationOff(e.vs) ==>
                  && (forall x: nat | x < n && Down(up, current, x) && up[Round(current, x, n)] ::
                        r.rc == 0 && r.current == Round(current, x, n))
                  && (Down(up, current, n) ==> r.rc == -1 && r.current == current))
  {
    var n, k := |up|, Skipped(up, current, 0);
    EthRunResult(policy, names, up, room, current, e);
    RotationOffIff(e.vs);
    RoundIsAhead(current, 0, n);
    forall x: nat | x < n ensures Round(current, x, n) == Ahead(current, x, n) {
      RoundIsAhead(current, x, n);
    }
  }

  /** All interfaces that eth_init steps onto, after d steps, have the name that ethact has already. */
  ghost predicate SameNames(names: seq<string>, up: seq<bool>, start: nat, d: nat, vs: seq<Var>)
    requires up != [] && |names| == |up|
  {
    forall x: nat | d < x <= |up| && Down(up, start, x) :: Lookup(vs, "ethact") == Some(names[Round(start, x, |up|)])
  }

  /** The list after some steps: as it was if all names were the same, else as setenv leaves it. */
  ghost predicate Written(names: seq<string>, room: nat, vs: seq<Var>, same: bool, now: seq<Var>, i: nat) {
    i < |names| && now == if same then vs else Edited(vs, "ethact", names[i], room)
  }

  /** One step, from interface i onto interface j. */
  ghost predicate WritesOnce(act: (Env, nat) -> Env, turns: Env -> bool, names: seq<string>, room: nat, vs: seq<Var>,
                             e: Env, i: nat, j: nat) {
    turns(e) && i < |names| && j < |names| ==>
      && turns(act(e, j))
      && (e.vs == vs ==> Written(names, room, vs, Lookup(vs, "ethact") == Some(names[j]), act(e, j).vs, j))
      && (Written(names, room, vs, false, e.vs, i) ==> Written(names, room, vs, false, act(e, j).vs, j))
  }

  lemma ActsWrite(policy: Policy, names: seq<string>, room: nat, vs: seq<Var>, e: Env, i: nat, j: nat)
    requires Distinct(vs)
    ensures WritesOnce(Acts(policy, names, room), Rotating(), names, room, vs, e, i, j)
  {
    if i < |names| && j < |names| {
      var name := names[j];
      assert Acts(policy, names, room)(e, j) == ActIn(policy, e, name, room);
      SetActIs(policy, e.vs, name, room);
      ActKeeps(policy, e, name, room);
      EditedAgain(vs, "ethact", names[i], name, room);
      ActValue(vs, names[i], room);
    }
  }

  lemma {:induction false} EthFromWrites(act: (Env, nat) -> Env, turns: Env -> bool, names: seq<string>, room: nat,
                                         vs: seq<Var>, same: bool, up: seq<bool>, start: nat, d: nat, e: Env)
    requires start < |up| == |names| && d < |up| && Down(up, start, d)
    requires forall e: Env, i: nat, j: nat :: WritesOnce(act, turns, names, room, vs, e, i, j)
    requires turns(e) && Written(names, room, vs, same, e.vs, Ahead(start, d, |up|))
    ensures var r := EthFrom(act, turns, up, start, d, e);
            Written(names, room, vs, same && SameNames(names, up, start, d, vs), r.env.vs, r.current)
    decreases |up| - d
  {
    var n, cur := |up|, Ahead(start, d, |up|);
    DownStep(up, start, d);
    if up[cur] {
      NoMoreSteps(names, up, start, d, vs);
    } else {
      var j := if d + 1 == n then start else Ahead(start, d + 1, n);
      assert WritesOnce(act, turns, names, room, vs, e, cur, j);
      SameNamesStep(names, up, start, d, vs, j);
      if d + 1 < n {
        EthFromWrites(act, turns, names, room, vs, same && Lookup(vs, "ethact") == Some(names[j]), up, start, d + 1, act(e, j));
      } else {
        assert SameNames(names, up, start, n, vs);
      }
    }
  }

  lemma NoMoreSteps(names: seq<string>, up: seq<bool>, start: nat, d: nat, vs: seq<Var>)
    requires start < |up| == |names| && d < |up| && up[Ahead(start, d, |up|)]
    ensures SameNames(names, up, start, d, vs)
  {
    RoundIsAhead(start, d, |up|);
  }

  lemma SameNamesStep(names: seq<string>, up: seq<bool>, start: nat, d: nat, vs: seq<Var>, j: nat)
    requires start < |up| == |names| && d < |up| && Down(up, start, d + 1)
    requires j == if d + 1 == |up| then start else Ahead(start, d + 1, |up|)
    ensures SameNames(names, up, start, d, vs) <==>
            Lookup(vs, "ethact") == Some(names[j]) && SameNames(names, up, start, d + 1, vs)
  {
    if d + 1 < |up| {
      RoundIsAhead(start, d + 1, |up|);
    } else {
      RoundIsAhead(start, d, |up|);
    }
  }

  /**
   What eth_init does to the environment. If the current interface comes up, or the environment
   says ethrotate=no, nothing. Otherwise ethact is written at every step: if all names stepped
   on are the one that stands there already, nothing changes; else the list is as one setenv of ethact to
   the name of the interface that is current in the end leaves it.
   */
  lemma EthInitOnEnv(policy: Policy, names: seq<string>, up: seq<bool>, room: nat, current: nat, e: Env)
    requires |up| == |names| && current < |up| && Distinct(e.vs)
    ensures var r := EthRun(policy, names, up, room, current, e);
            && (up[current] || RotationOff(e.vs) ==> r.env == e)
            && (!up[current] && !RotationOff(e.vs) ==>
                  r.current < |names|
                  && r.env.vs == if SameNames(names, up, current, 0, e.vs) then e.vs
                                 else Edited(e.vs, "ethact", names[r.current], room))
  {
    RotationOffIff(e.vs);
    if !up[current] && Rotates(e.vs) {
      assert Ahead(current, 0, |up|) == current;
      forall e': Env, i: nat, j: nat
        ensures WritesOnce(Acts(policy, names, room), Rotating(), names, room, e.vs, e', i, j)
      {
        ActsWrite(policy, names, room, e.vs, e', i, j);
      }
      EthFromWrites(Acts(policy, names, room), Rotating(), names, room, e.vs, true, up, current, 0, e);
    }
  }

  /** So after a rotation ethact names the current interface, whenever that name is not empty and fits. */
  lemma EthactNamesCurrent(policy: Policy, names: seq<string>, up: seq<bool>, room: nat, current: nat, e: Env)
    requires |up| == |names| && current < |up| && Distinct(e.vs) && !up[current] && !RotationOff(e.vs)
    ensures var r := EthRun(policy, names, up, room, current, e);
            r.current < |names|
            && (names[r.current] != "" && !TooBig(e.vs, "ethact", names[r.current], room) ==>
                  Lookup(r.env.vs, "ethact") == Some(names[r.current]))
  {
    var r := EthRun(policy, names, up, room, current, e);
    EthInitOnEnv(policy, names, up, room, current, e);
    RemoveAll(e.vs, "ethact");
    LookupConcat(Remove(e.vs, "ethact"), [Var("ethact", names[r.current])], "ethact");
    if SameNames(names, up, current, 0, e.vs) {
      LastStepped(policy, names, up, room, current, e);
    }
  }

  /** The interface that is current in the end is the last one stepped onto. */
  lemma LastStepped(policy: Policy, names: seq<string>, up: seq<bool>, room: nat, current: nat, e: Env)
    requires |up| == |names| && current < |up| && Distinct(e.vs) && !up[current] && !RotationOff(e.vs)
    requires SameNames(names, up, current, 0, e.vs)
    ensures var r := EthRun(policy, names, up, room, current, e);
            r.current < |names| && Lookup(e.vs, "ethact") == Some(names[r.current])
  {
    var n, k := |up|, Skipped(up, current, 0);
    RotationOffIff(e.vs);
    EthRunResult(policy, names, up, room, current, e);
    forall x: nat | x < n ensures Round(current, x, n) == Ahead(current, x, n) {
      RoundIsAhead(current, x, n);
    }
    RoundIsAhead(current, 0, n);
    assert Ahead(current, 0, n) == current && k > 0;
    assert Down(up, current, k);
    assert Lookup(e.vs, "ethact") == Some(names[Round(current, k, n)]);
  }

  /** One interface whose driver fails, and a=1 in 100 cells: eth_init fails and leaves a=1, ethact=eth0. */
  lemma LoneFailure(policy: Policy, mem: string)
    ensures var r := EthRun(policy, ["eth0"], [false], 100, 0, Env(mem, [Var("a", "1")]));
            r.rc == -1 && r.current == 0 && r.env.vs == [Var("a", "1"), Var("ethact", "eth0")]
  {
    var vs, e := [Var("a", "1")], Env(mem, [Var("a", "1")]);
    IndexOfIs(vs, "ethact", 1);
    IndexOfIs(vs, "ethrotate", 1);
    assert Remove(vs, "ethact") == vs && Offset(vs, 1) == 4;
    EthInitOnEnv(policy, ["eth0"], [false], 100, 0, e);
    EthInitOnRing(policy, ["eth0"], [false], 100, 0, e);
    assert Down([false], 0, 1);
    assert Round(0, 1, 1) == 0;
    assert !SameNames(["eth0"], [false], 0, 0, vs);
  }
}
