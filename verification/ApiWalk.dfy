/**
 One client walks through the environment with API_env_enum while any clients make
 other system calls in between: some of these edit the environment, API_env_set for one,
 and opening a network device, which may rewrite the variable ethact.
 */
module ApiWalk {
  import opened ApiPublic
  import opened EnvFormat
  import opened EnvScan
  import opened EnvList
  import opened EnvApi
  import opened EnvRun
  import opened EnvSet
  import opened EnvBlock
  import opened EnvHistory
  import opened EnvShift
  import opened EnvValue
  import opened Network
  import opened ApiMachine
  import Devices
  import Storage
  import Syscall

  predicate EnumeratesTo(cmd: Command, c: nat) {
    HandlerCalled(cmd) == Some(Syscall.EnvEnum) && cmd.args.EnumArgs? && cmd.args.next == Some(c)
  }

  // ----- Which calls edit the environment

  /** The open gets as far as eth_init. */
  predicate ReachesInit(d: Storage.Desc, cur: nat) {
    Devices.ReachesDriver(d, cur) && Devices.ClassOf(d.typ) == Devices.Net
  }

  /**
   The variable a call may edit: the key of API_env_set, and ethact for an open whose
   eth_init steps on to another interface, because the current one does not come up and
   rotation is not switched off.
   */
  function MayEdit(board: Board, s: Api, cmd: Command): Option<string> {
    match HandlerCalled(cmd)
    case Some(EnvSet) =>
      if cmd.args.SetArgs? && cmd.args.key.Some? && cmd.args.text.Some? then cmd.args.key else None
    case Some(DevOpen) =>
      if && cmd.args.OpenArgs? && cmd.args.place.Some? && s.current < |board.ifs|
         && ReachesInit(DescAt(s.descs, cmd.args.place.value), CurOf(board, s))
         && !Answers(board, cmd.args.up)[s.current] && Rotates(s.env.vs)
      then Some("ethact") else None
    case _ => None
  }

  /** Strings in calls are C strings. */
  predicate CStrings(cmd: Command) {
    cmd.Invoke? && cmd.args.SetArgs? ==>
      && (cmd.args.key.Some? ==> NUL !in cmd.args.key.value)
      && (cmd.args.text.Some? ==> NUL !in cmd.args.text.value)
  }

  ghost predicate GoodBoard(board: Board) {
    |board.names| == |board.ifs| && GoodNames(board.names) && board.room <= board.size
  }

  /** The block is sound and names are distinct. */
  ghost predicate GoodEnv(board: Board, e: Env) {
    SoundEnv(e, board.room) && Distinct(e.vs)
  }

  /** What one call does to the environment. */
  function EnvAfter(board: Board, s: Api, cmd: Command): Env {
    match MayEdit(board, s, cmd)
    case None => s.env
    case Some(_) =>
      if HandlerCalled(cmd) == Some(Syscall.DevOpen) then InitOn(board, cmd.args.up, s).env
      else SetIn(board.policy, s.env, cmd.args.key.value, cmd.args.text.value, board.room)
  }

  lemma EnvStep(board: Board, m: Machine, cmd: Command)
    requires m.ready && GoodBoard(board)
    ensures AfterOne(board, m, cmd).ready && AfterOne(board, m, cmd).st.env == EnvAfter(board, m.st, cmd)
  {
    if HandlerCalled(cmd).Some? {
      HandlerEnv(board, HandlerCalled(cmd).value, cmd, m.st);
    }
  }

  lemma HandlerEnv(board: Board, h: Syscall.Handler, cmd: Command, s: Api)
    requires GoodBoard(board) && HandlerCalled(cmd) == Some(h)
    ensures Perform(board, h, cmd.args, s).1.env == EnvAfter(board, s, cmd)
  {
    if h == Syscall.DevOpen && cmd.args.OpenArgs? && cmd.args.place.Some? {
      OpenEnv(board, s, cmd.args.place.value, cmd.args.up);
    }
  }

  lemma OpenEnv(board: Board, s: Api, at: nat, up: seq<bool>)
    requires GoodBoard(board)
    ensures OpenDesc(board, at, up, s).1.env ==
            if ReachesInit(DescAt(s.descs, at), CurOf(board, s)) then InitOn(board, up, s).env else s.env
    ensures s.current >= |board.ifs| || Answers(board, up)[s.current] || !Rotates(s.env.vs)
            ==> InitOn(board, up, s).env == s.env
  {
  }

  /** The environment in front of index n does not change, nor does ethact come to lie there. */
  ghost function FrontKept(front: seq<Var>): Env -> bool {
    (e: Env) => |front| <= |e.vs| && e.vs[..|front|] == front && |front| <= IndexOf(e.vs, "ethact")
  }

  lemma ActKeepsFront(policy: Policy, names: seq<string>, room: nat, front: seq<Var>)
    ensures Keeps(Acts(policy, names, room), FrontKept(front), |names|)
  {
    forall e: Env, i: nat | i < |names| && FrontKept(front)(e)
      ensures FrontKept(front)(Acts(policy, names, room)(e, i))
    {
      SetKeepsPrefix(policy, e.vs, "ethact", names[i], room, |front|);
      FrontHasNot(e.vs, SetList(policy, e.vs, "ethact", names[i], room), |front|, "ethact");
    }
  }

  lemma FrontHasNot(vs: seq<Var>, now: seq<Var>, n: nat, name: string)
    requires n <= IndexOf(vs, name) && n <= |now| && now[..n] == vs[..n]
    ensures n <= IndexOf(now, name)
  {
    forall j | 0 <= j < n ensures now[j].name != name {
      assert now[j] == now[..n][j] == vs[..n][j] == vs[j];
    }
  }

  lemma InitKeepsFront(board: Board, up: seq<bool>, s: Api, n: nat)
    requires GoodBoard(board) && n <= IndexOf(s.env.vs, "ethact")
    ensures var now := InitOn(board, up, s).env.vs; n <= |now| && now[..n] == s.env.vs[..n]
  {
    if s.current < |board.ifs| {
      ActKeepsFront(board.policy, board.names, board.room, s.env.vs[..n]);
      EthFromKeeps(Acts(board.policy, board.names, board.room), Rotating(), FrontKept(s.env.vs[..n]),
                   Answers(board, up), s.current, 0, s.env);
    }
  }

  /** A call that edits at most a variable from index n on keeps the environment good, and its first n entries. */
  lemma EditBehind(board: Board, m: Machine, cmd: Command, n: nat)
    requires m.ready && GoodBoard(board) && CStrings(cmd) && GoodEnv(board, m.st.env) && n <= |m.st.env.vs|
    requires var x := MayEdit(board, m.st, cmd); x.Some? ==> n <= IndexOf(m.st.env.vs, x.value)
    ensures var after := AfterOne(board, m, cmd);
            && after.ready && GoodEnv(board, after.st.env)
            && n <= |after.st.env.vs| && after.st.env.vs[..n] == m.st.env.vs[..n]
  {
    EnvStep(board, m, cmd);
    EnvAfterGood(board, m.st, cmd);
    EnvAfterFront(board, m.st, cmd, n);
  }

  lemma EnvAfterGood(board: Board, s: Api, cmd: Command)
    requires GoodBoard(board) && CStrings(cmd) && GoodEnv(board, s.env)
    ensures GoodEnv(board, EnvAfter(board, s, cmd))
  {
    if MayEdit(board, s, cmd) == None {
    } else if HandlerCalled(cmd) == Some(Syscall.DevOpen) {
      EthRunSound(board.policy, board.names, Answers(board, cmd.args.up), board.room, s.current, s.env);
    } else {
      SetSound(board.policy, s.env, cmd.args.key.value, cmd.args.text.value, board.room);
      SetKeepsDistinct(board.policy, s.env.vs, cmd.args.key.value, cmd.args.text.value, board.room);
    }
  }

  lemma EnvAfterFront(board: Board, s: Api, cmd: Command, n: nat)
    requires GoodBoard(board) && n <= |s.env.vs|
    requires var x := MayEdit(board, s, cmd); x.Some? ==> n <= IndexOf(s.env.vs, x.value)
    ensures var now := EnvAfter(board, s, cmd).vs; n <= |now| && now[..n] == s.env.vs[..n]
  {
    if MayEdit(board, s, cmd) == None {
    } else if HandlerCalled(cmd) == Some(Syscall.DevOpen) {
      InitKeepsFront(board, cmd.args.up, s, n);
    } else {
      SetKeepsPrefix(board.policy, s.env.vs, cmd.args.key.value, cmd.args.text.value, board.room, n);
    }
  }

  // ----- The walk

  /** The variable at an address, as a client reads it. */
  function ReadAt(mem: string, p: Ptr): seq<Var> {
    if p.InEnv? && p.off <= |mem| then [VarAt(mem, p.off)] else []
  }

  /** What the client has read, each time just after its call. */
  function Seen(board: Board, m: Machine, cmds: seq<Command>, c: nat): seq<Var> {
    if cmds == [] then []
    else
      var after := After(board, m, cmds).st;
      Seen(board, m, cmds[..|cmds| - 1], c)
      + if EnumeratesTo(cmds[|cmds| - 1], c) then ReadAt(after.env.mem, CellAt(after.cells, c)) else []
  }

  /** What the client holds after n variables: NULL, or the address of the last one. */
  function Held(vs: seq<Var>, n: nat): Ptr {
    if n == 0 then Null else Place(vs, n - 1)
  }

  /** The client stands at the last variable it has seen, and these are the first ones of the list. */
  ghost predicate Walking(board: Board, m: Machine, c: nat, seen: seq<Var>) {
    var vs, n := m.st.env.vs, |seen|;
    && m.ready && GoodEnv(board, m.st.env)
    && n <= |vs| && vs[..n] == seen
    && CellAt(m.st.cells, c) == Held(vs, n)
  }

  function CountTo(cmds: seq<Command>, c: nat): nat {
    if cmds == [] then 0
    else CountTo(cmds[..|cmds| - 1], c) + if EnumeratesTo(cmds[|cmds| - 1], c) then 1 else 0
  }

  /** The client has been given NULL, and has seen all of the list. */
  ghost predicate Finished(board: Board, m: Machine, c: nat, seen: seq<Var>) {
    m.ready && CellAt(m.st.cells, c) == Null && seen == m.st.env.vs != []
  }

  /**
   A call that suits a client that has seen n variables: the client passes back what it was
   given, and does not call again after NULL; nobody else writes to its cell; and nothing
   it has already passed is edited.
   */
  ghost predicate Suits(board: Board, s: Api, cmd: Command, c: nat, n: nat) {
    && CStrings(cmd)
    && (n > 0 ==> CellAt(s.cells, c) != Null)
    && (EnumeratesTo(cmd, c) ==> cmd.args.last == CellAt(s.cells, c) && s.env.vs != [])
    && (HandlerCalled(cmd) == Some(Syscall.EnvGet) && cmd.args.GetArgs? ==> cmd.args.value != Some(c))
    && var x := MayEdit(board, s, cmd); x.Some? ==> n <= IndexOf(s.env.vs, x.value)
  }

  ghost predicate SuitableRun(board: Board, m: Machine, cmds: seq<Command>, c: nat) {
    forall k | 0 <= k < |cmds| ::
      Suits(board, After(board, m, cmds[..k]).st, cmds[k], c, |Seen(board, m, cmds[..k], c)|)
  }

  lemma CellStep(board: Board, m: Machine, cmd: Command, c: nat, n: nat)
    requires m.ready && Suits(board, m.st, cmd, c, n)
    ensures CellAt(AfterOne(board, m, cmd).st.cells, c) ==
            if EnumeratesTo(cmd, c) then EnumResult(m.st.env.mem, board.size, cmd.args.last)
            else CellAt(m.st.cells, c)
  {
  }

  lemma EnumLeavesEnv(board: Board, m: Machine, cmd: Command, c: nat)
    requires EnumeratesTo(cmd, c)
    ensures AfterOne(board, m, cmd).ready == m.ready && AfterOne(board, m, cmd).st.env == m.st.env
  {
  }

  /** The client's own call: one more variable, or NULL when there is none left. */
  lemma WalkOn(board: Board, m: Machine, cmd: Command, c: nat, seen: seq<Var>)
    requires GoodBoard(board) && Walking(board, m, c, seen)
    requires EnumeratesTo(cmd, c) && Suits(board, m.st, cmd, c, |seen|)
    ensures var after, n := AfterOne(board, m, cmd), |seen|;
            if n < |m.st.env.vs|
            then ReadAt(after.st.env.mem, CellAt(after.st.cells, c)) == [m.st.env.vs[n]]
                 && Walking(board, after, c, seen + [m.st.env.vs[n]])
            else ReadAt(after.st.env.mem, CellAt(after.st.cells, c)) == [] && Finished(board, after, c, seen)
  {
    var vs, n := m.st.env.vs, |seen|;
    var after := AfterOne(board, m, cmd);
    CellStep(board, m, cmd, c, n);
    EnumLeavesEnv(board, m, cmd, c);
    EnvCells(board, m.st.env, n);
    WalkedOn(board, m, after, c, seen);
  }

  lemma EnvCells(board: Board, e: Env, n: nat)
    requires GoodBoard(board) && GoodEnv(board, e) && e.vs != [] && n <= |e.vs|
    ensures EnumResult(e.mem, board.size, Held(e.vs, n)) == Place(e.vs, n)
    ensures ReadAt(e.mem, Place(e.vs, n)) == if n < |e.vs| then [e.vs[n]] else []
  {
    NextCell(e.mem, board.size, e.vs, board.room, n);
    ReadPlace(e.mem, board.size, e.vs, board.room, n);
  }

  lemma WalkedOn(board: Board, m: Machine, after: Machine, c: nat, seen: seq<Var>)
    requires Walking(board, m, c, seen) && after.ready && after.st.env == m.st.env && m.st.env.vs != []
    requires CellAt(after.st.cells, c) == Place(m.st.env.vs, |seen|)
    ensures var vs, n := m.st.env.vs, |seen|;
            if n < |vs| then Walking(board, after, c, seen + [vs[n]]) else Finished(board, after, c, seen)
  {
    var vs, n := m.st.env.vs, |seen|;
    if n < |vs| {
      assert vs[..n + 1] == seen + [vs[n]];
    }
  }

  /** From standing after n variables to standing after n + 1. */
  lemma NextCell(mem: string, size: nat, vs: seq<Var>, room: nat, n: nat)
    requires Holds(mem, vs) && |Image(vs)| <= room <= size && Distinct(vs) && vs != [] && n <= |vs|
    ensures EnumResult(mem, size, Held(vs, n)) == Place(vs, n)
  {
    if n > 0 {
      NextPlace(mem, size, vs, room, n - 1);
    }
  }

  lemma ReadPlace(mem: string, size: nat, vs: seq<Var>, room: nat, n: nat)
    requires Holds(mem, vs) && |Image(vs)| <= room <= size && Distinct(vs) && n <= |vs|
    ensures ReadAt(mem, Place(vs, n)) == if n < |vs| then [vs[n]] else []
  {
    if n < |vs| {
      NextPlace(mem, size, vs, room, n);
    }
  }

  /** Any other call that suits the client leaves it where it is. */
  lemma StandStill(board: Board, m: Machine, cmd: Command, c: nat, seen: seq<Var>)
    requires GoodBoard(board) && Walking(board, m, c, seen)
    requires !EnumeratesTo(cmd, c) && Suits(board, m.st, cmd, c, |seen|)
    ensures Walking(board, AfterOne(board, m, cmd), c, seen)
  {
    var n := |seen|;
    EditBehind(board, m, cmd, n);
    CellStep(board, m, cmd, c, n);
    HeldOfPrefix(m.st.env.vs, AfterOne(board, m, cmd).st.env.vs, n);
  }

  lemma HeldOfPrefix(a: seq<Var>, b: seq<Var>, n: nat)
    requires n <= |a| && n <= |b| && a[..n] == b[..n]
    ensures Held(a, n) == Held(b, n)
  {
    if n > 0 {
      OffsetOfPrefix(a, b, n, n - 1);
    }
  }

  lemma SuitableSnoc(board: Board, m: Machine, before: seq<Command>, last: Command, c: nat)
    requires SuitableRun(board, m, before + [last], c)
    ensures SuitableRun(board, m, before, c)
    ensures Suits(board, After(board, m, before).st, last, c, |Seen(board, m, before, c)|)
  {
    var cmds := before + [last];
    assert cmds[..|before|] == before && cmds[|before|] == last;
    forall k | 0 <= k < |before|
      ensures Suits(board, After(board, m, before[..k]).st, before[k], c, |Seen(board, m, before[..k], c)|)
    {
      assert cmds[k] == before[k] && cmds[..k] == before[..k];
    }
  }

  lemma SeenSnoc(board: Board, m: Machine, before: seq<Command>, last: Command, c: nat)
    ensures var after := AfterOne(board, After(board, m, before), last).st;
            Seen(board, m, before + [last], c) == Seen(board, m, before, c)
            + if EnumeratesTo(last, c) then ReadAt(after.env.mem, CellAt(after.cells, c)) else []
  {
    AfterSnoc(board, m, before, last);
    assert (before + [last])[..|before|] == before;
  }

  /**
   The walk of one client through an environment that others may be editing: as long as
   no call edits a variable the client has already passed, what it has seen are the first
   variables of the list as it is now, one for each of its calls, and when it is given NULL
   it has seen all of it.
   */
  lemma {:induction false} WalkAmongOthers(board: Board, m: Machine, c: nat, cmds: seq<Command>)
    requires m.ready && GoodBoard(board) && GoodEnv(board, m.st.env) && CellAt(m.st.cells, c) == Null
    requires SuitableRun(board, m, cmds, c)
    ensures var after, seen := After(board, m, cmds), Seen(board, m, cmds, c);
            || (Walking(board, after, c, seen) && CountTo(cmds, c) == |seen|)
            || (Finished(board, after, c, seen) && CountTo(cmds, c) == |seen| + 1)
  {
    if cmds == [] {
    } else {
      var before, last := cmds[..|cmds| - 1], cmds[|cmds| - 1];
      assert cmds == before + [last];
      SuitableSnoc(board, m, before, last, c);
      WalkAmongOthers(board, m, c, before);
      AfterSnoc(board, m, before, last);
      SeenSnoc(board, m, before, last, c);
      WalkStep(board, After(board, m, before), last, c, Seen(board, m, before, c), CountTo(before, c));
    }
  }

  /** n calls have been made, all but the one that gave NULL with a variable as the answer. */
  ghost predicate OnWay(board: Board, m: Machine, c: nat, seen: seq<Var>, n: nat) {
    (Walking(board, m, c, seen) && n == |seen|) || (Finished(board, m, c, seen) && n == |seen| + 1)
  }

  lemma WalkStep(board: Board, m: Machine, cmd: Command, c: nat, seen: seq<Var>, n: nat)
    requires GoodBoard(board) && OnWay(board, m, c, seen, n) && Suits(board, m.st, cmd, c, |seen|)
    ensures var after := AfterOne(board, m, cmd);
            var now := seen + if EnumeratesTo(cmd, c) then ReadAt(after.st.env.mem, CellAt(after.st.cells, c)) else [];
            OnWay(board, after, c, now, if EnumeratesTo(cmd, c) then n + 1 else n)
  {
    assert seen + [] == seen;
    if EnumeratesTo(cmd, c) {
      WalkOn(board, m, cmd, c, seen);
    } else {
      StandStill(board, m, cmd, c, seen);
    }
  }

  // ----- What an edit of a variable already passed does

  ghost function EndKept(t: nat): Env -> bool {
    (e: Env) => EndsFrom(e.mem, t)
  }

  lemma ActKeepsEnd(policy: Policy, names: seq<string>, room: nat, t: nat)
    ensures Keeps(Acts(policy, names, room), EndKept(t), |names|)
  {
    forall e: Env, i: nat | i < |names| && EndKept(t)(e)
      ensures EndKept(t)(Acts(policy, names, room)(e, i))
    {
      EditEndsFrom(e.mem, SetList(policy, e.vs, "ethact", names[i], room), t);
    }
  }

  lemma EnvAfterEnds(board: Board, s: Api, cmd: Command, t: nat)
    requires GoodBoard(board) && EndsFrom(s.env.mem, t)
    ensures EndsFrom(EnvAfter(board, s, cmd).mem, t)
  {
    if MayEdit(board, s, cmd) == None {
    } else if HandlerCalled(cmd) == Some(Syscall.DevOpen) {
      ActKeepsEnd(board.policy, board.names, board.room, t);
      EthFromKeeps(Acts(board.policy, board.names, board.room), Rotating(), EndKept(t),
                   Answers(board, cmd.args.up), s.current, 0, s.env);
    } else {
      EditEndsFrom(s.env.mem, SetList(board.policy, s.env.vs, cmd.args.key.value, cmd.args.text.value, board.room), t);
    }
  }

  /** Every call that changes the list leaves it as one edit of the variable does. */
  lemma EnvAfterIsEdit(board: Board, s: Api, cmd: Command) returns (value: string)
    requires GoodBoard(board) && Distinct(s.env.vs) && MayEdit(board, s, cmd).Some?
    requires EnvAfter(board, s, cmd).vs != s.env.vs
    ensures EnvAfter(board, s, cmd).vs == Edited(s.env.vs, MayEdit(board, s, cmd).value, value, board.room)
  {
    if HandlerCalled(cmd) == Some(Syscall.DevOpen) {
      EthRunEdits(board.policy, board.names, Answers(board, cmd.args.up), board.room, s.current, s.env);
      value := board.names[InitOn(board, cmd.args.up, s).current];
    } else {
      value := cmd.args.text.value;
    }
  }

  /**
   A client stands at entry k when a call edits the variable x, in whatever way: by
   API_env_set, or by an open that makes eth_init rewrite ethact any number of times. Its
   next call is undisturbed on the condition that `Disturbance` states.
   */
  lemma CallUndisturbedIff(board: Board, m: Machine, cmd: Command, k: nat)
    requires m.ready && GoodBoard(board) && CStrings(cmd) && GoodEnv(board, m.st.env)
    requires k < |m.st.env.vs| && MayEdit(board, m.st, cmd).Some?
    ensures var vs, after, x := m.st.env.vs, AfterOne(board, m, cmd).st.env, MayEdit(board, m.st, cmd).value;
            if after.vs == vs then GoesOn(after.mem, board.size, Offset(vs, k), vs, k + 1)
            else Disturbance(after.mem, board.size, vs, after.vs, IndexOf(vs, x), k)
  {
    var vs, after, x := m.st.env.vs, EnvAfter(board, m.st, cmd), MayEdit(board, m.st, cmd).value;
    EnvStep(board, m, cmd);
    EnvAfterGood(board, m.st, cmd);
    if after.vs == vs {
      NextPlace(after.mem, board.size, vs, board.room, k);
    } else {
      var value := EnvAfterIsEdit(board, m.st, cmd);
      OldEnd(m.st.env.mem, vs, k);
      EnvAfterEnds(board, m.st, cmd, Offset(vs, |vs|));
      EditUndisturbedIff(after.mem, board.size, vs, x, value, board.room, k);
    }
  }

  /** The block of the example below, and what it becomes. */
  const BEFORE := [Var("ethact", "eth0"), Var("a", "1"), Var("b", "2")]
  const AFTERWARDS := [Var("a", "1"), Var("b", "2"), Var("ethact", "eth1")]

  lemma ExampleSet(policy: Policy, room: nat)
    requires room >= 21
    ensures IndexOf(BEFORE, "ethact") == 0 && Lookup(BEFORE, "ethact") == Some("eth0") && Rotates(BEFORE)
    ensures SetList(policy, BEFORE, "ethact", "eth1", room) == AFTERWARDS
  {
    SetActIs(policy, BEFORE, "eth1", room);
    assert IndexOf(BEFORE, "ethact") == 0;
    var rest := [Var("a", "1"), Var("b", "2")];
    assert Remove(BEFORE, "ethact") == rest;
    assert Offset(rest, 1) == 4 && Offset(rest, 2) == 8;
    IndexOfIs(BEFORE, "ethrotate", 3);
  }

  /** eth0 does not come up and eth1 does, so that ethact=eth0 is rewritten. */
  lemma ExampleInit(board: Board, s: Api)
    requires board.ifs == [1, 2] && board.names == ["eth0", "eth1"] && board.room >= 21
    requires s.current == 0 && s.env.vs == BEFORE
    ensures InitOn(board, [false, true], s) == EthDone(0, 1, Env(Overwritten(s.env.mem, AFTERWARDS), AFTERWARDS))
  {
    ExampleSet(board.policy, board.room);
    var up, act := Answers(board, [false, true]), Acts(board.policy, board.names, board.room);
    assert up == [false, true];
    assert act(s.env, 1) == Env(Overwritten(s.env.mem, AFTERWARDS), AFTERWARDS);
    assert Rotating()(s.env);
    assert EthFrom(act, Rotating(), up, 0, 1, act(s.env, 1)) == EthDone(0, 1, act(s.env, 1));
  }

  /** Behind the open, the old address of a lies inside ethact=eth1. */
  lemma ExampleStuck(mem: string, size: nat)
    requires Holds(mem, AFTERWARDS) && size >= 21
    ensures EnumResult(mem, size, InEnv(12)) == InEnv(12)
  {
    var vs := AFTERWARDS;
    assert Offset(vs, 1) == 4 && Offset(vs, 2) == 8 && Offset(vs, 3) == 20;
    HoldsIsLaid(mem, vs);
    EntryInMemory(mem, vs, 2);
    var e := Entry(vs[2]);
    assert e == "ethact=eth1" + [NUL];
    assert mem[8..20] == e;
    var text := mem[12..];
    forall x | 0 <= x < 3 ensures text[x] == e[4 + x] {
      assert text[x] == mem[12 + x] == mem[8..20][4 + x];
    }
    assert e[4] == 'c' && e[5] == 't' && e[6] == EQ;
    NameEndIs(text, 0, 2);
    assert NameAt(text, 0) == "ct";
    IndexOfIs(vs, "ct", 3);
    NextOnList(mem, size, vs, text);
  }

  /**
   The block holds ethact=eth0, a=1 and b=2, and the client has just been given a. A
   descriptor of the first interface is opened; its driver fails and the second comes up.
   The client's next call would have given b, and now gives back its own address, for ever.
   */
  lemma OpenStrandsClient(board: Board, m: Machine, at: nat)
    requires board.ifs == [1, 2] && board.names == ["eth0", "eth1"] && GoodBoard(board)
    requires m.ready && m.st.current == 0 && m.st.env.vs == BEFORE && SoundEnv(m.st.env, board.room)
    requires DescAt(m.st.descs, at) == Storage.Desc(DEV_TYP_NET, 1, DEV_STA_CLOSED)
    ensures var open := Syscall.Invoke(10, OpenArgs(Some(at), [false, true]));
            var after := AfterOne(board, m, open).st.env;
            && Offset(BEFORE, 1) == 12 && after.vs == AFTERWARDS
            && GoesOn(m.st.env.mem, board.size, 12, BEFORE, 2)
            && EnumResult(after.mem, board.size, InEnv(12)) == InEnv(12)
  {
    ExampleRoom(m.st.env, board.room);
    ExampleOpen(board, m, at);
    ExampleBefore(m.st.env, board.size, board.room);
    ExampleHolds(board.policy, m.st.env, board.room);
    ExampleStuck(Overwritten(m.st.env.mem, AFTERWARDS), board.size);
  }

  lemma ExampleRoom(e: Env, room: nat)
    requires SoundEnv(e, room) && e.vs == BEFORE
    ensures room >= 21
  {
    assert Offset(BEFORE, 1) == 12 && Offset(BEFORE, 2) == 16 && Offset(BEFORE, 3) == 20;
    ClosingInMemory(e.mem, BEFORE);
  }

  lemma ExampleOpen(board: Board, m: Machine, at: nat)
    requires board.ifs == [1, 2] && board.names == ["eth0", "eth1"] && GoodBoard(board) && board.room >= 21
    requires m.ready && m.st.current == 0 && m.st.env.vs == BEFORE
    requires DescAt(m.st.descs, at) == Storage.Desc(DEV_TYP_NET, 1, DEV_STA_CLOSED)
    ensures AfterOne(board, m, Syscall.Invoke(10, OpenArgs(Some(at), [false, true]))).st.env
         == Env(Overwritten(m.st.env.mem, AFTERWARDS), AFTERWARDS)
  {
    var open: Command := Syscall.Invoke(10, OpenArgs(Some(at), [false, true]));
    ExampleInit(board, m.st);
    assert Devices.ClassOf(DEV_TYP_NET) == Devices.Net;
    assert HandlerCalled(open) == Some(Syscall.DevOpen);
    OpenEnv(board, m.st, at, [false, true]);
  }

  lemma ExampleBefore(e: Env, size: nat, room: nat)
    requires SoundEnv(e, room) && e.vs == BEFORE && room <= size
    ensures Offset(BEFORE, 1) == 12 && GoesOn(e.mem, size, 12, BEFORE, 2)
  {
    assert Offset(BEFORE, 1) == 12;
    NextPlace(e.mem, size, BEFORE, room, 1);
  }

  lemma ExampleHolds(policy: Policy, e: Env, room: nat)
    requires SoundEnv(e, room) && e.vs == BEFORE && room >= 21
    ensures Holds(Overwritten(e.mem, AFTERWARDS), AFTERWARDS)
  {
    ExampleSet(policy, room);
    SetFits(policy, BEFORE, "ethact", "eth1", room);
    OverwrittenHolds(e.mem, AFTERWARDS);
  }

  // ----- Runs that edit nothing

  /** Nobody sets a variable, and every open finds its interface up, or rotation off. */
  ghost predicate EditsNothing(board: Board, m: Machine, cmds: seq<Command>) {
    forall k | 0 <= k < |cmds| :: MayEdit(board, After(board, m, cmds[..k]).st, cmds[k]) == None
  }

  lemma {:induction false} SameEnv(board: Board, m: Machine, cmds: seq<Command>)
    requires m.ready && GoodBoard(board) && EditsNothing(board, m, cmds)
    ensures After(board, m, cmds).ready && After(board, m, cmds).st.env == m.st.env
  {
    if cmds == [] {
    } else {
      var before, last := cmds[..|cmds| - 1], cmds[|cmds| - 1];
      assert cmds == before + [last];
      assert forall k | 0 <= k < |before| :: before[k] == cmds[k] && before[..k] == cmds[..k];
      SameEnv(board, m, before);
      AfterSnoc(board, m, before, last);
      EnvStep(board, After(board, m, before), last);
    }
  }

  /** In such a run the client sees the environment as it was at the start: in order, and all of it when NULL comes. */
  lemma ClientSeesAll(board: Board, m: Machine, c: nat, cmds: seq<Command>)
    requires m.ready && GoodBoard(board) && GoodEnv(board, m.st.env) && CellAt(m.st.cells, c) == Null
    requires SuitableRun(board, m, cmds, c) && EditsNothing(board, m, cmds)
    ensures var seen, vs, p := Seen(board, m, cmds, c), m.st.env.vs, CellAt(After(board, m, cmds).st.cells, c);
            && |seen| <= |vs| && seen == vs[..|seen|]
            && (p == Null && |seen| > 0 ==> seen == vs)
  {
    WalkAmongOthers(board, m, c, cmds);
    SameEnv(board, m, cmds);
  }
}
