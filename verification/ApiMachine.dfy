/**
 The dispatcher with the handlers of this model in its table, and what a client sees
 of its own enumeration while other clients make calls in between.
 */
module ApiMachine {
  import opened ApiPublic
  import opened EnvFormat
  import opened EnvApi
  import opened EnvBlock
  import opened EnvValue
  import opened Storage
  import opened Sweep
  import opened Network
  import Devices
  import Syscall

  type SharedFlags = fl: Flags | GoodFlags(fl) witness Flags(seq(ENUM_MAX, _ => false), seq(ENUM_MAX, _ => false))

  /**
   What the calls act on: the flags of the storage groups, the index of the current
   interface, the environment, and the clients' descriptors and `char *` cells by address.
   */
  datatype Api = Api(flags: SharedFlags, current: nat, env: Env, descs: map<nat, Desc>, cells: map<nat, Ptr>)

  /** What is fixed during a run, or outside this model. */
  datatype Board = Board(
    groups: Groups,
    ifs: seq<nat>,                     // the interfaces in ring order, as cookies
    names: seq<string>,                // and their names
    room: nat,                         // ENV_SIZE
    size: nat,                         // CONFIG_ENV_SIZE
    policy: Policy,
    other: Syscall.Handler -> int)     // results of the calls that only reach the hardware

  /** The arguments of a call; None is a NULL pointer. An open comes with what each driver answers this time. */
  datatype Args =
    | DescArg(at: Option<nat>)
    | OpenArgs(place: Option<nat>, up: seq<bool>)
    | EnumArgs(last: Ptr, next: Option<nat>)
    | GetArgs(name: Option<string>, value: Option<nat>)
    | SetArgs(key: Option<string>, text: Option<string>)
    | OtherArgs

  /** Memory that no call has written yet is zero. */
  function DescAt(descs: map<nat, Desc>, at: nat): Desc {
    if at in descs then descs[at] else Desc(0, 0, 0)
  }

  function CellAt(cells: map<nat, Ptr>, at: nat): Ptr {
    if at in cells then cells[at] else Null
  }

  /** The cookie of the current interface, NULL if there is none. */
  function CurOf(board: Board, s: Api): nat {
    if s.current < |board.ifs| then board.ifs[s.current] else 0
  }

  function EnumDesc(board: Board, at: nat, s: Api): Api {
    var r := DevEnum(board.groups, CurOf(board, s), s.flags, DescAt(s.descs, at));
    s.(flags := r.fl, descs := s.descs[at := r.d])
  }

  /** One answer for each interface of the board. */
  function Answers(board: Board, up: seq<bool>): seq<bool> {
    seq(|board.ifs|, i => 0 <= i < |up| && up[i])
  }

  function InitOn(board: Board, up: seq<bool>, s: Api): EthDone {
    if s.current < |board.ifs|
    then EthRun(board.policy, board.names, Answers(board, up), board.room, s.current, s.env)
    else EthDone(-1, s.current, s.env)
  }

  function OpenDesc(board: Board, at: nat, up: seq<bool>, s: Api): (int, Api) {
    var d := DescAt(s.descs, at);
    var eth := InitOn(board, up, s);
    var r := Devices.OpenCall(d, CurOf(board, s), StorOpenResult(board.groups, d.cookie), eth.rc);
    var now := s.(descs := s.descs[at := r.d]);
    (r.rc, if r.calls != [] && r.calls[0].NetInit? then now.(current := eth.current, env := eth.env) else now)
  }

  function CloseDesc(board: Board, at: nat, s: Api): (int, Api) {
    var r := Devices.CloseCall(DescAt(s.descs, at), CurOf(board, s));
    (r.rc, s.(descs := s.descs[at := r.d]))
  }

  /** What the handler in the table does. */
  function Perform(board: Board, h: Syscall.Handler, args: Args, s: Api): (int, Api) {
    match (h, args)
    case (DevEnum, DescArg(at)) => if at == None then (API_EINVAL, s) else (0, EnumDesc(board, at.value, s))
    case (DevOpen, OpenArgs(at, up)) => if at == None then (API_EINVAL, s) else OpenDesc(board, at.value, up, s)
    case (DevClose, DescArg(at)) => if at == None then (API_EINVAL, s) else CloseDesc(board, at.value, s)
    case (EnvEnum, EnumArgs(last, next)) =>
      if next == None then (API_EINVAL, s)
      else (0, s.(cells := s.cells[next.value := EnumResult(s.env.mem, board.size, last)]))
    case (EnvGet, GetArgs(name, value)) =>
      if name == None || value == None then (API_EINVAL, s)
      else (0, s.(cells := s.cells[value.value := GetResult(s.env.mem, board.size, name.value + [NUL])]))
    case (EnvSet, SetArgs(key, text)) =>
      if key == None || text == None then (API_EINVAL, s)
      else (0, s.(env := SetIn(board.policy, s.env, key.value, text.value, board.room)))
    case _ => (board.other(h), s)
  }

  type Machine = Syscall.Machine<Api>
  type Command = Syscall.Command<Args>

  function Exec(board: Board): (Syscall.Handler, Args, Api) -> (int, Api) {
    (h, args, s) => Perform(board, h, args, s)
  }

  function ResetStorage(): Api -> Api {
    (s: Api) => s.(flags := ResetFlags())
  }

  /** The machine after a run of system calls by any clients. */
  function After(board: Board, m: Machine, cmds: seq<Command>): Machine {
    Syscall.RunCommands(Exec(board), ResetStorage(), m, cmds)
  }

  function AfterOne(board: Board, m: Machine, cmd: Command): Machine {
    Syscall.StepCommand(Exec(board), ResetStorage(), m, cmd)
  }

  lemma AfterSnoc(board: Board, m: Machine, before: seq<Command>, last: Command)
    ensures After(board, m, before + [last]) == AfterOne(board, After(board, m, before), last)
  {
    assert (before + [last])[..|before|] == before;
  }

  function HandlerCalled(cmd: Command): Option<Syscall.Handler> {
    if cmd.Init? then None else Syscall.HandlerOf(cmd.call)
  }

  // ----- The device sweep of one client among the calls of others

  predicate Enumerates(cmd: Command, id: nat) {
    HandlerCalled(cmd) == Some(Syscall.DevEnum) && cmd.args == DescArg(Some(id))
  }

  /** Nobody else enumerates, and api_init is not run again. */
  predicate LeavesSweep(cmd: Command, id: nat) {
    && cmd.Invoke?
    && (HandlerCalled(cmd) == Some(Syscall.DevEnum) && cmd.args.DescArg? ==> cmd.args.at == None || cmd.args.at == Some(id))
  }

  function Count(cmds: seq<Command>, id: nat): nat {
    if cmds == [] then 0
    else Count(cmds[..|cmds| - 1], id) + if Enumerates(cmds[|cmds| - 1], id) then 1 else 0
  }

  lemma CountSnoc(before: seq<Command>, last: Command, id: nat)
    ensures Count(before + [last], id) == Count(before, id) + if Enumerates(last, id) then 1 else 0
  {
    assert (before + [last])[..|before|] == before;
  }

  /** No interface shares its cookie with a storage device. */
  ghost predicate FreshBoard(board: Board) {
    forall i | 0 <= i < |board.ifs| :: FreshInterface(board.groups, board.ifs[i])
  }

  /** Flags and cookie of the client after n enumerations of a sweep that is to yield e. */
  ghost predicate Stands(groups: Groups, fl: Flags, cookie: nat, n: nat, e: seq<nat>) {
    if n == 0 then cookie == 0
    else n <= |e| + 1 ==> Yielded(groups, Enumed(true, fl, Desc(0, cookie, 0)), e, n - 1)
  }

  /** The machine in the middle of the client's sweep. */
  ghost predicate OnCourse(board: Board, m: Machine, id: nat, n: nat, e: seq<nat>) {
    m.ready && Stands(board.groups, m.st.flags, DescAt(m.st.descs, id).cookie, n, e)
  }

  /** A call that does not enumerate leaves flags and cookies alone, opens and closes of the same descriptor included. */
  lemma OtherCall(board: Board, m: Machine, cmd: Command, id: nat)
    requires m.ready && LeavesSweep(cmd, id) && !Enumerates(cmd, id)
    ensures var after := AfterOne(board, m, cmd);
            && after.ready && after.st.flags == m.st.flags
            && DescAt(after.st.descs, id).cookie == DescAt(m.st.descs, id).cookie
  {
  }

  lemma OtherKeepsCourse(board: Board, m: Machine, cmd: Command, id: nat, n: nat, e: seq<nat>)
    requires OnCourse(board, m, id, n, e) && LeavesSweep(cmd, id) && !Enumerates(cmd, id)
    ensures OnCourse(board, AfterOne(board, m, cmd), id, n, e)
  {
    OtherCall(board, m, cmd, id);
  }

  lemma EnumerateCall(board: Board, m: Machine, cmd: Command, id: nat)
    requires m.ready && Enumerates(cmd, id)
    ensures var after, r := AfterOne(board, m, cmd), DevEnum(board.groups, CurOf(board, m.st), m.st.flags, DescAt(m.st.descs, id));
            && after.ready && after.st.flags == r.fl
            && DescAt(after.st.descs, id) == r.d
  {
  }

  lemma EnumerateMoves(board: Board, m: Machine, cmd: Command, id: nat, n: nat, e: seq<nat>)
    requires OnCourse(board, m, id, n, e) && Enumerates(cmd, id) && Apart(board.groups) && FreshBoard(board)
    requires n == 0 ==> e == Expected(board.groups, CurOf(board, m.st))
    ensures OnCourse(board, AfterOne(board, m, cmd), id, n + 1, e)
  {
    EnumerateCall(board, m, cmd, id);
    DevEnumMoves(board.groups, CurOf(board, m.st), m.st.flags, DescAt(m.st.descs, id), n, e);
  }

  lemma DevEnumMoves(groups: Groups, cur: nat, fl: Flags, d: Desc, n: nat, e: seq<nat>)
    requires Apart(groups) && FreshInterface(groups, cur) && GoodFlags(fl)
    requires Stands(groups, fl, d.cookie, n, e) && (n == 0 ==> e == Expected(groups, cur))
    ensures var r := DevEnum(groups, cur, fl, d); Stands(groups, r.fl, r.d.cookie, n + 1, e)
  {
    var r := DevEnum(groups, cur, fl, d);
    if n == 0 {
      FirstCall(groups, cur, fl, d);
      SameYield(groups, r, e, 0);
    } else if n <= |e| {
      MidMoves(groups, cur, fl, d, n, e);
      SameYield(groups, r, e, n);
    }
  }

  lemma MidMoves(groups: Groups, cur: nat, fl: Flags, d: Desc, n: nat, e: seq<nat>)
    requires Apart(groups) && GoodFlags(fl) && 0 < n <= |e|
    requires Yielded(groups, Enumed(true, fl, Desc(0, d.cookie, 0)), e, n - 1)
    ensures Yielded(groups, DevEnum(groups, cur, fl, d), e, n)
  {
    NextCall(groups, cur, fl, d, e, n - 1);
  }

  lemma SameYield(groups: Groups, r: Enumed, e: seq<nat>, k: nat)
    requires Yielded(groups, r, e, k)
    ensures Yielded(groups, Enumed(true, r.fl, Desc(0, r.d.cookie, 0)), e, k)
  {
  }

  /** The index of the client's first enumeration. */
  function FirstEnum(cmds: seq<Command>, id: nat): (k: nat)
    ensures k <= |cmds|
    ensures forall j | 0 <= j < k :: !Enumerates(cmds[j], id)
    ensures k < |cmds| ==> Enumerates(cmds[k], id)
  {
    if cmds == [] || Enumerates(cmds[0], id) then 0 else 1 + FirstEnum(cmds[1..], id)
  }

  lemma FirstEnumIs(cmds: seq<Command>, id: nat, k: nat)
    requires k <= |cmds| && forall j | 0 <= j < k :: !Enumerates(cmds[j], id)
    requires k < |cmds| ==> Enumerates(cmds[k], id)
    ensures FirstEnum(cmds, id) == k
  {
  }

  lemma FirstEnumSnoc(before: seq<Command>, last: Command, id: nat)
    ensures var k := FirstEnum(before, id);
            FirstEnum(before + [last], id) == if k < |before| || Enumerates(last, id) then k else k + 1
  {
    var k := FirstEnum(before, id);
    FirstEnumIs(before + [last], id, if k < |before| || Enumerates(last, id) then k else k + 1);
  }

  lemma {:induction false} CountIsZero(cmds: seq<Command>, id: nat)
    ensures Count(cmds, id) == 0 <==> FirstEnum(cmds, id) == |cmds|
  {
    if cmds == [] {
    } else {
      var before, last := cmds[..|cmds| - 1], cmds[|cmds| - 1];
      assert cmds == before + [last];
      CountIsZero(before, id);
      FirstEnumSnoc(before, last, id);
    }
  }

  /** What the client's sweep is to yield, from the interface current just before its first call. */
  function SweepOf(board: Board, m: Machine, id: nat, cmds: seq<Command>): seq<nat> {
    Expected(board.groups, CurOf(board, After(board, m, cmds[..FirstEnum(cmds, id)]).st))
  }

  lemma SweepOfSnoc(board: Board, m: Machine, id: nat, before: seq<Command>, last: Command)
    requires Count(before, id) > 0 || Enumerates(last, id)
    ensures SweepOf(board, m, id, before + [last]) ==
            if Count(before, id) > 0 then SweepOf(board, m, id, before)
            else Expected(board.groups, CurOf(board, After(board, m, before).st))
  {
    var k := FirstEnum(before, id);
    CountIsZero(before, id);
    FirstEnumSnoc(before, last, id);
    assert (before + [last])[..k] == before[..k];
    assert before[..|before|] == before;
  }

  /**
   A client that goes on enumerating one descriptor gets its sweep, whatever system calls
   are made in between by itself or by others, as long as nobody else enumerates: the
   interface current at its first call, the leaders of the groups in order, then NULL.
   */
  lemma {:induction false} SweepAmongOthers(board: Board, m: Machine, id: nat, cmds: seq<Command>)
    requires m.ready && Apart(board.groups) && FreshBoard(board)
    requires DescAt(m.st.descs, id).cookie == 0
    requires forall k | 0 <= k < |cmds| :: LeavesSweep(cmds[k], id)
    ensures OnCourse(board, After(board, m, cmds), id, Count(cmds, id), SweepOf(board, m, id, cmds))
  {
    if cmds == [] {
    } else {
      var before, last := cmds[..|cmds| - 1], cmds[|cmds| - 1];
      assert cmds == before + [last];
      SweepAmongOthers(board, m, id, before);
      OneMoreCall(board, m, id, before, last);
    }
  }

  lemma OneMoreCall(board: Board, m: Machine, id: nat, before: seq<Command>, last: Command)
    requires OnCourse(board, After(board, m, before), id, Count(before, id), SweepOf(board, m, id, before))
    requires LeavesSweep(last, id) && Apart(board.groups) && FreshBoard(board)
    ensures var cmds := before + [last];
            OnCourse(board, After(board, m, cmds), id, Count(cmds, id), SweepOf(board, m, id, cmds))
  {
    var now, n, cmds := After(board, m, before), Count(before, id), before + [last];
    AfterSnoc(board, m, before, last);
    CountSnoc(before, last, id);
    if n > 0 || Enumerates(last, id) {
      SweepOfSnoc(board, m, id, before, last);
    }
    CourseStep(board, now, last, id, n, SweepOf(board, m, id, before), SweepOf(board, m, id, cmds));
  }

  lemma CourseStep(board: Board, m: Machine, cmd: Command, id: nat, n: nat, was: seq<nat>, e: seq<nat>)
    requires OnCourse(board, m, id, n, was) && LeavesSweep(cmd, id) && Apart(board.groups) && FreshBoard(board)
    requires n > 0 ==> e == was
    requires n == 0 && Enumerates(cmd, id) ==> e == Expected(board.groups, CurOf(board, m.st))
    ensures OnCourse(board, AfterOne(board, m, cmd), id, if Enumerates(cmd, id) then n + 1 else n, e)
  {
    NotBegun(board, m, id, n, was, e);
    if Enumerates(cmd, id) {
      EnumerateMoves(board, m, cmd, id, n, e);
    } else {
      OtherKeepsCourse(board, m, cmd, id, n, e);
    }
  }

  /** Before the first call it does not matter what the sweep is to yield. */
  lemma NotBegun(board: Board, m: Machine, id: nat, n: nat, was: seq<nat>, e: seq<nat>)
    requires OnCourse(board, m, id, n, was) && (n > 0 ==> e == was)
    ensures OnCourse(board, m, id, n, e)
  {
  }

  /** In particular, the n-th of the client's calls gives it the n-th device of the sweep. */
  lemma ClientSeesSweep(board: Board, m: Machine, id: nat, cmds: seq<Command>)
    requires m.ready && Apart(board.groups) && FreshBoard(board)
    requires DescAt(m.st.descs, id).cookie == 0
    requires forall k | 0 <= k < |cmds| :: LeavesSweep(cmds[k], id)
    ensures var n, e := Count(cmds, id), SweepOf(board, m, id, cmds);
            0 < n <= |e| + 1 ==>
              DescAt(After(board, m, cmds).st.descs, id).cookie == if n == |e| + 1 then 0 else e[n - 1]
  {
    SweepAmongOthers(board, m, id, cmds);
  }

}
