/**
 The dispatcher (syscall and api_init in api/api.c). Before api_init the table is
 empty; after it, exactly the numbers with a handler are serviced.
 */
module Syscall {
  import opened ApiPublic

  datatype Handler =
    | Getc | Putc | Tstc | Puts | Reset | GetSysInfo | Udelay | GetTimer
    | DevEnum | DevOpen | DevClose | DevRead | DevWrite | EnvEnum | EnvGet | EnvSet

  /** The call numbers as include/api_public.h counts them. */
  function NumberOf(h: Handler): (call: nat)
    ensures API_RSVD < call < API_MAXCALL
  {
    match h
    case Getc => 1 case Putc => 2 case Tstc => 3 case Puts => 4
    case Reset => 5 case GetSysInfo => 6 case Udelay => 7 case GetTimer => 8
    case DevEnum => 9 case DevOpen => 10 case DevClose => 11 case DevRead => 12
    case DevWrite => 13 case EnvEnum => 14 case EnvGet => 15 case EnvSet => 16
  }

  /** The handler of a number, if any. */
  function HandlerOf(call: int): (r: Option<Handler>)
    ensures r.Some? ==> NumberOf(r.value) == call
    ensures r.Some? <==> API_RSVD < call < API_MAXCALL
    ensures r.None? ==> forall h :: NumberOf(h) != call
  {
    match call
    case 1 => Some(Getc) case 2 => Some(Putc) case 3 => Some(Tstc) case 4 => Some(Puts)
    case 5 => Some(Reset) case 6 => Some(GetSysInfo) case 7 => Some(Udelay) case 8 => Some(GetTimer)
    case 9 => Some(DevEnum) case 10 => Some(DevOpen) case 11 => Some(DevClose) case 12 => Some(DevRead)
    case 13 => Some(DevWrite) case 14 => Some(EnvEnum) case 15 => Some(EnvGet) case 16 => Some(EnvSet)
    case _ => None
  }

  /** The table of an API that is up. */
  ghost predicate FullTable(table: seq<Option<Handler>>) {
    |table| == API_MAXCALL && forall k | 0 <= k < API_MAXCALL :: table[k] == HandlerOf(k)
  }

  lemma FilledByNumber(t: seq<Option<Handler>>)
    requires |t| == API_MAXCALL && t[0] == None
    requires t[1] == Some(Getc) && t[2] == Some(Putc) && t[3] == Some(Tstc) && t[4] == Some(Puts)
    requires t[5] == Some(Reset) && t[6] == Some(GetSysInfo) && t[7] == Some(Udelay) && t[8] == Some(GetTimer)
    requires t[9] == Some(DevEnum) && t[10] == Some(DevOpen) && t[11] == Some(DevClose) && t[12] == Some(DevRead)
    requires t[13] == Some(DevWrite) && t[14] == Some(EnvEnum) && t[15] == Some(EnvGet) && t[16] == Some(EnvSet)
    ensures FullTable(t)
  {
  }

  /** One call from outside: api_init, or syscall with its number and arguments. */
  datatype Command<A> = Init | Invoke(call: int, args: A)

  /** What reaches the machine: dev_stor_init, or a handler with its arguments. */
  datatype Action<A> = StorInit | Handle(h: Handler, args: A)

  datatype Machine<S> = Machine(ready: bool, st: S)

  function StepCommand<S, A>(exec: (Handler, A, S) -> (int, S), storInit: S -> S, m: Machine<S>, cmd: Command<A>): Machine<S> {
    match cmd
    case Init => Machine(true, storInit(m.st))
    case Invoke(call, args) =>
      if m.ready && HandlerOf(call).Some? then m.(st := exec(HandlerOf(call).value, args, m.st).1) else m
  }

  /** What the caller learns: the handler's return value, or nothing when the call is not serviced. */
  function Reply<S, A>(exec: (Handler, A, S) -> (int, S), m: Machine<S>, cmd: Command<A>): Option<int> {
    match cmd
    case Init => None
    case Invoke(call, args) =>
      if m.ready && HandlerOf(call).Some? then Some(exec(HandlerOf(call).value, args, m.st).0) else None
  }

  class RetCell {
    var value: int
    constructor (v: int)
      ensures value == v
    {
      value := v;
    }
  }

  /**
   The static table and its count, over a machine whose handlers act on a state S.
   `exec` is what a handler does; `storInit` is dev_stor_init.
   */
  class Dispatcher<S, A> {
    const exec: (Handler, A, S) -> (int, S)
    const storInit: S -> S
    var callsTable: seq<Option<Handler>>
    var callsNo: int
    var st: S

    ghost predicate Valid()
      reads this
    {
      && |callsTable| == API_MAXCALL
      && (callsNo == 0 || callsNo == API_MAXCALL)
      && (callsNo == API_MAXCALL ==> FullTable(callsTable))
    }

    function Now(): Machine<S>
      reads this
    {
      Machine(callsNo != 0, st)
    }

    constructor (exec: (Handler, A, S) -> (int, S), storInit: S -> S, st: S)
      ensures Valid() && Now() == Machine(false, st)
      ensures this.exec == exec && this.storInit == storInit
    {
      this.exec, this.storInit, this.st := exec, storInit, st;
      callsTable := seq(API_MAXCALL, _ => None);
      callsNo := 0;
    }

    method ApiInit()
      requires Valid()
      modifies this
      ensures Valid() && Now() == StepCommand(exec, storInit, old(Now()), Init)
    {
      var t := callsTable;
      t := t[API_RSVD := None];
      t := t[1 := Some(Getc)];
      t := t[2 := Some(Putc)];
      t := t[3 := Some(Tstc)];
      t := t[4 := Some(Puts)];
      t := t[5 := Some(Reset)];
      t := t[6 := Some(GetSysInfo)];
      t := t[7 := Some(Udelay)];
      t := t[8 := Some(GetTimer)];
      t := t[9 := Some(DevEnum)];
      t := t[10 := Some(DevOpen)];
      t := t[11 := Some(DevClose)];
      t := t[12 := Some(DevRead)];
      t := t[13 := Some(DevWrite)];
      t := t[15 := Some(EnvGet)];
      t := t[16 := Some(EnvSet)];
      t := t[14 := Some(EnvEnum)];
      FilledByNumber(t);
      callsTable, callsNo := t, API_MAXCALL;
      st := storInit(st);
    }

    /** Returns 1 when the call was serviced; only then is `retval` written. */
    method Syscall(call: int, retval: RetCell?, args: A) returns (served: int)
      requires Valid()
      modifies this`st, retval
      ensures Valid()
      ensures Now() == StepCommand(exec, storInit, old(Now()), Invoke(call, args))
      ensures var reply := Reply(exec, old(Now()), Invoke(call, args));
              && served == (if reply.Some? then 1 else 0)
              && (retval != null ==> retval.value == if reply.Some? then reply.value else old(retval.value))
    {
      if call < 0 || call >= callsNo {
        return 0;
      }
      if callsTable[call] == None {
        return 0;
      }
      var (rv, next) := exec(callsTable[call].value, args, st);
      st := next;
      if retval != null {
        retval.value := rv;
      }
      return 1;
    }
  }

  // ----- Runs

  /** What a run of commands does to the machine, command by command. */
  function RunCommands<S, A>(exec: (Handler, A, S) -> (int, S), storInit: S -> S,
                             m: Machine<S>, cmds: seq<Command<A>>): Machine<S>
  {
    if cmds == [] then m
    else
      var before := RunCommands(exec, storInit, m, cmds[..|cmds| - 1]);
      StepCommand(exec, storInit, before, cmds[|cmds| - 1])
  }

  /** What the callers of a run learn, call by call. */
  function Replies<S, A>(exec: (Handler, A, S) -> (int, S), storInit: S -> S,
                         m: Machine<S>, cmds: seq<Command<A>>): seq<Option<int>>
  {
    if cmds == [] then []
    else
      var before := cmds[..|cmds| - 1];
      Replies(exec, storInit, m, before) + [Reply(exec, RunCommands(exec, storInit, m, before), cmds[|cmds| - 1])]
  }

  function Values(replies: seq<Option<int>>): seq<int> {
    if replies == [] then []
    else
      Values(replies[..|replies| - 1]) + Shown(replies[|replies| - 1])
  }

  /** Carrying out a list of actions directly, with no dispatcher: the results of the handlers, and the state. */
  function RunActions<S, A>(exec: (Handler, A, S) -> (int, S), storInit: S -> S, st: S, acts: seq<Action<A>>): (seq<int>, S) {
    if acts == [] then ([], st)
    else
      var (results, before) := RunActions(exec, storInit, st, acts[..|acts| - 1]);
      match acts[|acts| - 1]
      case StorInit => (results, storInit(before))
      case Handle(h, args) => (results + [exec(h, args, before).0], exec(h, args, before).1)
  }

  /** The index of the first Init. */
  function FirstInit<A>(cmds: seq<Command<A>>): (k: nat)
    ensures k <= |cmds|
    ensures forall j | 0 <= j < k :: cmds[j] != Init
    ensures k < |cmds| ==> cmds[k] == Init
  {
    if cmds == [] || cmds[0] == Init then 0 else 1 + FirstInit(cmds[1..])
  }

  function ActionOf<A>(cmd: Command<A>): seq<Action<A>> {
    match cmd
    case Init => [StorInit]
    case Invoke(call, args) => if HandlerOf(call).Some? then [Handle(HandlerOf(call).value, args)] else []
  }

  function Translated<A>(cmds: seq<Command<A>>): seq<Action<A>> {
    if cmds == [] then [] else Translated(cmds[..|cmds| - 1]) + ActionOf(cmds[|cmds| - 1])
  }

  /** Drop everything before the first Init and translate the rest, call by call. */
  function Actions<A>(cmds: seq<Command<A>>): seq<Action<A>> {
    Translated(cmds[FirstInit(cmds)..])
  }

  lemma FirstInitIs<A>(cmds: seq<Command<A>>, k: nat)
    requires k <= |cmds| && (forall j | 0 <= j < k :: cmds[j] != Init) && (k < |cmds| ==> cmds[k] == Init)
    ensures FirstInit(cmds) == k
  {
  }

  lemma ActionsSnoc<A>(before: seq<Command<A>>, last: Command<A>)
    ensures Actions(before + [last]) ==
            if Init in before || last == Init then Actions(before) + ActionOf(last) else []
  {
    var cmds, f := before + [last], FirstInit(before);
    if f < |before| {
      FirstInitIs(cmds, f);
      var rest := cmds[f..];
      assert rest == before[f..] + [last] && rest[..|rest| - 1] == before[f..];
    } else if last == Init {
      FirstInitIs(cmds, f);
      assert cmds[f..] == [last] && [last][..0] == [] && before[f..] == [];
      assert Translated([last]) == Translated([]) + ActionOf(last);
    } else {
      FirstInitIs(cmds, |cmds|);
      assert cmds[|cmds|..] == [];
    }
  }

  function Shown(reply: Option<int>): seq<int> {
    if reply.Some? then [reply.value] else []
  }

  /** The actions of one more command, on a machine that is up. */
  lemma RunOneMore<S, A>(exec: (Handler, A, S) -> (int, S), storInit: S -> S, st: S,
                         acts: seq<Action<A>>, last: Command<A>)
    ensures var (results, before) := RunActions(exec, storInit, st, acts);
            RunActions(exec, storInit, st, acts + ActionOf(last)) ==
            (results + Shown(Reply(exec, Machine(true, before), last)),
             StepCommand(exec, storInit, Machine(true, before), last).st)
  {
    var results := RunActions(exec, storInit, st, acts).0;
    assert results + [] == results;
    if ActionOf(last) == [] {
      assert acts + ActionOf(last) == acts;
    } else {
      var act := ActionOf(last)[0];
      assert acts + ActionOf(last) == acts + [act] && (acts + [act])[..|acts|] == acts;
    }
  }

  /**
   The dispatched run and the direct one agree: the machine is up once there was an Init,
   and the state and the return values, in order, are those of the actions.
   */
  ghost predicate Refined<S, A>(exec: (Handler, A, S) -> (int, S), storInit: S -> S, st: S, cmds: seq<Command<A>>) {
    var m := RunCommands(exec, storInit, Machine(false, st), cmds);
    && (m.ready <==> Init in cmds)
    && (Values(Replies(exec, storInit, Machine(false, st), cmds)), m.st)
       == RunActions(exec, storInit, st, Actions(cmds))
  }

  /** A run of syscalls is the run of the handlers it names, from the first api_init on. */
  lemma {:induction false} RunRefinesHandlers<S, A>(exec: (Handler, A, S) -> (int, S), storInit: S -> S,
                                                    st: S, cmds: seq<Command<A>>)
    ensures Refined(exec, storInit, st, cmds)
  {
    if cmds == [] {
    } else {
      var before, last := cmds[..|cmds| - 1], cmds[|cmds| - 1];
      assert cmds == before + [last];
      RunRefinesHandlers(exec, storInit, st, before);
      RefinedStep(exec, storInit, st, before, last);
    }
  }

  lemma RefinedStep<S, A>(exec: (Handler, A, S) -> (int, S), storInit: S -> S,
                          st: S, before: seq<Command<A>>, last: Command<A>)
    requires Refined(exec, storInit, st, before)
    ensures Refined(exec, storInit, st, before + [last])
  {
    var start := Machine(false, st);
    var m := RunCommands(exec, storInit, start, before);
    assert (before + [last])[..|before|] == before;
    var reply := Reply(exec, m, last);
    ValuesSnoc(Replies(exec, storInit, start, before), reply);
    ActionsSnoc(before, last);
    if m.ready {
      RunOneMore(exec, storInit, st, Actions(before), last);
    } else {
      NoActions(before);
      if last == Init {
        RunOneMore(exec, storInit, st, [], last);
        assert [] + ActionOf(last) == ActionOf<A>(last);
      }
    }
  }

  lemma ValuesSnoc(replies: seq<Option<int>>, last: Option<int>)
    ensures Values(replies + [last]) == Values(replies) + Shown(last)
  {
    assert (replies + [last])[..|replies|] == replies;
  }

  lemma NoActions<A>(cmds: seq<Command<A>>)
    requires Init !in cmds
    ensures Actions(cmds) == []
  {
    FirstInitIs(cmds, |cmds|);
  }

  /** A call is serviced exactly when it names a handler and api_init came before it. */
  lemma {:induction false} ServedIff<S, A>(exec: (Handler, A, S) -> (int, S), storInit: S -> S,
                                           st: S, cmds: seq<Command<A>>, k: nat)
    requires k < |cmds|
    ensures var replies := Replies(exec, storInit, Machine(false, st), cmds);
            && |replies| == |cmds|
            && (replies[k].Some? <==> cmds[k].Invoke? && HandlerOf(cmds[k].call).Some? && Init in cmds[..k])
  {
    var before, last := cmds[..|cmds| - 1], cmds[|cmds| - 1];
    RepliesLength(exec, storInit, Machine(false, st), before);
    if k == |before| {
      RunRefinesHandlers(exec, storInit, st, before);
    } else {
      ServedIff(exec, storInit, st, before, k);
      assert before[..k] == cmds[..k] && before[k] == cmds[k];
    }
  }

  lemma {:induction false} RepliesLength<S, A>(exec: (Handler, A, S) -> (int, S), storInit: S -> S,
                                               m: Machine<S>, cmds: seq<Command<A>>)
    ensures |Replies(exec, storInit, m, cmds)| == |cmds|
  {
    if cmds == [] {
    } else {
      RepliesLength(exec, storInit, m, cmds[..|cmds| - 1]);
    }
  }

  /** Before api_init nothing happens, whatever is called. */
  lemma NothingBeforeInit<S, A>(exec: (Handler, A, S) -> (int, S), storInit: S -> S, st: S, cmds: seq<Command<A>>)
    requires Init !in cmds
    ensures RunCommands(exec, storInit, Machine(false, st), cmds) == Machine(false, st)
    ensures Values(Replies(exec, storInit, Machine(false, st), cmds)) == []
  {
    RunRefinesHandlers(exec, storInit, st, cmds);
    NoActions(cmds);
  }
}
