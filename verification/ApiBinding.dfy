/**
 The machine's handlers are the functions of the API: each call, made on the interface
 ring, the storage back end, the environment block and the caller's descriptor or cell,
 leaves them as the machine's step says.
 */
module ApiBinding {
  import opened ApiPublic
  import opened EnvFormat
  import opened EnvApi
  import opened Storage
  import opened Sweep
  import opened Network
  import opened ApiMachine
  import Devices
  import Syscall

  /** The objects are in the state s of the machine. */
  ghost predicate Mirrors(board: Board, s: Api, ring: Ring, stor: Backend)
    reads ring, ring.env.mem, stor
  {
    && ring.Valid() && stor.Valid() && ring.Carries(s.env)
    && board.groups == stor.groups && board.ifs == ring.ifs && board.names == ring.names
    && board.room == ring.env.envSize && board.size == ring.env.ScanSize()
    && s.current == ring.current && s.flags == stor.Now()
  }

  /** The descriptor at this address, NULL included. */
  ghost predicate MirrorsDesc(s: Api, at: nat, di: DeviceInfo?)
    reads di
  {
    di != null ==> di.Value() == DescAt(s.descs, at)
  }

  function Address(at: nat, isNull: bool): Option<nat> {
    if isNull then None else Some(at)
  }

  lemma SameAnswers(board: Board, up: seq<bool>)
    requires |up| == |board.ifs|
    ensures Answers(board, up) == up
  {
  }

  method DevOpenBound(board: Board, ghost s: Api, ring: Ring, stor: Backend, ghost at: nat, di: DeviceInfo?, up: seq<bool>)
    returns (rc: int, ghost now: Api)
    requires Mirrors(board, s, ring, stor) && MirrorsDesc(s, at, di) && |up| == |ring.ifs|
    modifies ring, ring.env, ring.env.mem, di
    ensures (rc, now) == Perform(board, Syscall.DevOpen, OpenArgs(Address(at, di == null), up), s)
    ensures Mirrors(board, now, ring, stor) && MirrorsDesc(now, at, di)
  {
    SameAnswers(board, up);
    ghost var calls, e;
    rc, calls, e := Devices.ApiDevOpen(ring, board.policy, stor, di, up, s.env);
    now := Perform(board, Syscall.DevOpen, OpenArgs(Address(at, di == null), up), s).1;
  }

  method DevCloseBound(board: Board, ghost s: Api, ring: Ring, stor: Backend, ghost at: nat, di: DeviceInfo?)
    returns (rc: int, ghost now: Api)
    requires Mirrors(board, s, ring, stor) && MirrorsDesc(s, at, di)
    modifies di
    ensures (rc, now) == Perform(board, Syscall.DevClose, DescArg(Address(at, di == null)), s)
    ensures Mirrors(board, now, ring, stor) && MirrorsDesc(now, at, di)
  {
    ghost var calls;
    rc, calls := Devices.ApiDevClose(ring, di);
    now := Perform(board, Syscall.DevClose, DescArg(Address(at, di == null)), s).1;
  }

  method DevEnumBound(board: Board, ghost s: Api, ring: Ring, stor: Backend, ghost at: nat, di: DeviceInfo?)
    returns (rc: int, ghost now: Api)
    requires Mirrors(board, s, ring, stor) && MirrorsDesc(s, at, di)
    modifies stor, di
    ensures (rc, now) == Perform(board, Syscall.DevEnum, DescArg(Address(at, di == null)), s)
    ensures Mirrors(board, now, ring, stor) && MirrorsDesc(now, at, di)
  {
    rc := ApiDevEnum(stor, ring.Cur(), di);
    now := Perform(board, Syscall.DevEnum, DescArg(Address(at, di == null)), s).1;
  }

  method EnvSetBound(board: Board, ghost s: Api, ring: Ring, stor: Backend, key: Option<string>, text: Option<string>)
    returns (rc: int, ghost now: Api)
    requires Mirrors(board, s, ring, stor)
    requires (key.Some? ==> NUL !in key.value) && (text.Some? ==> NUL !in text.value)
    modifies ring.env, ring.env.mem
    ensures (rc, now) == Perform(board, Syscall.EnvSet, SetArgs(key, text), s)
    ensures Mirrors(board, now, ring, stor)
  {
    rc := ring.env.ApiEnvSet(board.policy, key, text, s.env.vs);
    now := Perform(board, Syscall.EnvSet, SetArgs(key, text), s).1;
  }

  method EnvGetBound(board: Board, ghost s: Api, ring: Ring, stor: Backend, name: Option<string>, ghost at: nat, cell: PtrCell?)
    returns (rc: int, ghost now: Api)
    requires Mirrors(board, s, ring, stor) && (cell != null ==> cell.p == CellAt(s.cells, at))
    modifies cell
    ensures (rc, now) == Perform(board, Syscall.EnvGet, GetArgs(name, Address(at, cell == null)), s)
    ensures Mirrors(board, now, ring, stor) && (cell != null ==> cell.p == CellAt(now.cells, at))
  {
    rc := ring.env.ApiEnvGet(name, cell, s.env.vs);
    now := Perform(board, Syscall.EnvGet, GetArgs(name, Address(at, cell == null)), s).1;
  }

  method EnvEnumBound(board: Board, ghost s: Api, ring: Ring, stor: Backend, last: Ptr, ghost at: nat, cell: PtrCell?)
    returns (rc: int, ghost now: Api)
    requires Mirrors(board, s, ring, stor) && (cell != null ==> cell.p == CellAt(s.cells, at))
    modifies cell
    ensures (rc, now) == Perform(board, Syscall.EnvEnum, EnumArgs(last, Address(at, cell == null)), s)
    ensures Mirrors(board, now, ring, stor) && (cell != null ==> cell.p == CellAt(now.cells, at))
  {
    rc := ring.env.ApiEnvEnum(last, cell, s.env.vs);
    now := Perform(board, Syscall.EnvEnum, EnumArgs(last, Address(at, cell == null)), s).1;
  }
}
