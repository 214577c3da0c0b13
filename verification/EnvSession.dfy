/**
 A whole session of an application on the block in memory: any number of API_env_set
 calls, and then the enumeration with API_env_enum.
 */
module EnvSession {
  import opened ApiPublic
  import opened EnvFormat
  import opened EnvScan
  import opened EnvList
  import opened EnvApi
  import opened EnvRun
  import opened EnvBlock
  import opened EnvHistory

  predicate GoodOps(ops: seq<Op>) {
    forall k | 0 <= k < |ops| :: NUL !in ops[k].name && NUL !in ops[k].value
  }

  /** One call of API_env_set. */
  method SetOne(block: EnvBlock, policy: Policy, op: Op, ghost vs: seq<Var>)
    requires block.Holding(vs) && NUL !in op.name && NUL !in op.value
    modifies block, block.mem
    ensures block.Holding(SetList(policy, vs, op.name, op.value, block.envSize))
  {
    var rc := block.ApiEnvSet(policy, Some(op.name), Some(op.value), vs);
  }

  lemma OneMoreOp(policy: Policy, vs: seq<Var>, ops: seq<Op>, i: nat, room: nat)
    requires i < |ops|
    ensures RunSets(policy, vs, ops[..i + 1], room) ==
            SetList(policy, RunSets(policy, vs, ops[..i], room), ops[i].name, ops[i].value, room)
  {
    assert ops[..i + 1][..i] == ops[..i];
  }

  /** The calls of API_env_set, one after the other. */
  method SetAll(block: EnvBlock, policy: Policy, ops: seq<Op>, ghost vs: seq<Var>)
    requires block.Holding(vs) && GoodOps(ops)
    modifies block, block.mem
    ensures block.Holding(RunSets(policy, vs, ops, block.envSize))
  {
    ghost var now := vs;
    for i := 0 to |ops|
      invariant block.Holding(now) && now == RunSets(policy, vs, ops[..i], block.envSize)
    {
      SetOne(block, policy, ops[i], now);
      OneMoreOp(policy, vs, ops, i, block.envSize);
      now := SetList(policy, now, ops[i].name, ops[i].value, block.envSize);
    }
    assert ops[..|ops|] == ops;
  }

  /** Read the variable at the current address and ask for the next one. */
  method TakeVar(block: EnvBlock, cell: PtrCell, ghost vs: seq<Var>, ghost k: nat) returns (v: Var)
    requires block.Holding(vs) && Distinct(vs)
    requires k < |vs| && cell.p == Place(vs, k)
    modifies cell
    ensures v == vs[k] && cell.p == Place(vs, k + 1)
  {
    NextPlace(block.mem[..], block.ScanSize(), vs, block.envSize, k);
    v := VarAt(block.mem[..], cell.p.off);
    var rc := block.ApiEnvEnum(cell.p, cell, vs);
  }

  /** The loop over API_env_enum from NULL, reading the variable at each address. */
  method EnumerateAll(block: EnvBlock, ghost vs: seq<Var>) returns (out: seq<Var>)
    requires block.Holding(vs) && vs != [] && Distinct(vs)
    ensures out == vs
  {
    out := [];
    var cell := new PtrCell(Null);
    var rc := block.ApiEnvEnum(Null, cell, vs);
    while cell.p != Null
      invariant |out| <= |vs| && out == vs[..|out|]
      invariant cell.p == Place(vs, |out|)
      decreases |vs| - |out|
    {
      var v := TakeVar(block, cell, vs, |out|);
      out := out + [v];
    }
  }

  /**
   Whatever is set on an environment with distinct names, the enumeration that follows
   lists what the calls have made of it, and ends, unless the environment has become
   empty; then `endless` is returned, since the loop would not stop.
   */
  method Session(block: EnvBlock, policy: Policy, ops: seq<Op>, ghost vs: seq<Var>)
    returns (out: seq<Var>, endless: bool)
    requires block.Holding(vs) && GoodOps(ops) && Distinct(vs)
    modifies block, block.mem
    ensures block.Holding(RunSets(policy, vs, ops, block.envSize))
    ensures out == RunSets(policy, vs, ops, block.envSize)
    ensures endless <==> !ReachesNull(block.mem[..], block.ScanSize())
  {
    SetAll(block, policy, ops, vs);
    ghost var now := RunSets(policy, vs, ops, block.envSize);
    HistoryEnumerates(policy, vs, ops, block.envSize, block.mem[..], block.ScanSize());
    RunKeepsDistinct(policy, vs, ops, block.envSize);
    EmptyShows(block.mem[..], now);
    endless := block.mem[0] == NUL;
    out := [];
    if !endless {
      out := EnumerateAll(block, now);
    }
  }

  lemma EmptyShows(mem: string, vs: seq<Var>)
    requires Holds(mem, vs)
    ensures |mem| > 0 && (mem[0] == NUL <==> vs == [])
  {
    HoldsIsLaid(mem, vs);
    if vs != [] {
      assert EntryAt(mem, vs, 0);
    }
  }
}
