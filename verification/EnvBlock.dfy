/**
 The environment block as one object: the cells, the stored checksum and the
 change counter, with setenv (common/cmd_nvedit.c) and the calls API_env_set and
 API_env_get that reach it (api/api.c).
 */
module EnvBlock {
  import opened EnvFormat
  import opened EnvScan
  import opened EnvList
  import opened EnvApi
  import opened EnvSet
  import opened ApiPublic

  /** Answers of code outside this model: console assignment and the table of baud rates. */
  datatype Policy = Policy(consoleAccepts: (string, string) -> bool, baudSupported: string -> bool)

  predicate IsConsole(name: string) {
    name == "stdin" || name == "stdout" || name == "stderr"
  }

  predicate IsWriteOnce(name: string) {
    name == "serial#" || name == "ethaddr"
  }

  /** The cases in which setenv gives up before it touches the block. */
  predicate Refused(policy: Policy, name: string, value: string, defined: bool) {
    || EQ in name
    || (IsConsole(name) && (value == "" || !policy.consoleAccepts(name, value)))
    || (defined && IsWriteOnce(name))
    || (defined && name == "baudrate" && !policy.baudSupported(value))
  }

  /**
   setenv refuses a name with an equals sign; to delete one of the three console variables or
   to give it a value that the console does not accept; to touch serial# or ethaddr once
   defined; an unsupported baud rate, if there was one before. Nothing else.
   */
  lemma RefusedByName(policy: Policy, name: string, value: string, defined: bool)
    ensures Refused(policy, name, value, defined) <==>
            || '=' in name
            || (name in {"stdin", "stdout", "stderr"} && (value == "" || !policy.consoleAccepts(name, value)))
            || (name in {"serial#", "ethaddr"} && defined)
            || (name == "baudrate" && defined && !policy.baudSupported(value))
  {
  }

  predicate Defines(vs: seq<Var>, name: string) {
    IndexOf(vs, name) < |vs|
  }

  lemma DefinesIsHit(vs: seq<Var>, name: string)
    ensures Defines(vs, name) <==> ListFind(vs, name).Hit?
    ensures !Defines(vs, name) ==> ListFind(vs, name) == Miss && Remove(vs, name) == vs
  {
  }

  /** The new definition would not fit once the old one is gone. */
  predicate TooBig(vs: seq<Var>, name: string, value: string, room: nat) {
    value != "" && Overflows(Remove(vs, name), name, value, room)
  }

  function Edited(vs: seq<Var>, name: string, value: string, room: nat): seq<Var> {
    if value == "" || TooBig(vs, name, value, room) then Remove(vs, name)
    else Remove(vs, name) + [Var(name, value)]
  }

  /** The list of variables after setenv. */
  function SetList(policy: Policy, vs: seq<Var>, name: string, value: string, room: nat): seq<Var> {
    if Refused(policy, name, value, Defines(vs, name)) then vs else Edited(vs, name, value, room)
  }

  class EnvBlock {
    const mem: array<char>
    const envSize: nat           // ENV_SIZE
    const header: nat            // ENV_HEADER_SIZE
    const crcOf: string -> nat   // crc32 over the data part
    var crc: nat
    var envId: int

    ghost predicate Holding(vs: seq<Var>)
      reads mem
    {
      && envSize <= mem.Length
      && Holds(mem[..], vs) && |Image(vs)| <= envSize
    }

    constructor (cells: array<char>, envSize: nat, header: nat, crcOf: string -> nat, crc: nat)
      ensures mem == cells && this.envSize == envSize && this.header == header
      ensures this.crcOf == crcOf && this.crc == crc && envId == 1
    {
      mem, this.envSize, this.header, this.crcOf, this.crc := cells, envSize, header, crcOf, crc;
      envId := 1;
    }

    method UpdateCrc()
      requires envSize <= mem.Length
      modifies `crc
      ensures crc == crcOf(mem[..envSize])
    {
      crc := crcOf(mem[..envSize]);
    }

    method EntryEnd(i: nat) returns (nxt: nat)
      requires i <= mem.Length && StrEnd(mem[..], i) < mem.Length
      ensures nxt == StrEnd(mem[..], i)
    {
      nxt := i;
      while mem[nxt] != NUL
        invariant i <= nxt <= StrEnd(mem[..], i)
        decreases mem.Length - nxt
      {
        nxt := nxt + 1;
      }
    }

    /** setenv's own search: no size test, since the block is known to be closed. */
    method SearchVar(s: string) returns (oldval: int, env: nat, nxt: nat)
      requires Readable(mem[..], mem.Length) && !Find(mem[..], mem.Length, s, 0).Lost?
      ensures oldval < 0 ==> Find(mem[..], mem.Length, s, 0) == Miss
      ensures oldval >= 0 ==> Find(mem[..], mem.Length, s, 0) == Hit(env, nxt, oldval)
    {
      ghost var m := mem[..];
      env, nxt := 0, 0;
      ReachedInside(m, |m|, s, env);
      while mem[env] != NUL
        invariant m == mem[..] && env < mem.Length
        invariant Reached(m, |m|, s, env)
        invariant Find(m, |m|, s, env) == Find(m, |m|, s, 0)
        decreases mem.Length - env
      {
        StepReached(m, |m|, s, env);
        nxt := EntryEnd(env);
        var r := EnvMatch(s, mem, env);
        if r != Mismatch {
          return r.at, env, nxt;
        }
        ReachedInside(m, |m|, s, nxt + 1);
        env := nxt + 1;
      }
      return -1, env, nxt;
    }

    method FindVar(name: string, ghost vs: seq<Var>) returns (oldval: int, env: nat, nxt: nat)
      requires Holding(vs) && NUL !in name && EQ !in name
      ensures oldval < 0 ==> ListFind(vs, name) == Miss
      ensures oldval >= 0 ==> ListFind(vs, name) == Hit(env, nxt, oldval)
    {
      Prepared(mem[..], vs, name);
      NotLost(vs, name);
      oldval, env, nxt := SearchVar(name + [NUL]);
    }

    /** setenv(name, value); an empty value deletes. `vs` is the list the block holds. */
    method SetEnv(policy: Policy, name: string, value: string, ghost vs: seq<Var>) returns (rc: int)
      requires Holding(vs) && NUL !in name && NUL !in value
      modifies this, mem
      ensures Holding(SetList(policy, vs, name, value, envSize))
      ensures mem[..] == Overwritten(old(mem[..]), SetList(policy, vs, name, value, envSize))
      ensures rc == if Refused(policy, name, value, Defines(vs, name)) || TooBig(vs, name, value, envSize) then 1 else 0
      ensures rc == 1 && (Refused(policy, name, value, Defines(vs, name)) || !Defines(vs, name)) ==> mem[..] == old(mem[..])
      ensures || '=' in name
              || (name in {"stdin", "stdout", "stderr"} && (value == "" || !policy.consoleAccepts(name, value)))
              || (name in {"serial#", "ethaddr"} && Defines(vs, name))
              || (name == "baudrate" && Defines(vs, name) && !policy.baudSupported(value)) ==>
                rc == 1 && mem[..] == old(mem[..]) && crc == old(crc)
      ensures crc == if rc == 0 then crcOf(mem[..envSize]) else old(crc)
      ensures envId == if EQ in name then old(envId) else old(envId) + 1
      ensures forall x | envSize <= x < mem.Length :: mem[x] == old(mem[x])
    {
      SparedIsOverwritten(mem[..], mem[..], vs);
      RefusedByName(policy, name, value, Defines(vs, name));
      if EQ in name {
        return 1;
      }
      envId := envId + 1;
      var oldval, env, nxt := FindVar(name, vs);
      DefinesIsHit(vs, name);
      if IsConsole(name) && (value == "" || !policy.consoleAccepts(name, value)) {
        return 1;
      }
      if oldval >= 0 && IsWriteOnce(name) {
        return 1;
      }
      if oldval >= 0 && name == "baudrate" && !policy.baudSupported(value) {
        return 1;
      }
      rc := Replace(name, value, oldval, env, nxt, vs);
    }

    /** The edit itself: take the old definition out, put the new one at the end. */
    method Replace(name: string, value: string, oldval: int, env: nat, nxt: nat, ghost vs: seq<Var>) returns (rc: int)
      requires Holding(vs) && GoodVar(Var(name, value))
      requires oldval < 0 ==> ListFind(vs, name) == Miss
      requires oldval >= 0 ==> ListFind(vs, name) == Hit(env, nxt, oldval)
      modifies `crc, mem
      ensures Holding(Edited(vs, name, value, envSize))
      ensures rc == if TooBig(vs, name, value, envSize) then 1 else 0
      ensures rc == 1 && oldval < 0 ==> mem[..] == old(mem[..])
      ensures mem[..] == Overwritten(old(mem[..]), Edited(vs, name, value, envSize))
      ensures crc == if rc == 0 then crcOf(mem[..envSize]) else old(crc)
    {
      ghost var rest, m := Remove(vs, name), mem[..];
      RemoveOld(name, oldval, env, nxt, vs);
      ghost var cut := mem[..];
      if value == "" {
        SparedIsOverwritten(mem[..], m, rest);
        UpdateCrc();
        return 0;
      }
      rc := Append(name, value, rest);
      if rc == 0 {
        SparedTwice(mem[..], cut, m, rest, Var(name, value));
        SparedIsOverwritten(mem[..], m, rest + [Var(name, value)]);
        UpdateCrc();
      } else {
        SparedIsOverwritten(mem[..], m, rest);
      }
    }

    /** Delete any existing definition. */
    method RemoveOld(ghost name: string, oldval: int, env: nat, nxt: nat, ghost vs: seq<Var>)
      requires Holding(vs)
      requires oldval < 0 ==> ListFind(vs, name) == Miss
      requires oldval >= 0 ==> ListFind(vs, name) == Hit(env, nxt, oldval)
      modifies mem
      ensures Holding(Remove(vs, name))
      ensures oldval < 0 ==> mem[..] == old(mem[..])
      ensures Spared(mem[..], old(mem[..]), Remove(vs, name))
    {
      DefinesIsHit(vs, name);
      if oldval < 0 {
        return;
      }
      ghost var m, rest := mem[..], Remove(vs, name);
      ghost var at, t := ReadyToRemove(m, vs, name, env, nxt);
      DeleteEntry(mem, env, nxt, t);
      CutIsRemoved(mem[..], m, vs, rest, at, env, nxt, t);
    }

    method Append(name: string, value: string, ghost vs: seq<Var>) returns (rc: int)
      requires Holding(vs) && GoodVar(Var(name, value))
      modifies mem
      ensures rc == if Overflows(vs, name, value, envSize) then 1 else 0
      ensures Holding(if rc == 1 then vs else vs + [Var(name, value)])
      ensures rc == 1 ==> mem[..] == old(mem[..])
      ensures Spared(mem[..], old(mem[..]), vs + [Var(name, value)])
    {
      ghost var m := mem[..];
      ghost var t := Offset(vs, |vs|);
      Closed(m, vs);
      var env := EndOfBlock(mem, t);
      var len := |name| + 2 + |value| + 1;
      if len > envSize - env {
        return 1;
      }
      AppendEntry(mem, env, name, value);
      AppendHolds(mem[..], m, vs, Var(name, value), t);
      AppendGrows(vs, Var(name, value));
      return 0;
    }

    /** API_env_set: the verdict of setenv is not passed on. */
    method ApiEnvSet(policy: Policy, name: Option<string>, value: Option<string>, ghost vs: seq<Var>) returns (rc: int)
      requires Holding(vs)
      requires name.Some? ==> NUL !in name.value
      requires value.Some? ==> NUL !in value.value
      modifies this, mem
      ensures name == None || value == None ==>
                rc == API_EINVAL && mem[..] == old(mem[..]) && crc == old(crc) && envId == old(envId)
      ensures name.Some? && value.Some? ==>
                var defined := Defines(vs, name.value);
                var failed := Refused(policy, name.value, value.value, defined)
                              || TooBig(vs, name.value, value.value, envSize);
                && rc == 0 && Holding(SetList(policy, vs, name.value, value.value, envSize))
                && mem[..] == Overwritten(old(mem[..]), SetList(policy, vs, name.value, value.value, envSize))
                && crc == (if failed then old(crc) else crcOf(mem[..envSize]))
                && envId == (if EQ in name.value then old(envId) else old(envId) + 1)
                && (failed && (Refused(policy, name.value, value.value, defined) || !defined) ==> mem[..] == old(mem[..]))
      ensures forall x | envSize <= x < mem.Length :: mem[x] == old(mem[x])
    {
      if name == None || value == None {
        return API_EINVAL;
      }
      var ignored := SetEnv(policy, name.value, value.value, vs);
      return 0;
    }

    /** CONFIG_ENV_SIZE, the bound the scans use: the data part and its header. */
    function ScanSize(): nat {
      envSize + header
    }

    /** API_env_get */
    method ApiEnvGet(name: Option<string>, value: PtrCell?, ghost vs: seq<Var>) returns (rc: int)
      requires Holding(vs)
      modifies value
      ensures rc == if name == None || value == null then API_EINVAL else 0
      ensures rc == 0 ==> value.p == GetResult(mem[..], ScanSize(), name.value + [NUL])
      ensures rc != 0 && value != null ==> value.p == old(value.p)
    {
      if name == None || value == null {
        return API_EINVAL;
      }
      FittingIsStored(mem[..], ScanSize(), vs, envSize);
      value.p := GetEnv(mem, ScanSize(), name.value + [NUL]);
      return 0;
    }

    /** API_env_enum */
    method ApiEnvEnum(last: Ptr, next: PtrCell?, ghost vs: seq<Var>) returns (rc: int)
      requires Holding(vs)
      modifies next
      ensures rc == if next == null then API_EINVAL else 0
      ensures next != null ==> next.p == EnumResult(mem[..], ScanSize(), last)
    {
      FittingIsStored(mem[..], ScanSize(), vs, envSize);
      rc := EnvEnum(mem, ScanSize(), last, next);
    }
  }
}
