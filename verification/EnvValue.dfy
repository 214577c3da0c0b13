/**
 The environment as a value: the memory and the list it holds, with setenv as a
 function on both. EnvBlock's SetEnv is proved to compute it.
 */
module EnvValue {
  import opened EnvFormat
  import opened EnvSet
  import opened EnvBlock

  datatype Env = Env(mem: string, vs: seq<Var>)

  /** The block of `room` cells holds the list. */
  ghost predicate SoundEnv(e: Env, room: nat) {
    Holds(e.mem, e.vs) && |Image(e.vs)| <= room <= |e.mem|
  }

  function SetIn(policy: Policy, e: Env, name: string, value: string, room: nat): Env {
    var vs := SetList(policy, e.vs, name, value, room);
    Env(Overwritten(e.mem, vs), vs)
  }

  lemma RemoveFits(vs: seq<Var>, name: string)
    requires GoodList(vs)
    ensures GoodList(Remove(vs, name)) && |Image(Remove(vs, name))| <= |Image(vs)|
  {
    var at := IndexOf(vs, name);
    if at < |vs| {
      GoodParts(vs, at);
      CutShrinks(vs, at);
    }
  }

  lemma SetFits(policy: Policy, vs: seq<Var>, name: string, value: string, room: nat)
    requires GoodList(vs) && |Image(vs)| <= room && NUL !in name && NUL !in value
    ensures var now := SetList(policy, vs, name, value, room); GoodList(now) && |Image(now)| <= room
  {
    RemoveFits(vs, name);
    if !Refused(policy, name, value, Defines(vs, name)) && value != "" && !TooBig(vs, name, value, room) {
      GoodMore(Remove(vs, name), Var(name, value));
      AppendGrows(Remove(vs, name), Var(name, value));
    }
  }

  /** setenv keeps the block sound: the new image lies in its room. */
  lemma SetSound(policy: Policy, e: Env, name: string, value: string, room: nat)
    requires SoundEnv(e, room) && NUL !in name && NUL !in value
    ensures SoundEnv(SetIn(policy, e, name, value, room), room)
  {
    SetFits(policy, e.vs, name, value, room);
    OverwrittenHolds(e.mem, SetList(policy, e.vs, name, value, room));
  }

  lemma OverwrittenHolds(mem: string, vs: seq<Var>)
    requires GoodList(vs) && |Image(vs)| <= |mem|
    ensures Holds(Overwritten(mem, vs), vs) && |Overwritten(mem, vs)| == |mem|
  {
  }
}
