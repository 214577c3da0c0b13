/**
 The consumer side (examples/api/glue.c, examples/api/demo.c): ub_env_enum keeps
 only the name of the current variable, in a static buffer of 256 cells that the
 application passes back, and the demo lists every variable with its value.
 */
module EnvGlue {
  import opened ApiPublic
  import opened EnvFormat
  import opened EnvScan
  import opened EnvList
  import opened EnvApi
  import opened EnvRun
  import opened EnvSet
  import opened EnvBlock
  import opened EnvHistory

  const NAME_CELLS := 256

  /** What the application passes as `last`: NULL, the static buffer, or a string of its own. */
  datatype LastArg = NoLast | Buffer | Own(text: string)

  /**
   The name ub_env_enum hands out next, None for NULL. When no variable has the last
   name, the buffer is cleared before it is read, so its own text is lost.
   */
  function GlueNext(vs: seq<Var>, last: Option<string>, buffered: bool): Option<string> {
    if last == None then Some(if vs == [] then "" else vs[0].name)
    else
      var at := IndexOf(vs, last.value);
      if at == |vs| then Some(if buffered then "" else last.value)
      else if at == |vs| - 1 then None
      else Some(vs[at + 1].name)
  }

  ghost predicate NamedFrom(mem: string, off: nat, name: string) {
    off <= |mem| && Terminated(mem[off..], 0) && NameAt(mem[off..], 0) == name
  }

  /** One API_env_enum call as the glue makes it. */
  lemma EnumNext(mem: string, size: nat, vs: seq<Var>, p: Ptr)
    requires Stored(mem, size, vs)
    requires p.Null? || (p.Foreign? && Terminated(p.text, 0))
    ensures var r := EnumResult(mem, size, p);
            if p.Null? then r == InEnv(0) && NamedFrom(mem, 0, if vs == [] then "" else vs[0].name)
            else
              var at := IndexOf(vs, NameAt(p.text, 0));
              if at == |vs| then r == p
              else if at == |vs| - 1 then r == Null
              else r == InEnv(Offset(vs, at + 1)) && NamedFrom(mem, Offset(vs, at + 1), vs[at + 1].name)
  {
    if p.Null? {
      FirstNamed(mem, size, vs);
    } else {
      NextOnList(mem, size, vs, p.text);
      var at := IndexOf(vs, NameAt(p.text, 0));
      if at + 1 < |vs| {
        EntryText(mem, vs, at + 1);
      }
    }
  }

  lemma FirstNamed(mem: string, size: nat, vs: seq<Var>)
    requires Stored(mem, size, vs)
    ensures NamedFrom(mem, 0, if vs == [] then "" else vs[0].name)
  {
    if vs == [] {
      NameEndIs(mem[0..], 0, 0);
    } else {
      EntryText(mem, vs, 0);
    }
  }

  function GlueIter(vs: seq<Var>, last: Option<string>, k: nat): Option<string> {
    if k == 0 then last else GlueNext(vs, GlueIter(vs, last, k - 1), true)
  }

  /**
   An application whose current variable is deleted under it never sees NULL again:
   the buffer is emptied, and the empty name matches nothing either.
   */
  lemma {:induction false} LostNameNeverEnds(vs: seq<Var>, name: string, k: nat)
    requires !Defines(vs, name) && !Defines(vs, "") && k > 0
    ensures GlueIter(vs, Some(name), k) == Some("")
  {
    if k == 1 {
      assert GlueIter(vs, Some(name), 0) == Some(name);
    } else {
      LostNameNeverEnds(vs, name, k - 1);
    }
  }

  /** The loop of an application that passes back what it is given sees NULL. */
  ghost predicate GlueEnds(vs: seq<Var>, last: Option<string>) {
    exists n: nat :: n > 0 && GlueIter(vs, last, n) == None
  }

  /** No entry after a repeats an earlier name. */
  ghost predicate FreshAfter(vs: seq<Var>, a: nat) {
    forall k | a < k < |vs| :: IndexOf(vs, vs[k].name) == k
  }

  lemma {:induction false} FreshEnds(vs: seq<Var>, last: Option<string>, n: nat, name: string)
    requires GlueIter(vs, last, n) == Some(name)
    requires Defines(vs, name) && FreshAfter(vs, IndexOf(vs, name))
    ensures GlueEnds(vs, last)
    decreases |vs| - IndexOf(vs, name)
  {
    var at := IndexOf(vs, name);
    assert GlueIter(vs, last, n + 1) == GlueNext(vs, Some(name), true);
    if at == |vs| - 1 {
    } else {
      var next := vs[at + 1].name;
      assert IndexOf(vs, next) == at + 1;
      FreshEnds(vs, last, n + 1, next);
    }
  }

  predicate StandsBelow(vs: seq<Var>, last: Option<string>, k: nat) {
    last.Some? && IndexOf(vs, last.value) < k
  }

  /** A caller below a repeated name never gets past it. */
  lemma {:induction false} StaysBelow(vs: seq<Var>, last: Option<string>, n: nat, m: nat, k: nat)
    requires n <= m && k < |vs| && IndexOf(vs, vs[k].name) < k
    requires StandsBelow(vs, GlueIter(vs, last, n), k)
    ensures StandsBelow(vs, GlueIter(vs, last, m), k)
  {
    if m == n {
    } else {
      StaysBelow(vs, last, n, m - 1, k);
      NextBelow(vs, GlueIter(vs, last, m - 1), k);
    }
  }

  lemma NextBelow(vs: seq<Var>, last: Option<string>, k: nat)
    requires k < |vs| && IndexOf(vs, vs[k].name) < k && StandsBelow(vs, last, k)
    ensures StandsBelow(vs, GlueNext(vs, last, true), k)
  {
    var at := IndexOf(vs, last.value);
    var next := NextName(vs, last.value, at);
    if at + 1 == k {
      assert next == vs[k].name;
    }
  }

  lemma NextName(vs: seq<Var>, name: string, at: nat) returns (next: string)
    requires at == IndexOf(vs, name) && at + 1 < |vs|
    ensures GlueNext(vs, Some(name), true) == Some(next)
    ensures next == vs[at + 1].name && IndexOf(vs, next) <= at + 1
  {
    next := vs[at + 1].name;
    IndexAtMost(vs, at + 1);
  }

  lemma IndexAtMost(vs: seq<Var>, k: nat)
    requires k < |vs|
    ensures IndexOf(vs, vs[k].name) <= k
  {
  }

  lemma StandingEndsIff(vs: seq<Var>, last: Option<string>, n: nat, name: string)
    requires GlueIter(vs, last, n) == Some(name) && Defines(vs, name)
    requires forall m: nat | 0 < m < n :: GlueIter(vs, last, m) != None
    ensures GlueEnds(vs, last) <==> FreshAfter(vs, IndexOf(vs, name))
  {
    var at := IndexOf(vs, name);
    if FreshAfter(vs, at) {
      FreshEnds(vs, last, n, name);
    } else {
      var k :| at < k < |vs| && IndexOf(vs, vs[k].name) != k;
      assert IndexOf(vs, vs[k].name) <= k;
      forall m: nat | m > 0 ensures GlueIter(vs, last, m) != None {
        if m >= n {
          StaysBelow(vs, last, n, m, k);
        }
      }
    }
  }

  /**
   When the loop of an application that holds `name` ends: the name, or failing it the
   empty name, must still be there, and no later entry may repeat a name.
   */
  lemma GlueEndsIff(vs: seq<Var>, name: string)
    ensures GlueEnds(vs, Some(name)) <==>
            var first := if Defines(vs, name) then name else "";
            Defines(vs, first) && FreshAfter(vs, IndexOf(vs, first))
  {
    assert GlueIter(vs, Some(name), 0) == Some(name);
    if Defines(vs, name) {
      StandingEndsIff(vs, Some(name), 0, name);
    } else if Defines(vs, "") {
      assert GlueIter(vs, Some(name), 1) == Some("");
      StandingEndsIff(vs, Some(name), 1, "");
    } else {
      forall m: nat | m > 0 ensures GlueIter(vs, Some(name), m) != None {
        LostNameNeverEnds(vs, name, m);
      }
    }
  }

  /** The loop from NULL ends exactly on a non-empty environment with distinct names. */
  lemma GlueFromNullIff(vs: seq<Var>)
    ensures GlueEnds(vs, None) <==> vs != [] && Distinct(vs)
  {
    assert GlueIter(vs, None, 0) == None;
    if vs == [] {
      forall m: nat | m > 0 ensures GlueIter(vs, None, m) == Some("") {
        EmptyNames(m);
      }
    } else {
      assert GlueIter(vs, None, 1) == Some(vs[0].name) && IndexOf(vs, vs[0].name) == 0;
      StandingEndsIff(vs, None, 1, vs[0].name);
      FreshIsDistinct(vs);
    }
  }

  lemma {:induction false} EmptyNames(m: nat)
    requires m > 0
    ensures GlueIter([], None, m) == Some("")
  {
    if m == 1 {
      assert GlueIter([], None, 0) == None;
    } else {
      EmptyNames(m - 1);
    }
  }

  lemma FreshIsDistinct(vs: seq<Var>)
    ensures FreshAfter(vs, 0) <==> Distinct(vs)
  {
    if FreshAfter(vs, 0) {
      forall a, b | 0 <= a < b < |vs| ensures vs[a].name != vs[b].name {
        assert IndexOf(vs, vs[b].name) == b;
      }
    }
    if Distinct(vs) {
      forall k | 0 < k < |vs| ensures IndexOf(vs, vs[k].name) == k {
        IndexOfDistinct(vs, k);
      }
    }
  }

  /** With distinct names only a lost name keeps the loop from ending. */
  lemma DistinctGlueEndsIff(vs: seq<Var>, name: string)
    requires Distinct(vs)
    ensures GlueEnds(vs, Some(name)) <==> Defines(vs, name) || Defines(vs, "")
  {
    GlueEndsIff(vs, name);
    FreshIsDistinct(vs);
  }

  /** Of a=1, b=2 the loop has just been given a, and a is deleted: without that it ends, with it it does not. */
  lemma DeletedUnderTheLoop()
    ensures var vs := [Var("a", "1"), Var("b", "2")];
            && GlueIter(vs, None, 1) == Some("a")
            && GlueEnds(vs, Some("a"))
            && !GlueEnds(Remove(vs, "a"), Some("a"))
  {
    var vs := [Var("a", "1"), Var("b", "2")];
    assert GlueIter(vs, None, 0) == None;
    assert IndexOf(vs, "a") == 0 && Remove(vs, "a") == [Var("b", "2")];
    DistinctGlueEndsIff(vs, "a");
    DistinctGlueEndsIff(Remove(vs, "a"), "a");
    assert IndexOf([Var("b", "2")], "a") == 1 == IndexOf([Var("b", "2")], "");
  }

  // ----- The demo's listing

  predicate NamesFit(vs: seq<Var>) {
    forall k | 0 <= k < |vs| :: |vs[k].name| < 256
  }

  /** A line of the listing: a name, and what ub_env_get returns for it. */
  datatype Line = Line(name: string, value: Option<string>)

  datatype Status = Running | Done | Spoilt

  /** Line k shows what the k-th turn of the loop is given. */
  ghost predicate Turn(vs: seq<Var>, line: Line, k: nat) {
    && GlueIter(vs, None, k + 1) == Some(line.name) && |line.name| < 256
    && line.value == Lookup(vs, line.name)
  }

  ghost predicate Turns(vs: seq<Var>, out: seq<Line>) {
    forall k | 0 <= k < |out| :: Turn(vs, out[k], k)
  }

  ghost predicate LastTurn(vs: seq<Var>, turns: nat, status: Status) {
    match GlueIter(vs, None, turns + 1)
    case None => status == Done
    case Some(name) => status == if |name| < 256 then Running else Spoilt
  }

  ghost predicate Listed(vs: seq<Var>, out: seq<Line>) {
    |out| == |vs| && forall k | 0 <= k < |out| :: out[k] == Line(vs[k].name, Some(vs[k].value))
  }

  lemma {:induction false} NamesInOrder(vs: seq<Var>, k: nat)
    requires vs != [] && Distinct(vs) && k <= |vs|
    ensures GlueIter(vs, None, k + 1) == if k < |vs| then Some(vs[k].name) else None
  {
    if k == 0 {
      assert GlueIter(vs, None, 0) == None;
    } else {
      NamesInOrder(vs, k - 1);
      IndexOfDistinct(vs, k - 1);
    }
  }

  /** The turns that end in NULL are those that list a distinctly named environment in full. */
  lemma DoneIsListed(vs: seq<Var>, out: seq<Line>)
    requires Turns(vs, out) && LastTurn(vs, |out|, Done)
    ensures vs != [] && Distinct(vs) && NamesFit(vs) && Listed(vs, out)
  {
    EndMeansDistinct(vs, |out| + 1);
    TurnsCount(vs, out);
    forall k | 0 <= k < |vs| ensures out[k] == Line(vs[k].name, Some(vs[k].value)) && |vs[k].name| < 256 {
      TurnInOrder(vs, out[k], k);
    }
  }

  lemma EndMeansDistinct(vs: seq<Var>, n: nat)
    requires n > 0 && GlueIter(vs, None, n) == None
    ensures vs != [] && Distinct(vs)
  {
    GlueFromNullIff(vs);
  }

  lemma TurnsCount(vs: seq<Var>, out: seq<Line>)
    requires vs != [] && Distinct(vs)
    requires Turns(vs, out) && LastTurn(vs, |out|, Done)
    ensures |out| == |vs|
  {
    if |out| > |vs| {
      assert Turn(vs, out[|vs|], |vs|);
      NamesInOrder(vs, |vs|);
    } else {
      NamesInOrder(vs, |out|);
    }
  }

  lemma TurnInOrder(vs: seq<Var>, line: Line, k: nat)
    requires Distinct(vs) && k < |vs| && Turn(vs, line, k)
    ensures line == Line(vs[k].name, Some(vs[k].value)) && |vs[k].name| < 256
  {
    NamesInOrder(vs, k);
    IndexOfDistinct(vs, k);
  }

  /** And such an environment is listed in full once there are turns enough. */
  lemma EnoughTurns(vs: seq<Var>, out: seq<Line>, status: Status)
    requires Turns(vs, out) && LastTurn(vs, |out|, status)
    requires vs != [] && Distinct(vs) && NamesFit(vs)
    requires status == Running ==> |out| > |vs|
    ensures status == Done
  {
    if |out| > |vs| {
      assert Turn(vs, out[|vs|], |vs|);
      NamesInOrder(vs, |vs|);
    } else {
      NamesInOrder(vs, |out|);
    }
  }

  lemma ListedIff(vs: seq<Var>, out: seq<Line>, status: Status, rounds: nat)
    requires Turns(vs, out) && LastTurn(vs, |out|, status)
    requires status == Running ==> |out| == rounds
    ensures status == Done ==> Listed(vs, out)
    ensures rounds > |vs| ==> (status == Done <==> vs != [] && Distinct(vs) && NamesFit(vs))
  {
    if status == Done {
      DoneIsListed(vs, out);
    } else if rounds > |vs| && vs != [] && Distinct(vs) && NamesFit(vs) {
      EnoughTurns(vs, out, status);
    }
  }

  datatype Answer = Ended | Named | Overran

  class Glue {
    const envName: array<char>

    constructor ()
      ensures fresh(envName) && envName.Length == NAME_CELLS
    {
      envName := new char[NAME_CELLS](_ => NUL);
    }

    function LastName(last: LastArg): Option<string>
      requires last.Buffer? ==> Terminated(envName[..], 0)
      requires last.Own? ==> Terminated(last.text, 0)
      reads envName
    {
      match last
      case NoLast => None
      case Buffer => Some(NameAt(envName[..], 0))
      case Own(text) => Some(NameAt(text, 0))
    }

    /** The buffer holds the C string `name`. */
    ghost predicate Shows(name: string)
      reads envName
    {
      && |name| < envName.Length == 256
      && NUL !in name && EQ !in name
      && envName[..|name|] == name && envName[|name|] == NUL
    }

    /**
     The copy loop: the part of `src` up to '=' or NUL. `overran` is the moment C writes
     behind the buffer; what is there is not known here.
     */
    method CopyName(src: string) returns (overran: bool)
      requires envName.Length == NAME_CELLS && Terminated(src, 0)
      modifies envName
      ensures overran <==> |NameAt(src, 0)| >= 256
      ensures overran ==> envName[..] == src[..256]
      ensures !overran ==> Shows(NameAt(src, 0))
    {
      var i := 0;
      while src[i] != EQ && src[i] != NUL
        invariant i <= NameEnd(src, 0) && i <= NAME_CELLS
        invariant envName[..i] == src[..i]
        decreases |src| - i
      {
        if i == NAME_CELLS {
          return true;
        }
        envName[i] := src[i];
        i := i + 1;
      }
      if i == NAME_CELLS {
        return true;
      }
      envName[i] := NUL;
      return false;
    }

    method ClearName()
      requires envName.Length == NAME_CELLS
      modifies envName
      ensures forall x | 0 <= x < NAME_CELLS :: envName[x] == NUL
    {
      var n := 0;
      while n < NAME_CELLS
        invariant n <= NAME_CELLS && forall x | 0 <= x < n :: envName[x] == NUL
      {
        envName[n] := NUL;
        n := n + 1;
      }
    }

    /** ub_env_enum; `ready` says that the API is up, so that the system call is serviced. */
    method UbEnvEnum(ready: bool, mem: array<char>, size: nat, last: LastArg, ghost vs: seq<Var>) returns (r: Answer)
      requires mem != envName && envName.Length == NAME_CELLS
      requires Stored(mem[..], size, vs)
      requires last.Buffer? ==> Terminated(envName[..], 0)
      requires last.Own? ==> Terminated(last.text, 0)
      modifies envName
      ensures !ready ==> r == Ended && envName[..] == old(envName[..])
      ensures ready ==>
                match GlueNext(vs, old(LastName(last)), last.Buffer?)
                case None => r == Ended && envName[..] == old(envName[..])
                case Some(name) => if |name| < 256 then r == Named && Shows(name) else r == Overran
    {
      if !ready {
        return Ended;
      }
      ghost var m := mem[..];
      var p := match last case NoLast => Null case Buffer => Foreign(envName[..]) case Own(text) => Foreign(text);
      var env := new PtrCell(Null);
      StoredIsReadable(m, size, vs);
      EnumNext(m, size, vs, p);
      var rc := EnvEnum(mem, size, p, env);
      var str := env.p;
      if str == Null {
        return Ended;
      }
      ClearName();
      assert mem[..] == m;
      var src :=
        if str.InEnv? then mem[str.off..]
        else if last.Buffer? then envName[..]
        else last.text;
      if str.Foreign? && last.Buffer? {
        NameEndIs(src, 0, 0);
      }
      var overran := CopyName(src);
      return if overran then Overran else Named;
    }

    /** ub_env_get on the name in the buffer. */
    method UbEnvGet(mem: array<char>, size: nat, ghost vs: seq<Var>, ghost name: string) returns (line: Line)
      requires Stored(mem[..], size, vs) && Shows(name)
      ensures line == Line(name, Lookup(vs, name))
    {
      ShownName(envName[..], name);
      StoredIsReadable(mem[..], size, vs);
      GetOnList(mem[..], size, vs, envName[..]);
      var p := GetEnv(mem, size, envName[..]);
      return Line(NameAt(envName[..], 0), if p == Null then None else Some(CString(mem[..], p.off)));
    }

    /**
     The demo loop: `while ((env = ub_env_enum(env)) != NULL)`, printing each name
     with what ub_env_get returns for it, watched for `rounds` turns.
     */
    method ListEnv(mem: array<char>, size: nat, rounds: nat, ghost vs: seq<Var>)
      returns (out: seq<Line>, status: Status)
      requires mem != envName && envName.Length == NAME_CELLS
      requires Stored(mem[..], size, vs)
      modifies envName
      ensures Turns(vs, out) && LastTurn(vs, |out|, status)
      ensures status == Running ==> |out| == rounds
      ensures status == Done ==> Listed(vs, out)
      ensures rounds > |vs| ==> (status == Done <==> vs != [] && Distinct(vs) && NamesFit(vs))
    {
      out := [];
      assert GlueIter(vs, None, 0) == None;
      var r := UbEnvEnum(true, mem, size, NoLast, vs);
      while r == Named && |out| < rounds
        invariant |out| <= rounds && Turns(vs, out) && LastTurn(vs, |out|, StatusOf(r))
        invariant r == Named ==> Shows(GlueIter(vs, None, |out| + 1).value)
        decreases rounds - |out|
      {
        ghost var name := GlueIter(vs, None, |out| + 1).value;
        var line := UbEnvGet(mem, size, vs, name);
        ShownName(envName[..], name);
        r := UbEnvEnum(true, mem, size, Buffer, vs);
        out := out + [line];
      }
      status := StatusOf(r);
      ListedIff(vs, out, status, rounds);
    }
  }

  function StatusOf(r: Answer): Status {
    match r
    case Ended => Done
    case Named => Running
    case Overran => Spoilt
  }

  lemma ShownName(buffer: string, name: string)
    requires |name| < |buffer| && buffer[..|name|] == name && buffer[|name|] == NUL
    requires NUL !in name && EQ !in name
    ensures Terminated(buffer, 0) && NameAt(buffer, 0) == name
  {
    assert forall x | 0 <= x < |name| :: buffer[x] == name[x];
    NameEndIs(buffer, 0, |name|);
  }
}
