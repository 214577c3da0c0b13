/**
 The environment calls of the external-application API: API_env_enum and the
 getenv behind API_env_get, as scans over the block in memory.
 */
module EnvApi {
  import opened EnvFormat
  import opened EnvScan
  import opened ApiPublic

  /**
   A `char *`: NULL, an address inside the block, or a string elsewhere.
   `Undefined` stands for what C leaves open after a read outside memory.
   */
  datatype Ptr = Null | InEnv(off: nat) | Foreign(text: string) | Undefined

  /** The memory from where a pointer points. */
  function Text(mem: string, p: Ptr): string {
    match p
    case InEnv(off) => if off <= |mem| then mem[off..] else ""
    case Foreign(text) => text
    case _ => ""
  }

  /** What API_env_enum leaves in `*next`. */
  function EnumResult(mem: string, size: nat, last: Ptr): Ptr {
    if last == Null then InEnv(0)
    else match Next(mem, size, Text(mem, last))
         case Same => last
         case NoMore => Null
         case At(off) => InEnv(off)
         case Wild => Undefined
  }

  /** What getenv returns. */
  function GetResult(mem: string, size: nat, name: string): Ptr {
    match Find(mem, size, name, 0)
    case Hit(_, _, v) => InEnv(v)
    case Miss => Null
    case Lost(_) => Undefined
  }

  class PtrCell {
    var p: Ptr
    constructor (q: Ptr)
      ensures p == q
    {
      p := q;
    }
  }

  /**
   The inner loop: step to the NUL of the entry at i, giving up when `size` is
   reached on a non-NUL. `top` is the highest index read.
   */
  method FindEnd(mem: array<char>, size: nat, s: string, i: nat)
    returns (n: nat, cut: bool, ghost top: nat)
    requires Readable(mem[..], size) && Reached(mem[..], size, s, i)
    requires i < mem.Length && mem[i] != NUL
    ensures cut <==> StrEnd(mem[..], i) > size
    ensures !cut ==> n == StrEnd(mem[..], i) < mem.Length
    ensures top <= size + 1 && forall t | ClosedBy(mem[..], size, t) :: top < t && !cut
  {
    ghost var m := mem[..];
    StepReached(m, size, s, i);
    n, cut, top := i, false, i;
    while mem[n] != NUL
      invariant m == mem[..] && !cut && top == n
      invariant i <= n <= StrEnd(m, i) && n < mem.Length && (n == i || n <= size)
      decreases mem.Length - n
    {
      if n >= size {
        cut := true;
        return;
      }
      n := n + 1;
      top := n;
    }
  }

  /** The body of API_env_enum for a non-NULL `last`. `top` is the highest index the scan itself reads. */
  method ScanNext(mem: array<char>, size: nat, s: string)
    returns (r: Outcome, cut: bool, ghost top: nat)
    requires Readable(mem[..], size)
    ensures r == Next(mem[..], size, s)
    ensures cut ==> r == Same
    ensures top <= size + 1
    ensures forall t | ClosedBy(mem[..], size, t) :: top <= t && !cut
  {
    ghost var m := mem[..];
    var i := 0;
    ReachedInside(m, size, s, i);
    while mem[i] != NUL
      invariant m == mem[..] && i < mem.Length
      invariant Reached(m, size, s, i)
      invariant Find(m, size, s, i) == Find(m, size, s, 0)
      decreases mem.Length - i
    {
      StepReached(m, size, s, i);
      var n;
      n, cut, top := FindEnd(mem, size, s, i);
      if cut {
        return Same, true, top;
      }
      var found := EnvMatch(s, mem, i);
      if found == Mismatch {
        ReachedInside(m, size, s, n + 1);
        i := n + 1;
        continue;
      }
      if found == OffEnd {
        return Wild, false, n;
      }
      AfterHit(m, size, n);
      i := n + 1;
      r := if mem[i] == NUL then NoMore else At(i);
      return r, false, i;
    }
    ReachedInside(m, size, s, i);
    return Same, false, i;
  }

  lemma AfterHit(mem: string, size: nat, n: nat)
    requires Readable(mem, size)
    requires n < |mem| && n <= size && forall t | ClosedBy(mem, size, t) :: n < t
    ensures n + 1 < |mem|
  {
  }

  /** API_env_enum: the whole call, with its NULL cases. */
  method EnvEnum(mem: array<char>, size: nat, last: Ptr, next: PtrCell?) returns (rc: int)
    requires Readable(mem[..], size)
    modifies next
    ensures next == null ==> rc == API_EINVAL
    ensures next != null ==> rc == 0 && next.p == EnumResult(mem[..], size, last)
  {
    if next == null {
      return API_EINVAL;
    }
    if last == Null {
      next.p := InEnv(0);
    } else {
      next.p := last;
      var s := if last.InEnv? && last.off <= mem.Length then mem[last.off..] else if last.Foreign? then last.text else "";
      var r, cut, top := ScanNext(mem, size, s);
      match r
      case Same =>
      case NoMore => next.p := Null;
      case At(off) => next.p := InEnv(off);
      case Wild => next.p := Undefined;
    }
    return 0;
  }

  /** getenv, which API_env_get stores through `value`. */
  method GetEnv(mem: array<char>, size: nat, name: string) returns (r: Ptr)
    requires Readable(mem[..], size)
    ensures r == GetResult(mem[..], size, name)
  {
    ghost var m := mem[..];
    var i := 0;
    ReachedInside(m, size, name, i);
    while mem[i] != NUL
      invariant Reached(m, size, name, i) && i < mem.Length && m == mem[..]
      invariant Find(m, size, name, i) == Find(m, size, name, 0)
      decreases mem.Length - i
    {
      StepReached(m, size, name, i);
      var nxt, cut, top := FindEnd(mem, size, name, i);
      if cut {
        return Null;
      }
      var val := EnvMatch(name, mem, i);
      if val == Mismatch {
        ReachedInside(m, size, name, nxt + 1);
        i := nxt + 1;
        continue;
      }
      return if val.Value? then InEnv(val.at) else Undefined;
    }
    return Null;
  }
}
