/**
 The scan over the environment block shared by API_env_enum (api/api.c),
 getenv and setenv (common/cmd_nvedit.c), with envmatch.
 Every loop is a method proved against a function on the memory contents;
 the lemmas say what those functions compute, for arbitrary contents and for
 a block that holds a list of variables.
 */
module EnvScan {
  import opened EnvFormat

  /** `OffEnd`: the C code would read past the memory that is modelled. */
  datatype Match = Value(at: nat) | Mismatch | OffEnd

  datatype Found = Hit(start: nat, end: nat, value: nat) | Miss | Lost(at: nat)

  datatype Outcome = Same | NoMore | At(off: nat) | Wild

  // ----- Strings in memory

  /** The first NUL at or after i, or the end of memory. */
  function StrEnd(mem: string, i: nat): (n: nat)
    requires i <= |mem|
    ensures i <= n <= |mem|
    ensures forall k | i <= k < n :: mem[k] != NUL
    ensures n < |mem| ==> mem[n] == NUL
    decreases |mem| - i
  {
    if i == |mem| || mem[i] == NUL then i else StrEnd(mem, i + 1)
  }

  /** The first '=' or NUL at or after i, or the end of memory. */
  function NameEnd(mem: string, i: nat): (n: nat)
    requires i <= |mem|
    ensures i <= n <= |mem|
    ensures forall k | i <= k < n :: mem[k] != NUL && mem[k] != EQ
    ensures n < |mem| ==> mem[n] == NUL || mem[n] == EQ
    decreases |mem| - i
  {
    if i == |mem| || mem[i] == NUL || mem[i] == EQ then i else NameEnd(mem, i + 1)
  }

  predicate Terminated(mem: string, i: nat) {
    i <= |mem| && NameEnd(mem, i) < |mem|
  }

  function NameAt(mem: string, i: nat): string
    requires i <= |mem|
  {
    mem[i..NameEnd(mem, i)]
  }

  /** The variable at i: the text up to '=', and the rest of the string. */
  function VarAt(mem: string, i: nat): Var
    requires i <= |mem|
  {
    var n, e := NameEnd(mem, i), StrEnd(mem, i);
    Var(mem[i..n], if n < e then mem[n + 1..e] else "")
  }

  // ----- envmatch

  function Compare(s: string, mem: string, i: nat, k: nat): Match
    decreases |s| - k
  {
    if k >= |s| || i + k >= |mem| then OffEnd
    else if s[k] == mem[i + k] then
      if s[k] == EQ then Value(i + k + 1) else Compare(s, mem, i, k + 1)
    else if s[k] == NUL && mem[i + k] == EQ then Value(i + k + 1)
    else Mismatch
  }

  lemma {:induction false} CompareFrom(s: string, mem: string, i: nat, k: nat)
    requires Terminated(s, 0) && Terminated(mem, i)
    requires k <= NameEnd(s, 0) && i + k <= NameEnd(mem, i)
    requires s[..k] == mem[i..i + k]
    ensures NameAt(s, 0) != NameAt(mem, i) ==> Compare(s, mem, i, k) == Mismatch
    ensures NameAt(s, 0) == NameAt(mem, i) && mem[NameEnd(mem, i)] == EQ
            ==> Compare(s, mem, i, k) == Value(NameEnd(mem, i) + 1)
    ensures NameAt(s, 0) == NameAt(mem, i) && s[NameEnd(s, 0)] == EQ && mem[NameEnd(mem, i)] == NUL
            ==> Compare(s, mem, i, k) == Mismatch
    decreases |s| - k
  {
    var a, b := NameEnd(s, 0), NameEnd(mem, i);
    if k < a && i + k < b && s[k] == mem[i + k] {
      CompareFrom(s, mem, i, k + 1);
    } else if k == a && i + k == b {
      assert NameAt(s, 0) == s[..k] && NameAt(mem, i) == mem[i..i + k];
    } else if k < a && i + k < b {
      assert NameAt(s, 0)[k] == s[k] && NameAt(mem, i)[k] == mem[i + k];
    } else {
      assert |NameAt(s, 0)| == a && |NameAt(mem, i)| == b - i;
    }
  }

  /**
   envmatch compares name parts: `s` up to '=' or its end, and the entry's name.
   The only case left open is a text without '=' on both sides, where the C loop
   runs on past the two NULs.
   */
  lemma CompareMeaning(s: string, mem: string, i: nat)
    requires Terminated(s, 0) && Terminated(mem, i)
    requires s[NameEnd(s, 0)] == EQ || mem[NameEnd(mem, i)] == EQ || NameAt(s, 0) != NameAt(mem, i)
    ensures Compare(s, mem, i, 0) ==
            if NameAt(s, 0) == NameAt(mem, i) && mem[NameEnd(mem, i)] == EQ
            then Value(NameEnd(mem, i) + 1) else Mismatch
  {
    CompareFrom(s, mem, i, 0);
  }

  method EnvMatch(s: string, mem: array<char>, i: nat) returns (r: Match)
    ensures r == Compare(s, mem[..], i, 0)
  {
    var k, i2 := 0, i;
    while true
      invariant 0 <= k <= |s| && i2 == i + k
      invariant Compare(s, mem[..], i, k) == Compare(s, mem[..], i, 0)
      decreases |s| - k
    {
      if k == |s| || i2 >= mem.Length {
        return OffEnd;
      }
      var same := s[k] == mem[i2];
      i2 := i2 + 1;
      if !same {
        break;
      }
      if s[k] == EQ {
        return Value(i2);
      }
      k := k + 1;
    }
    if s[k] == NUL && mem[i2 - 1] == EQ {
      return Value(i2);
    }
    return Mismatch;
  }

  // ----- The scan

  /** The first entry from i on whose name matches, unless an entry runs past `size`. */
  function Find(mem: string, size: nat, s: string, i: nat): Found
    requires i <= |mem|
    decreases |mem| - i
  {
    if i == |mem| then Lost(i)
    else if mem[i] == NUL then Miss
    else
      var n := StrEnd(mem, i);
      if n > size then Miss
      else if n == |mem| then Lost(i)
      else match Compare(s, mem, i, 0)
           case OffEnd => Lost(i)
           case Value(v) => Hit(i, n, v)
           case Mismatch => Find(mem, size, s, n + 1)
  }

  /** What API_env_enum stores through `next` when `last` is the string `s`. */
  function Next(mem: string, size: nat, s: string): Outcome {
    match Find(mem, size, s, 0)
    case Miss => Same
    case Lost(_) => Wild
    case Hit(i, n, v) =>
      if n + 1 >= |mem| then Wild
      else if mem[n + 1] == NUL then NoMore
      else At(n + 1)
  }

  /** An empty string where an entry could start. */
  predicate Closing(mem: string, t: nat) {
    t < |mem| && mem[t] == NUL && (t == 0 || mem[t - 1] == NUL)
  }

  ghost predicate ClosedBy(mem: string, size: nat, t: nat) {
    Closing(mem, t) && t <= size + 1
  }

  /** Enough memory for the scan: two cells beyond `size`, or a closing string in time. */
  ghost predicate Readable(mem: string, size: nat) {
    size + 2 <= |mem| || exists t :: ClosedBy(mem, size, t)
  }

  /** i is reached by stepping from entry to entry before any empty string. */
  ghost predicate LiveStart(mem: string, i: nat) {
    && i < |mem|
    && (i == 0 || mem[i - 1] == NUL)
    && forall j | 0 <= j < i :: !Closing(mem, j)
  }

  /** A non-empty entry that ends at or before index `size`. */
  ghost predicate Candidate(mem: string, size: nat, i: nat) {
    LiveStart(mem, i) && mem[i] != NUL && StrEnd(mem, i) <= size && StrEnd(mem, i) < |mem|
  }

  /** i can be the scan's index: every earlier candidate has been refused. */
  ghost predicate Reached(mem: string, size: nat, s: string, i: nat) {
    && i <= size + 1 && i <= |mem|
    && (i == 0 || mem[i - 1] == NUL)
    && (forall j | 0 <= j < i && j < |mem| :: !Closing(mem, j))
    && forall j | 0 <= j < i && Candidate(mem, size, j) :: Compare(s, mem, j, 0) == Mismatch
  }

  lemma ReachedInside(mem: string, size: nat, s: string, i: nat)
    requires Readable(mem, size) && Reached(mem, size, s, i)
    ensures i < |mem|
    ensures forall t | ClosedBy(mem, size, t) :: i <= t
  {
  }

  lemma StepReached(mem: string, size: nat, s: string, i: nat)
    requires Readable(mem, size) && Reached(mem, size, s, i)
    requires i < |mem| && mem[i] != NUL
    ensures StrEnd(mem, i) <= size ==> StrEnd(mem, i) < |mem| && Candidate(mem, size, i)
    ensures StrEnd(mem, i) <= size && Compare(s, mem, i, 0) == Mismatch
            ==> Reached(mem, size, s, StrEnd(mem, i) + 1)
    ensures forall t | ClosedBy(mem, size, t) :: StrEnd(mem, i) < t
  {
    var n := StrEnd(mem, i);
    forall t: nat | ClosedBy(mem, size, t) ensures n < t {
      assert i <= t;
    }
    if n <= size {
      assert n < |mem|;
      assert LiveStart(mem, i);
      if Compare(s, mem, i, 0) == Mismatch {
        forall j | 0 <= j < n + 1 && Candidate(mem, size, j)
          ensures Compare(s, mem, j, 0) == Mismatch
        {
        }
      }
    }
  }

  /** `f` is the answer of a first-match search over the candidates. */
  ghost predicate FirstMatch(mem: string, size: nat, s: string, f: Found) {
    match f
    case Hit(i, n, v) =>
      && Candidate(mem, size, i) && n == StrEnd(mem, i)
      && Compare(s, mem, i, 0) == Value(v)
      && forall j | 0 <= j < i && Candidate(mem, size, j) :: Compare(s, mem, j, 0) == Mismatch
    case Miss =>
      forall j | 0 <= j < |mem| && Candidate(mem, size, j) :: Compare(s, mem, j, 0) == Mismatch
    case Lost(i) =>
      && Candidate(mem, size, i) && Compare(s, mem, i, 0) == OffEnd
      && forall j | 0 <= j < i && Candidate(mem, size, j) :: Compare(s, mem, j, 0) == Mismatch
  }

  lemma {:induction false} FindFrom(mem: string, size: nat, s: string, i: nat)
    requires Readable(mem, size) && Reached(mem, size, s, i)
    ensures FirstMatch(mem, size, s, Find(mem, size, s, i))
    decreases |mem| - i
  {
    ReachedInside(mem, size, s, i);
    if mem[i] == NUL {
      assert Closing(mem, i);
    } else {
      var n := StrEnd(mem, i);
      StepReached(mem, size, s, i);
      if n > size {
        forall j | 0 <= j < |mem| && Candidate(mem, size, j)
          ensures Compare(s, mem, j, 0) == Mismatch
        {
        }
      } else if Compare(s, mem, i, 0) == Mismatch {
        FindFrom(mem, size, s, n + 1);
      }
    }
  }

  /**
   On arbitrary contents the scan is a first-match search over the live entries
   that end by `size`; the answer determines, and is determined by, which entries match.
   */
  lemma FindIsFirstMatch(mem: string, size: nat, s: string, f: Found)
    requires Readable(mem, size)
    ensures f == Find(mem, size, s, 0) <==> FirstMatch(mem, size, s, f)
  {
    FindFrom(mem, size, s, 0);
    if FirstMatch(mem, size, s, f) {
      FirstMatchUnique(mem, size, s, f, Find(mem, size, s, 0));
    }
  }

  lemma FirstMatchUnique(mem: string, size: nat, s: string, f: Found, g: Found)
    requires FirstMatch(mem, size, s, f) && FirstMatch(mem, size, s, g)
    ensures f == g
  {
    var i := if f.Hit? then f.start else if f.Lost? then f.at else |mem|;
    var j := if g.Hit? then g.start else if g.Lost? then g.at else |mem|;
    assert i < |mem| ==> Candidate(mem, size, i) && Compare(s, mem, i, 0) != Mismatch;
    assert j < |mem| ==> Candidate(mem, size, j) && Compare(s, mem, j, 0) != Mismatch;
  }

  /** A comparison runs off the end only where both texts lack an '=' and are equal. */
  lemma OffEndOnlyIf(s: string, mem: string, i: nat)
    requires Terminated(s, 0) && Terminated(mem, i) && Compare(s, mem, i, 0) == OffEnd
    ensures NameAt(s, 0) == NameAt(mem, i)
    ensures s[NameEnd(s, 0)] == NUL && mem[NameEnd(mem, i)] == NUL
  {
    if s[NameEnd(s, 0)] == EQ || mem[NameEnd(mem, i)] == EQ || NameAt(s, 0) != NameAt(mem, i) {
      CompareMeaning(s, mem, i);
    }
  }

  /**
   API_env_enum on arbitrary contents: `last` unchanged when no live entry matches;
   otherwise the string just after the first match, a non-empty one that directly
   follows a NUL, or NULL when that string is empty.
   */
  lemma NextMeaning(mem: string, size: nat, s: string)
    requires Readable(mem, size)
    ensures match Next(mem, size, s)
            case Same => FirstMatch(mem, size, s, Miss)
            case NoMore => exists f: Found :: f.Hit? && FirstMatch(mem, size, s, f)
                                              && f.end + 1 < |mem| && mem[f.end] == NUL && mem[f.end + 1] == NUL
            case At(off) => exists f: Found :: f.Hit? && FirstMatch(mem, size, s, f)
                                               && off == f.end + 1 < |mem| && mem[off - 1] == NUL && mem[off] != NUL
            case Wild => exists f: Found :: f.Lost? && FirstMatch(mem, size, s, f)
  {
    var f := Find(mem, size, s, 0);
    FindIsFirstMatch(mem, size, s, f);
    if f.Hit? {
      assert f.end + 1 < |mem| by {
        EndInside(mem, size, f.start);
      }
    }
    assert FirstMatch(mem, size, s, f);
  }

  lemma EndInside(mem: string, size: nat, i: nat)
    requires Readable(mem, size) && Candidate(mem, size, i)
    ensures StrEnd(mem, i) + 1 < |mem|
  {
  }
}
