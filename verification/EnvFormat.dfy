/**
 The environment block: NUL-terminated "name=value" strings laid end to end,
 closed by an empty string (common/cmd_nvedit.c, include/environment.h).
 Memory cells are modelled as `char`; only NUL and '=' are special.
 */
module EnvFormat {

  const NUL := '\0'
  const EQ := '='

  datatype Var = Var(name: string, value: string)

  /** A name holds neither terminator; a value may hold '='. */
  predicate GoodVar(v: Var) {
    NUL !in v.name && EQ !in v.name && NUL !in v.value
  }

  predicate GoodAt(vs: seq<Var>, k: nat)
    requires k < |vs|
  {
    GoodVar(vs[k])
  }

  predicate GoodList(vs: seq<Var>) {
    forall k | 0 <= k < |vs| :: GoodAt(vs, k)
  }

  function Entry(v: Var): string {
    v.name + [EQ] + v.value + [NUL]
  }

  function Entries(vs: seq<Var>): string {
    if vs == [] then "" else Entry(vs[0]) + Entries(vs[1..])
  }

  /** The bytes of a whole block. An empty list is stored as a double NUL. */
  function Image(vs: seq<Var>): string {
    if vs == [] then [NUL, NUL] else Entries(vs) + [NUL]
  }

  /** Two variables as they are stored, and none. */
  lemma ImageExample()
    ensures Image([Var("a", "1"), Var("b", "x=2")]) == "a=1\0b=x=2\0\0" && Image([]) == "\0\0"
  {
    var a, b := Var("a", "1"), Var("b", "x=2");
    assert Entries([b]) == Entry(b) + Entries([]);
    assert Entries([a, b]) == Entry(a) + Entries([b]);
  }

  predicate Holds(mem: string, vs: seq<Var>) {
    GoodList(vs) && |Image(vs)| <= |mem| && mem[..|Image(vs)|] == Image(vs)
  }

  /** Where entry k starts; for k == |vs| this is the closing empty string. */
  function Offset(vs: seq<Var>, k: nat): nat
    requires k <= |vs|
  {
    if k == 0 then 0 else Offset(vs, k - 1) + |vs[k - 1].name| + |vs[k - 1].value| + 2
  }

  predicate Distinct(vs: seq<Var>) {
    forall a, b | 0 <= a < b < |vs| :: vs[a].name != vs[b].name
  }

  /** The index of the first variable called `name`, or |vs|. */
  function IndexOf(vs: seq<Var>, name: string): (k: nat)
    ensures k <= |vs|
    ensures forall j | 0 <= j < k :: vs[j].name != name
    ensures k < |vs| ==> vs[k].name == name
  {
    if vs == [] then 0
    else if vs[0].name == name then 0
    else 1 + IndexOf(vs[1..], name)
  }

  lemma IndexOfIs(vs: seq<Var>, name: string, k: nat)
    requires k <= |vs| && forall j | 0 <= j < k :: vs[j].name != name
    requires k < |vs| ==> vs[k].name == name
    ensures IndexOf(vs, name) == k
  {
  }

  lemma IndexOfDistinct(vs: seq<Var>, k: nat)
    requires Distinct(vs) && k < |vs|
    ensures IndexOf(vs, vs[k].name) == k
  {
  }

  // ----- Layout of the image

  lemma Assoc(x: string, y: string, z: string)
    ensures (x + y) + z == x + (y + z)
  {
  }

  lemma {:induction false} EntriesConcat(a: seq<Var>, b: seq<Var>)
    ensures Entries(a + b) == Entries(a) + Entries(b)
  {
    if a == [] {
      assert a + b == b;
    } else {
      EntriesConcat(a[1..], b);
      assert (a + b)[0] == a[0] && (a + b)[1..] == a[1..] + b;
      Assoc(Entry(a[0]), Entries(a[1..]), Entries(b));
    }
  }

  lemma EntriesSnoc(vs: seq<Var>, k: nat)
    requires k < |vs|
    ensures Entries(vs[..k + 1]) == Entries(vs[..k]) + Entry(vs[k])
  {
    assert vs[..k + 1] == vs[..k] + [vs[k]];
    EntriesConcat(vs[..k], [vs[k]]);
    assert Entries([vs[k]]) == Entry(vs[k]) + Entries([]);
  }

  lemma EntriesSplit(vs: seq<Var>, k: nat)
    requires k <= |vs|
    ensures Entries(vs) == Entries(vs[..k]) + Entries(vs[k..])
  {
    assert vs == vs[..k] + vs[k..];
    EntriesConcat(vs[..k], vs[k..]);
  }

  lemma {:induction false} OffsetIs(vs: seq<Var>, k: nat)
    requires k <= |vs|
    ensures Offset(vs, k) == |Entries(vs[..k])|
  {
    if k == 0 {
    } else {
      OffsetIs(vs, k - 1);
      EntriesSnoc(vs, k - 1);
    }
  }

  lemma {:induction false} OffsetMonotone(vs: seq<Var>, a: nat, b: nat)
    requires a <= b <= |vs|
    ensures Offset(vs, a) <= Offset(vs, b)
  {
    if a == b {
    } else {
      OffsetMonotone(vs, a, b - 1);
    }
  }

  predicate EntryIn(mem: string, i: nat, v: Var) {
    i + |Entry(v)| <= |mem| && mem[i..i + |Entry(v)|] == Entry(v)
  }

  lemma PartIn(mem: string, before: string, v: Var, after: string)
    requires |before + Entry(v) + after| <= |mem|
    requires mem[..|before + Entry(v) + after|] == before + Entry(v) + after
    ensures EntryIn(mem, |before|, v)
  {
    var all := before + Entry(v) + after;
    assert all[|before|..|before| + |Entry(v)|] == Entry(v);
  }

  /** What the memory holds at entry k. */
  lemma EntryInMemory(mem: string, vs: seq<Var>, k: nat)
    requires Holds(mem, vs) && k < |vs|
    ensures EntryIn(mem, Offset(vs, k), vs[k])
  {
    OffsetIs(vs, k);
    EntriesSnoc(vs, k);
    EntriesSplit(vs, k + 1);
    Assoc(Entries(vs[..k + 1]), Entries(vs[k + 1..]), [NUL]);
    PartIn(mem, Entries(vs[..k]), vs[k], Entries(vs[k + 1..]) + [NUL]);
  }

  lemma ClosingInMemory(mem: string, vs: seq<Var>)
    requires Holds(mem, vs)
    ensures Offset(vs, |vs|) < |Image(vs)| <= |mem| && mem[Offset(vs, |vs|)] == NUL
    ensures vs != [] ==> |Image(vs)| == Offset(vs, |vs|) + 1
  {
    assert vs[..|vs|] == vs;
    OffsetIs(vs, |vs|);
    assert mem[..|Image(vs)|][Offset(vs, |vs|)] == NUL;
  }
}
