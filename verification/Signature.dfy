/**
 The signature record (api_init in api/api.c) and how the consumer finds it
 (examples/api/glue.c): magic, version, padding, checksum, entry point, 20 bytes
 on a 32-bit machine of either byte order.
 */
module Signature {
  import opened ApiPublic
  import opened Slices

  type Byte = b: nat | b < 256
  type U32 = x: nat | x < 0x1_0000_0000

  const MAGIC: seq<Byte> := [0x55, 0x42, 0x6F, 0x6F, 0x74, 0x41, 0x50, 0x49]  // "UBootAPI"
  const MAGLEN := 8
  const VERSION: Byte := 1
  const CHECKSUM := 12   // offset of the checksum
  const ENTRY := 16      // offset of the entry point
  const SIZE := 20       // sizeof(struct api_signature)

  /** A word as four bytes, in either byte order. */
  function Word(x: U32, big: bool): (b: seq<Byte>)
    ensures |b| == 4
  {
    var r1: nat, r2: nat := x / 256, x / 256 / 256;
    var b3: nat, b2: nat, b1: nat, b0: nat := r2 / 256, r2 % 256, r1 % 256, x % 256;
    if big then [b3, b2, b1, b0] else [b0, b1, b2, b3]
  }

  function Read(b: seq<Byte>, big: bool): U32
    requires |b| == 4
  {
    var b3: nat, b2: nat, b1: nat, b0: nat :=
      if big then b[0] else b[3], if big then b[1] else b[2], if big then b[2] else b[1], if big then b[3] else b[0];
    ((b3 * 256 + b2) * 256 + b1) * 256 + b0
  }

  lemma ReadWord(x: U32, big: bool)
    ensures Read(Word(x, big), big) == x
  {
  }

  predicate HasMagic(mem: seq<Byte>, p: nat) {
    p + MAGLEN <= |mem| && mem[p..p + MAGLEN] == MAGIC
  }

  /** The record with its checksum field cleared, as the producer and the consumer both sum it. */
  function Cleared(rec: seq<Byte>): seq<Byte>
    requires |rec| == SIZE
  {
    rec[..CHECKSUM] + [0, 0, 0, 0] + rec[ENTRY..]
  }

  /** valid_sig */
  predicate ValidSig(mem: seq<Byte>, p: nat, big: bool, crc: seq<Byte> -> U32) {
    && p + SIZE <= |mem|
    && var rec := mem[p..p + SIZE];
    Read(rec[CHECKSUM..ENTRY], big) == crc(Cleared(rec))
  }

  predicate IsSig(mem: seq<Byte>, p: nat, big: bool, crc: seq<Byte> -> U32) {
    HasMagic(mem, p) && ValidSig(mem, p, big, crc)
  }

  // ----- The layout in figures

  /** The 32-bit number at b[i..i + 4]. */
  function NumberAt(b: seq<Byte>, i: nat, big: bool): nat
    requires i + 4 <= |b|
  {
    var b0: nat, b1: nat, b2: nat, b3: nat := b[i], b[i + 1], b[i + 2], b[i + 3];
    if big then b0 * 0x100_0000 + b1 * 0x1_0000 + b2 * 0x100 + b3
    else b3 * 0x100_0000 + b2 * 0x1_0000 + b1 * 0x100 + b0
  }

  /** The 16-bit number at b[i..i + 2]. */
  function HalfAt(b: seq<Byte>, i: nat, big: bool): nat
    requires i + 2 <= |b|
  {
    var b0: nat, b1: nat := b[i], b[i + 1];
    if big then b0 * 0x100 + b1 else b1 * 0x100 + b0
  }

  lemma ReadIs(b: seq<Byte>, i: nat, big: bool)
    requires i + 4 <= |b|
    ensures Read(b[i..i + 4], big) == NumberAt(b, i, big)
  {
    var w := b[i..i + 4];
    assert w[0] == b[i] && w[1] == b[i + 1] && w[2] == b[i + 2] && w[3] == b[i + 3];
  }

  /** The eight letters. */
  ghost predicate SaysUBootAPI(b: seq<Byte>) {
    |b| >= 8 && forall i | 0 <= i < 8 :: b[i] == "UBootAPI"[i] as int
  }

  lemma MagicIs(b: seq<Byte>)
    requires |b| >= 8
    ensures SaysUBootAPI(b) <==> b[..8] == MAGIC
  {
    var m := "UBootAPI";
    assert m[0] as int == 0x55 && m[1] as int == 0x42 && m[2] as int == 0x6F && m[3] as int == 0x6F;
    assert m[4] as int == 0x74 && m[5] as int == 0x41 && m[6] as int == 0x50 && m[7] as int == 0x49;
    assert forall i | 0 <= i < 8 :: b[..8][i] == b[i];
  }

  /** A record is taken for a signature by its letters and by the sum of its 20 bytes with the field at 12 cleared. */
  lemma SignatureIff(mem: seq<Byte>, p: nat, big: bool, crc: seq<Byte> -> U32)
    ensures IsSig(mem, p, big, crc) <==>
            && p + 20 <= |mem|
            && var rec := mem[p..p + 20];
            SaysUBootAPI(rec) && NumberAt(rec, 12, big) == crc(rec[..12] + [0, 0, 0, 0] + rec[16..])
  {
    if p + 20 <= |mem| {
      var rec := mem[p..p + 20];
      MagicIs(rec);
      SubSlice(mem, p, 20, 0, 8);
      assert rec[..8] == rec[0..8] == mem[p..p + 8];
      ReadIs(rec, 12, big);
    }
  }

  method Put(mem: array<Byte>, at: nat, bytes: seq<Byte>)
    requires at + |bytes| <= mem.Length
    modifies mem
    ensures mem[at..at + |bytes|] == bytes
    ensures forall x | 0 <= x < at || at + |bytes| <= x < mem.Length :: mem[x] == old(mem[x])
  {
    for i := 0 to |bytes|
      invariant mem[at..at + i] == bytes[..i]
      invariant forall x | 0 <= x < at || at + i <= x < mem.Length :: mem[x] == old(mem[x])
    {
      mem[at + i] := bytes[i];
    }
  }

  /**
   The end of api_init: the signature goes where malloc says, or nowhere when it fails.
   */
  method BuildSig(mem: array<Byte>, place: Option<nat>, entry: U32, big: bool, crc: seq<Byte> -> U32)
    requires place.Some? ==> place.value + SIZE <= mem.Length
    modifies mem
    ensures place == None ==> mem[..] == old(mem[..])
    ensures place.Some? ==>
              var p := place.value;
              && IsSig(mem[..], p, big, crc)
              && HalfAt(mem[..], p + 8, big) == 1
              && NumberAt(mem[..], p + 16, big) == entry
              && forall x | 0 <= x < p || p + 10 <= x < p + 12 || p + 20 <= x < mem.Length :: mem[x] == old(mem[x])
  {
    if place.Some? {
      WriteSig(mem, place.value, entry, big, crc);
      ReadIs(mem[..], place.value + 16, big);
      ghost var p := place.value;
      assert mem[p + 8..p + 10][0] == mem[p + 8] && mem[p + 8..p + 10][1] == mem[p + 9];
      assert mem[..][p + 16..p + 20] == mem[p + 16..p + 20];
    }
  }

  /**
   The record in freshly allocated memory of any contents: the padding keeps what was
   there, and the record verifies all the same.
   */
  method WriteSig(mem: array<Byte>, p: nat, entry: U32, big: bool, crc: seq<Byte> -> U32)
    requires p + SIZE <= mem.Length
    modifies mem
    ensures HasMagic(mem[..], p) && ValidSig(mem[..], p, big, crc)
    ensures mem[p + MAGLEN..p + MAGLEN + 2] == VersionBytes(big)
    ensures Read(mem[p + ENTRY..p + SIZE], big) == entry
    ensures forall x | 0 <= x < p || p + MAGLEN + 2 <= x < p + CHECKSUM || p + SIZE <= x < mem.Length ::
              mem[x] == old(mem[x])
  {
    PutFields(mem, p, entry, big);
    ghost var filled := mem[..];
    Seal(mem, p, big, crc);
    ghost var sealed := mem[..];
    SameSlice(filled, sealed, p, p + MAGLEN);
    SameSlice(filled, sealed, p + MAGLEN, p + MAGLEN + 2);
    SameSlice(filled, sealed, p + ENTRY, p + SIZE);
    ReadWord(entry, big);
  }

  function VersionBytes(big: bool): seq<Byte> {
    if big then [0, VERSION] else [VERSION, 0]
  }

  method PutFields(mem: array<Byte>, p: nat, entry: U32, big: bool)
    requires p + SIZE <= mem.Length
    modifies mem
    ensures mem[p..p + MAGLEN] == MAGIC && mem[p + MAGLEN..p + MAGLEN + 2] == VersionBytes(big)
    ensures mem[p + ENTRY..p + SIZE] == Word(entry, big)
    ensures forall x | 0 <= x < p || p + MAGLEN + 2 <= x < p + ENTRY || p + SIZE <= x < mem.Length ::
              mem[x] == old(mem[x])
  {
    Put(mem, p, MAGIC);
    ghost var first := mem[..];
    Put(mem, p + MAGLEN, VersionBytes(big));
    ghost var second := mem[..];
    Put(mem, p + ENTRY, Word(entry, big));
    SameSlice(first, mem[..], p, p + MAGLEN);
    SameSlice(second, mem[..], p + MAGLEN, p + MAGLEN + 2);
  }

  /** Clear the checksum, sum the record, and store the sum. */
  method Seal(mem: array<Byte>, p: nat, big: bool, crc: seq<Byte> -> U32)
    requires p + SIZE <= mem.Length
    modifies mem
    ensures ValidSig(mem[..], p, big, crc)
    ensures forall x | 0 <= x < p + CHECKSUM || p + ENTRY <= x < mem.Length :: mem[x] == old(mem[x])
  {
    Put(mem, p + CHECKSUM, [0, 0, 0, 0]);
    ghost var before := mem[..];
    var sum := crc(mem[p..p + SIZE]);
    Put(mem, p + CHECKSUM, Word(sum, big));
    ghost var after := mem[..];
    assert before[p..p + SIZE] == before[..][p..p + SIZE];
    ChecksumClears(before, after, p, sum, big);
  }

  /** Clearing the stored checksum brings back the bytes that were summed. */
  lemma ChecksumClears(before: seq<Byte>, after: seq<Byte>, p: nat, sum: U32, big: bool)
    requires p + SIZE <= |before| == |after|
    requires before[p + CHECKSUM..p + ENTRY] == [0, 0, 0, 0]
    requires after[p + CHECKSUM..p + ENTRY] == Word(sum, big)
    requires forall x | p <= x < p + CHECKSUM || p + ENTRY <= x < p + SIZE :: before[x] == after[x]
    ensures Cleared(after[p..p + SIZE]) == before[p..p + SIZE]
    ensures Read(after[p..p + SIZE][CHECKSUM..ENTRY], big) == sum
  {
    var rec, summed := after[p..p + SIZE], before[p..p + SIZE];
    SubSlice(after, p, SIZE, CHECKSUM, ENTRY);
    SubSlice(before, p, SIZE, CHECKSUM, ENTRY);
    ReadWord(sum, big);
    var cleared := Cleared(rec);
    assert |cleared| == SIZE;
    forall x | 0 <= x < SIZE ensures cleared[x] == summed[x] {
      if CHECKSUM <= x < ENTRY {
        assert summed[CHECKSUM..ENTRY][x - CHECKSUM] == summed[x] && cleared[x] == 0;
      } else {
        assert cleared[x] == rec[x] == after[p + x] && summed[x] == before[p + x];
      }
    }
  }

  /** The k-th place where api_search_sig looks. */
  function Probe(start: nat, k: nat): nat {
    start + MAGLEN * k
  }

  /** Every record the search may look at lies in memory. */
  ghost predicate Covered(mem: seq<Byte>, start: nat, end: nat) {
    forall k: nat | Probe(start, k) + MAGLEN < end :: Probe(start, k) + SIZE <= |mem|
  }

  /** The k-th probed place holds a signature, and no earlier one does. */
  ghost predicate FirstSig(mem: seq<Byte>, start: nat, end: nat, k: nat, big: bool, crc: seq<Byte> -> U32) {
    && Probe(start, k) + MAGLEN < end && IsSig(mem, Probe(start, k), big, crc)
    && forall j: nat | j < k :: !IsSig(mem, Probe(start, j), big, crc)
  }

  ghost predicate NoSig(mem: seq<Byte>, start: nat, end: nat, big: bool, crc: seq<Byte> -> U32) {
    forall j: nat | Probe(start, j) + MAGLEN < end :: !IsSig(mem, Probe(start, j), big, crc)
  }

  class SigCell {
    var p: Option<nat>
    constructor (q: Option<nat>)
      ensures p == q
    {
      p := q;
    }
  }

  /** The search loop: `sig` ends up at the first signature, or stays at the last record with a wrong sum. */
  method SearchSig(mem: seq<Byte>, start: nat, end: nat, sig: SigCell, big: bool, crc: seq<Byte> -> U32)
    returns (found: bool, ghost k: nat)
    requires Covered(mem, start, end)
    modifies sig
    ensures found ==> FirstSig(mem, start, end, k, big, crc) && sig.p == Some(Probe(start, k))
    ensures !found ==> NoSig(mem, start, end, big, crc)
  {
    var at := start;
    k := 0;
    while at + MAGLEN < end
      invariant at == Probe(start, k)
      invariant forall j: nat | j < k :: !IsSig(mem, Probe(start, j), big, crc)
      decreases end - at
    {
      if mem[at..at + MAGLEN] == MAGIC {
        sig.p := Some(at);
        if ValidSig(mem, at, big, crc) {
          return true, k;
        }
      }
      at, k := at + MAGLEN, k + 1;
    }
    return false, k;
  }

  const SEARCH_LEN := 3 * 1024 * 1024
  const DEFAULT_HINT: U32 := 255 * 1024 * 1024

  /** The hint rounded down to 1 MB. */
  function Start(hint: U32): (start: U32)
    ensures start <= hint < start + 0x10_0000 && start % 0x10_0000 == 0
  {
    hint - hint % 0x10_0000
  }

  /** The end of the range, as a 32-bit sum. */
  function End(hint: U32): U32 {
    (Start(hint) + SEARCH_LEN - MAGLEN) % 0x1_0000_0000
  }

  /** Only in the last two megabytes does the sum wrap; the range is then empty. */
  lemma EmptyRangeIff(hint: U32)
    ensures Start(hint) + MAGLEN < End(hint) <==> hint < 0xFFE0_0000
    ensures hint < 0xFFE0_0000 ==> End(hint) == Start(hint) + SEARCH_LEN - MAGLEN
  {
  }

  /**
   A lone signature is found exactly when it sits on a multiple of 8 at or above the hint's
   megabyte and more than 16 bytes (so 24 or more) below the end of the three megabytes from there.
   */
  lemma LoneSigFoundIff(mem: seq<Byte>, hint: U32, p: U32, big: bool, crc: seq<Byte> -> U32)
    requires forall q: nat :: IsSig(mem, q, big, crc) <==> q == p
    ensures (exists k: nat :: FirstSig(mem, Start(hint), End(hint), k, big, crc))
       <==> hint < 0xFFE0_0000 && p % 8 == 0
            && hint / 0x10_0000 * 0x10_0000 <= p && p + 16 < hint / 0x10_0000 * 0x10_0000 + 0x30_0000
  {
    var start, end := Start(hint), End(hint);
    EmptyRangeIff(hint);
    if hint < 0xFFE0_0000 && p % 8 == 0 && start <= p && p + 2 * MAGLEN < start + SEARCH_LEN {
      var k := (p - start) / MAGLEN;
      assert Probe(start, k) == p;
      assert FirstSig(mem, start, end, k, big, crc);
    }
    if k: nat :| FirstSig(mem, start, end, k, big, crc) {
      assert Probe(start, k) == p;
    }
  }

  /** The consumer's library, with the hint that its start-up code leaves. */
  class Consumer {
    var hint: U32

    constructor (hint: U32)
      ensures this.hint == hint
    {
      this.hint := hint;
    }

    /** api_search_sig */
    method ApiSearchSig(mem: seq<Byte>, sig: SigCell?, big: bool, crc: seq<Byte> -> U32)
      returns (rc: int, ghost k: nat)
      requires var h := if hint == 0 then DEFAULT_HINT else hint; Covered(mem, Start(h), End(h))
      modifies this, sig
      ensures rc == 0 || rc == 1
      ensures sig == null ==> rc == 0 && hint == old(hint)
      ensures sig != null ==>
                && hint == (if old(hint) == 0 then 0x0FF0_0000 else old(hint))
                && (rc == 1 ==> FirstSig(mem, Start(hint), End(hint), k, big, crc) && sig.p == Some(Probe(Start(hint), k)))
                && (rc == 0 ==> NoSig(mem, Start(hint), End(hint), big, crc) && sig.p == None)
    {
      k := 0;
      if sig == null {
        return 0, k;
      }
      if hint == 0 {
        hint := DEFAULT_HINT;
      }
      var found;
      found, k := SearchSig(mem, Start(hint), End(hint), sig, big, crc);
      if found {
        return 1, k;
      }
      sig.p := None;
      return 0, k;
    }
  }
}
