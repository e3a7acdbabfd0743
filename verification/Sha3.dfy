/** SHA3-256 and SHA3-512 of the native code: the sponge over 64-bit words and bytes. */
module Sha3 {
  import opened KeccakTables
  import opened Keccak
  import opened Sponge

  type Word = bv64

  type Octet = bv8

  const RC: seq<Word> := [
    0x0000000000000001, 0x0000000000008082, 0x800000000000808A, 0x8000000080008000,
    0x000000000000808B, 0x0000000080000001, 0x8000000080008081, 0x8000000000008009,
    0x000000000000008A, 0x0000000000000088, 0x0000000080008009, 0x000000008000000A,
    0x000000008000808B, 0x800000000000008B, 0x8000000000008089, 0x8000000000008003,
    0x8000000000008002, 0x8000000000000080, 0x000000000000800A, 0x800000008000000A,
    0x8000000080008081, 0x8000000000008080, 0x0000000080000001, 0x8000000080008008]

  /** The two shifts of the code; shifting right by all 64 bits is taken to clear the word. */
  function RotL(x: Word, n: nat): Word {
    if n <= 64 then (x << n) | (x >> (64 - n)) else x
  }

  function OffsetAt(i: nat): nat {
    if i < |RHO| then RHO[i] else 0
  }

  function ConstantAt(i: nat): Word {
    if i < |RC| then RC[i] else 0
  }

  function Words64(): Words<Word> {
    Words((a, b) => a ^ b, (a, b) => !a & b, RotL, OffsetAt, ConstantAt)
  }

  /** The place of a byte in a lane. */
  type InLane = bv3

  function PlaceByte(b: Octet, i: nat): Word {
    if i < 8 then Put(b, i as InLane) else 0
  }

  function Put(b: Octet, i: InLane): Word {
    (b as Word) << ((i as Word) << 3)
  }

  function ByteAt(x: Word, i: nat): Octet {
    if i < 8 then Take(x, i as InLane) else 0
  }

  function Take(x: Word, i: InLane): Octet {
    ((x >> ((i as Word) << 3)) & 0xFF) as Octet
  }

  function Codec64(): Codec<Word, Octet> {
    Codec(Words64(), s => if |s| == 25 then KeccakF(Words64(), s) else s, 0, (a, b) => a | b, PlaceByte, ByteAt, 0, (a, b) => a | b)
  }

  lemma CTableHolds<L>(w: Words<L>)
    requires w.rho == OffsetAt
    ensures HoldsOffsets(w, ROTATIONS)
  {
    RotationValues();
    forall x, y | 0 <= x < 5 && 0 <= y < 5 ensures ROTATIONS[x][y] == w.rho(x + 5 * y) {
      Grid(x, y);
      AllRowsAgree(x + 5 * y);
    }
  }

  lemma CudaTablesHold<L>(w: Words<L>)
    requires w.rho == OffsetAt
    ensures HoldsTables(w, RHO, PI)
  {
    RhoValues();
    PiValues();
    forall i: Index ensures RHO[i] == w.rho(i) && PI[i] == PiLane(i) {
      AllRowsAgree(i);
    }
  }

  lemma AllRowsAgree(i: Index)
    ensures AgreesAt(i)
  {
    if i < 10 {
      FirstTwoRowsAgree(i);
    } else {
      LastRowsAgree(i);
    }
  }

  /** On every state the C form and the CUDA form end in the permutation of that state. */
  method BothForms(a: array<Word>, b: array<Word>)
    requires a.Length == b.Length == 25 && a != b && a[..] == b[..]
    modifies a, b
    ensures a[..] == b[..] == KeccakF(Words64(), old(a[..]))
  {
    CTableHolds(Words64());
    CudaTablesHold(Words64());
    FormsAgree(Words64(), ROTATIONS, RHO, PI, a, b);
  }

  const DOMAIN: Octet := 0x06
  const FINAL_BIT: Octet := 0x80

  method Sha3_256(input: seq<Octet>) returns (output: seq<Octet>)
    ensures KeepsLanes(Codec64()) && output == Hash(Codec64(), input, DOMAIN, FINAL_BIT, (1600 - 2 * 256) / 8, 256 / 8)
  {
    CTableHolds(Words64());
    output := KeccakC(Codec64(), ROTATIONS, input, 32, 1088, DOMAIN, FINAL_BIT);
  }

  method Sha3_512(input: seq<Octet>) returns (output: seq<Octet>)
    ensures KeepsLanes(Codec64()) && output == Hash(Codec64(), input, DOMAIN, FINAL_BIT, (1600 - 2 * 512) / 8, 512 / 8)
  {
    CTableHolds(Words64());
    output := KeccakC(Codec64(), ROTATIONS, input, 64, 576, DOMAIN, FINAL_BIT);
  }

  lemma PadDiffers<B>(m: seq<B>, n: seq<B>, ds: B, zeroByte: B, last: B, both: B, r: nat)
    requires r > 0 && |m| < |n|
    requires ds != zeroByte && ds != last && both != zeroByte && both != last
    ensures Pad(m, ds, zeroByte, last, both, r) != Pad(n, ds, zeroByte, last, both, r)
  {
    var p, q := Pad(m, ds, zeroByte, last, both, r), Pad(n, ds, zeroByte, last, both, r);
    var padM, padN := Padding(ds, zeroByte, last, both, r - Left(|m|, r)), Padding(ds, zeroByte, last, both, r - Left(|n|, r));
    if |p| == |q| {
      assert q[|n|] == padN[0] && p[|n|] == padM[|n| - |m|];
      assert padN[0] == ds || padN[0] == both;
      assert padM[|n| - |m|] == zeroByte || padM[|n| - |m|] == last;
    }
  }

  /** The padding loses nothing, whether it is one byte or many: different messages have different padded forms. */
  lemma PadInjective<B>(m: seq<B>, n: seq<B>, ds: B, zeroByte: B, last: B, both: B, r: nat)
    requires r > 0
    requires ds != zeroByte && ds != last && both != zeroByte && both != last
    requires Pad(m, ds, zeroByte, last, both, r) == Pad(n, ds, zeroByte, last, both, r)
    ensures m == n
  {
    if |m| == |n| {
      assert m == Pad(m, ds, zeroByte, last, both, r)[..|m|] && n == Pad(n, ds, zeroByte, last, both, r)[..|n|];
    } else if |m| < |n| {
      PadDiffers(m, n, ds, zeroByte, last, both, r);
    } else {
      PadDiffers(n, m, ds, zeroByte, last, both, r);
    }
  }

  /** The bytes of SHA3 padding: 0x06, zeros, 0x80, or the single byte 0x86. */
  lemma Sha3PadInjective(m: seq<Octet>, n: seq<Octet>, r: nat)
    requires r > 0
    requires Pad(m, DOMAIN, 0, 0 | FINAL_BIT, DOMAIN | FINAL_BIT, r) == Pad(n, DOMAIN, 0, 0 | FINAL_BIT, DOMAIN | FINAL_BIT, r)
    ensures m == n
  {
    assert 0 | FINAL_BIT == 0x80 && DOMAIN | FINAL_BIT == 0x86;
    PadInjective(m, n, DOMAIN, 0, 0x80, 0x86, r);
  }
}
